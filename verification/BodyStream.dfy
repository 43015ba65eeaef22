/** The streaming of file bodies through the shared cache (webserver/svr_http.cc): any number of requests,
    on any connections, each fetching first its header and then its body piece by piece.  The handlers all
    run on CacheTaskID, one at a time; here even the parts of one handler may be interleaved. */
module BodyStream {
  import opened Wrappers
  import opened Sequences
  import opened CacheModel
  import opened ContentKeys
  import CacheRuns

  const MAXWB: nat := 65536

  /** What a buffer in the cache holds: a header (with status 200 or not) or a piece of a body. */
  datatype Content = Head(ok: bool) | Piece(bytes: string)

  /** hst: Ready between handlers, FETCHING with a callback waiting, WRITING a buffer, or deleted. */
  datatype Handler = Ready | Waiting(cb: Callback) | Writing(buf: nat) | Done(ok: bool)

  /** wst */
  datatype Part = HeadPart | BodyPart

  datatype Request = Request(uri: string, wst: Part, hst: Handler, offset: nat, sent: string)

  function Opened(uri: string): Request {
    Request(uri, HeadPart, Ready, 0, "")
  }

  datatype Server = Server(
    cache: CacheRuns.World,
    mem: seq<Content>,    // buffers by number
    bound: seq<nat>,      // the request that each callback is bound to
    reqs: seq<Request>,
    reading: set<nat>)    // requests whose aio_read is under way

  function Initial(quota: size_t, uris: seq<string>): Server {
    Server(CacheRuns.Empty(quota), [], [], seq(|uris|, i requires 0 <= i < |uris| => Opened(uris[i])), {})
  }

  function KeyOf(q: Request): Key {
    if q.wst == HeadPart then HeadKey(q.uri) else BodyKey(q.uri, q.offset)
  }

  // ---- callbacks ----

  /** svr_http_header_wio and svr_http_body_wio: write the data, or end if there is none. */
  function Answered(q: Request, data: Ptr): Request {
    q.(hst := if data.Buf? then Writing(data.id) else Done(false))
  }

  /** The cache's effects on the requests, in order. */
  function Deliver(reqs: seq<Request>, bound: seq<nat>, effects: seq<Effect>): (r: seq<Request>)
    ensures |r| == |reqs|
  {
    if effects == [] then reqs else
      var last := |effects| - 1;
      var before := Deliver(reqs, bound, effects[..last]);
      match effects[last]
      case Called(cb, data, _, _) =>
        if cb < |bound| && bound[cb] < |reqs| then before[bound[cb] := Answered(before[bound[cb]], data)] else before
      case _ => before
  }

  // ---- the handlers ----

  /** Ask: svr_http_header and svr_http_body look their key up, and reserve it and read if it is absent.
      Fill: the header is made (svr_http_header_rio), or the aio_read of a piece ends with n bytes
      (svr_http_body_pio).  Wrote: an aio_write ends after n bytes (svr_http_header_to_body_aio,
      svr_http_body_rio).  Evict: the cache may clean up at any time. */
  datatype Action = Ask(r: nat) | Fill(r: nat, size: size_t) | Wrote(r: nat, n: nat) | Evict(n: nat)

  type Files = map<string, string>

  /** What an aio_read at q's offset may deliver. */
  predicate CanRead(files: Files, q: Request, n: size_t) {
    q.wst == BodyPart ==>
      && q.uri in files && q.offset + n <= |files[q.uri]| && n <= MAXWB
      && (n == 0 <==> q.offset == |files[q.uri]|)
  }

  /** What an aio_write of c may have written. */
  predicate CanWrite(c: Content, n: nat) {
    c.Piece? ==> n <= |c.bytes| && (n == 0 <==> c.bytes == "")
  }

  ghost predicate Enabled(files: Files, s: Server, a: Action) {
    match a
    case Ask(r) => r < |s.reqs| && s.reqs[r].hst == Ready
    case Fill(r, n) => r in s.reading && r < |s.reqs| && CanRead(files, s.reqs[r], n)
    case Wrote(r, n) => r < |s.reqs| && s.reqs[r].hst.Writing? && s.reqs[r].hst.buf < |s.mem|
                        && CanWrite(s.mem[s.reqs[r].hst.buf], n)
    case Evict(n) => IdleListed(s.cache.store) && n <= |s.cache.store.idle|
  }

  /** What the code asserts or relies on: the discipline of the cache, that put takes the buffer, and that
      a buffer being written is neither freed nor of the wrong kind. */
  ghost predicate Sound(s: Server, a: Action) {
    match a
    case Ask(r) => r < |s.reqs| && CacheRuns.Allowed(s.cache, CacheRuns.GetOp(KeyOf(s.reqs[r]), Some(|s.bound|)))
    case Fill(r, n) =>
      && r < |s.reqs| && CacheRuns.Allowed(s.cache, CacheRuns.PutOp(KeyOf(s.reqs[r]), Buf(|s.mem|), n))
      && Put(s.cache.store, KeyOf(s.reqs[r]), Buf(|s.mem|), n).ok
    case Wrote(r, n) => r < |s.reqs| && s.reqs[r].hst.Writing? && WriteSound(s, s.reqs[r], s.reqs[r].hst.buf)
    case Evict(n) => true
  }

  ghost predicate WriteSound(s: Server, q: Request, b: nat) {
    && WellFormed(s.cache.store) && CacheRuns.Counted(s.cache)
    && CacheRuns.FreeCount(s.cache.log, b) == 0
    && b < |s.mem| && (s.mem[b].Head? <==> q.wst == HeadPart)
    && (q.wst == BodyPart ==> CacheRuns.Allowed(s.cache, CacheRuns.DoneOp(KeyOf(q), Buf(b))))
  }

  ghost function AskStep(s: Server, r: nat): Server
    requires r < |s.reqs|
  {
    var key, cb := KeyOf(s.reqs[r]), |s.bound|;
    var first := CacheRuns.GetStep(s.cache, key, Some(cb));
    if key in s.cache.store.slots then
      var bound, waiting := s.bound + [r], s.reqs[r := s.reqs[r].(hst := Waiting(cb))];
      Server(first, s.mem, bound, Deliver(waiting, bound, Get(s.cache.store, key, Some(cb)).effects), s.reading)
    else
      Server(CacheRuns.GetStep(CacheRuns.ReserveStep(first, key), key, Some(cb + 1)), s.mem, s.bound + [r, r],
             s.reqs[r := s.reqs[r].(hst := Waiting(cb + 1))], s.reading + {r})
  }

  function Delivered(files: Files, q: Request, n: size_t): Content
    requires CanRead(files, q, n)
  {
    if q.wst == HeadPart then Head(q.uri in files) else Piece(files[q.uri][q.offset..q.offset + n])
  }

  ghost function FillStep(files: Files, s: Server, r: nat, n: size_t): Server
    requires r < |s.reqs| && CanRead(files, s.reqs[r], n)
  {
    var key, buf := KeyOf(s.reqs[r]), Buf(|s.mem|);
    Server(CacheRuns.PutStep(s.cache, key, buf, n), s.mem + [Delivered(files, s.reqs[r], n)], s.bound,
           Deliver(s.reqs, s.bound, Put(s.cache.store, key, buf, n).effects), s.reading - {r})
  }

  /** The request after its write. */
  function Written(q: Request, c: Content, n: nat): Request
    requires CanWrite(c, n) && (c.Head? <==> q.wst == HeadPart)
  {
    match c
    case Head(ok) => if ok then q.(wst := BodyPart, hst := Ready) else q.(hst := Done(false))
    case Piece(bytes) =>
      if n > 0 then q.(hst := Ready, offset := q.offset + n, sent := q.sent + bytes[..n]) else q.(hst := Done(true))
  }

  ghost function WroteStep(s: Server, r: nat, n: nat): Server
    requires r < |s.reqs| && s.reqs[r].hst.Writing? && WriteSound(s, s.reqs[r], s.reqs[r].hst.buf)
    requires CanWrite(s.mem[s.reqs[r].hst.buf], n)
  {
    var q := s.reqs[r];
    var done := CacheRuns.DoneOp(KeyOf(q), Buf(q.hst.buf));
    s.(cache := if q.wst == BodyPart then CacheRuns.Step(s.cache, done) else s.cache,
       reqs := s.reqs[r := Written(q, s.mem[q.hst.buf], n)])
  }

  ghost function Apply(files: Files, s: Server, a: Action): Server
    requires Enabled(files, s, a) && Sound(s, a)
  {
    match a
    case Ask(r) => AskStep(s, r)
    case Fill(r, n) => FillStep(files, s, r, n)
    case Wrote(r, n) => WroteStep(s, r, n)
    case Evict(n) => s.(cache := CacheRuns.Cleaned(s.cache, n))
  }

  // ---- the invariant ----

  /** Callbacks and buffers are new when they are made. */
  ghost predicate Fresh(s: Server) {
    && (forall cb :: cb in s.cache.offered ==> cb < |s.bound|)
    && (forall b :: b in s.cache.taken ==> b < |s.mem|)
  }

  /** A request waits exactly while its callback is queued under its key. */
  ghost predicate Queued(s: Server) {
    && (forall r :: 0 <= r < |s.reqs| && s.reqs[r].hst.Waiting? ==>
          CacheRuns.Waits(s.cache.store, KeyOf(s.reqs[r]), s.reqs[r].hst.cb) && BoundTo(s, s.reqs[r].hst.cb, r))
    && (forall k, cb :: CacheRuns.Waits(s.cache.store, k, cb) ==>
          exists r: nat :: BoundTo(s, cb, r) && WaitsFor(s, r, k, cb))
  }

  ghost predicate BoundTo(s: Server, cb: Callback, r: nat) {
    cb < |s.bound| && s.bound[cb] == r
  }

  ghost predicate WaitsFor(s: Server, r: nat, k: Key, cb: Callback) {
    r < |s.reqs| && s.reqs[r].hst == Waiting(cb) && KeyOf(s.reqs[r]) == k
  }

  predicate IsWriter(q: Request, k: Key, b: nat) {
    q.hst == Writing(b) && KeyOf(q) == k
  }

  /** How many requests are writing buffer b of key k. */
  function Writers(reqs: seq<Request>, k: Key, b: nat): nat {
    if reqs == [] then 0 else
      Writers(reqs[..|reqs| - 1], k, b) + if IsWriter(reqs[|reqs| - 1], k, b) then 1 else 0
  }

  /** Each of them holds the buffer. */
  ghost predicate Held(s: Server) {
    forall k, b: nat :: Writers(s.reqs, k, b) <= CacheRuns.Holds(s.cache, k, Buf(b))
  }

  function Length(files: Files, uri: string): nat {
    if uri in files then |files[uri]| else 0
  }

  /** The uri is not written like a body key and none of its keys is cut. */
  predicate Legit(files: Files, uri: string) {
    '#' !in uri && Uncut(uri, Length(files, uri))
  }

  /** Every entry that is not reserved has data, and the data is right for its key. */
  ghost predicate Filled(files: Files, s: Server) {
    && (forall k :: k in s.cache.store.slots ==> HasData(s, k))
    && (forall u :: Legit(files, u) ==> HeadRight(files, s, u))
    && (forall u, o: nat :: Legit(files, u) && u in files && o <= |files[u]| ==> BodyRight(files, s, u, o))
  }

  ghost predicate HasData(s: Server, k: Key)
    requires k in s.cache.store.slots
  {
    match s.cache.store.slots[k].data
    case Null => s.cache.store.slots[k].reserved
    case Buf(b) => b < |s.mem|
  }

  ghost predicate Stores(s: Server, k: Key, b: nat) {
    k in s.cache.store.slots && s.cache.store.slots[k].data == Buf(b) && b < |s.mem|
  }

  ghost predicate HeadRight(files: Files, s: Server, u: string) {
    forall b: nat :: Stores(s, HeadKey(u), b) ==> s.mem[b] == Head(u in files)
  }

  predicate IsPiece(c: Content, file: string, o: nat) {
    && c.Piece? && o + |c.bytes| <= |file| && c.bytes == file[o..o + |c.bytes|]
    && (c.bytes == "" <==> o == |file|)
  }

  ghost predicate BodyRight(files: Files, s: Server, u: string, o: nat)
    requires u in files
  {
    forall b: nat :: Stores(s, BodyKey(u, o), b) ==> IsPiece(s.mem[b], files[u], o)
  }

  /** What has been sent is the beginning of the file; all of it at the end. */
  predicate OnTrack(files: Files, q: Request) {
    && Legit(files, q.uri)
    && match q.wst
       case HeadPart => q.offset == 0 && q.sent == "" && (q.hst.Done? ==> !q.hst.ok && q.uri !in files)
       case BodyPart => q.uri in files && q.offset <= |files[q.uri]| && q.sent == files[q.uri][..q.offset]
                        && (q.hst.Done? ==> q.hst.ok && q.offset == |files[q.uri]|)
  }

  /** Each reservation is being read for by one of the requests that wait for it. */
  ghost predicate Reading(s: Server) {
    && (forall r :: r in s.reading ==> r < |s.reqs| && s.reqs[r].hst.Waiting?)
    && (forall r, t :: r in s.reading && t in s.reading && KeyOf(s.reqs[r]) == KeyOf(s.reqs[t]) ==> r == t)
    && (forall k :: k in s.cache.store.slots && s.cache.store.slots[k].reserved ==> HasReader(s, k))
  }

  ghost predicate HasReader(s: Server, k: Key) {
    exists r :: r in s.reading && r < |s.reqs| && KeyOf(s.reqs[r]) == k
  }

  ghost predicate Serving(files: Files, s: Server) {
    && Fresh(s) && Queued(s) && Held(s) && Filled(files, s) && Reading(s)
    && forall r :: 0 <= r < |s.reqs| ==> OnTrack(files, s.reqs[r])
  }

  ghost predicate Invariant(files: Files, s: Server) {
    CacheRuns.Invariant(s.cache) && Serving(files, s)
  }

  // ---- requests that are answered ----

  lemma {:induction false} WritersUpdate(reqs: seq<Request>, r: nat, q: Request, k: Key, b: nat)
    requires r < |reqs|
    ensures Writers(reqs[r := q], k, b) + (if IsWriter(reqs[r], k, b) then 1 else 0)
         == Writers(reqs, k, b) + if IsWriter(q, k, b) then 1 else 0
  {
    var last := |reqs| - 1;
    if r == last {
      assert reqs[r := q][..last] == reqs[..last];
    } else {
      assert reqs[r := q][..last] == reqs[..last][r := q];
      WritersUpdate(reqs[..last], r, q, k, b);
    }
  }

  lemma {:induction false} WriterCounted(reqs: seq<Request>, r: nat, k: Key, b: nat)
    requires r < |reqs| && IsWriter(reqs[r], k, b)
    ensures Writers(reqs, k, b) > 0
  {
    if r < |reqs| - 1 {
      WriterCounted(reqs[..|reqs| - 1], r, k, b);
    }
  }

  /** Request i is bound to one of the callbacks. */
  ghost predicate Hit(bound: seq<nat>, cbs: seq<Callback>, i: nat) {
    exists j :: 0 <= j < |cbs| && cbs[j] < |bound| && bound[cbs[j]] == i
  }

  lemma {:induction false} DeliverAt(reqs: seq<Request>, bound: seq<nat>, cbs: seq<Callback>, data: Ptr, size: size_t)
    ensures var d := Deliver(reqs, bound, CallAll(cbs, data, size, true));
      forall i :: 0 <= i < |reqs| ==> d[i] == if Hit(bound, cbs, i) then Answered(reqs[i], data) else reqs[i]
  {
    if cbs != [] {
      var last := |cbs| - 1;
      DeliverAt(reqs, bound, cbs[..last], data, size);
      var e := CallAll(cbs, data, size, true);
      assert e[..last] == CallAll(cbs[..last], data, size, true);
      forall i | 0 <= i < |reqs|
        ensures Hit(bound, cbs, i) <==> Hit(bound, cbs[..last], i) || (cbs[last] < |bound| && bound[cbs[last]] == i)
      {
        if Hit(bound, cbs[..last], i) {
          var j :| 0 <= j < last && cbs[..last][j] < |bound| && bound[cbs[..last][j]] == i;
          assert cbs[j] == cbs[..last][j];
        }
        if Hit(bound, cbs, i) {
          var j :| 0 <= j < |cbs| && cbs[j] < |bound| && bound[cbs[j]] == i;
          assert j < last ==> cbs[j] == cbs[..last][j];
        }
      }
    }
  }

  /** Each callback makes at most one more writer. */
  lemma {:induction false} DeliverWriters(reqs: seq<Request>, bound: seq<nat>, cbs: seq<Callback>, buf: nat,
                                          size: size_t, key: Key, k: Key, b: nat)
    requires forall cb :: cb in cbs && cb < |bound| && bound[cb] < |reqs| ==> KeyOf(reqs[bound[cb]]) == key
    ensures Writers(Deliver(reqs, bound, CallAll(cbs, Buf(buf), size, true)), k, b)
         <= Writers(reqs, k, b) + if k == key && b == buf then |cbs| else 0
  {
    if cbs != [] {
      var last := |cbs| - 1;
      var init := cbs[..last];
      DeliverAt(reqs, bound, init, Buf(buf), size);
      DeliverWriters(reqs, bound, init, buf, size, key, k, b);
      var e := CallAll(cbs, Buf(buf), size, true);
      assert e[..last] == CallAll(init, Buf(buf), size, true);
      var d := Deliver(reqs, bound, e[..last]);
      var cb := cbs[last];
      if cb < |bound| && bound[cb] < |reqs| {
        assert KeyOf(d[bound[cb]]) == key;
        WritersUpdate(d, bound[cb], Answered(d[bound[cb]], Buf(buf)), k, b);
      }
    }
  }

  lemma {:induction false} CopiesCount(p: Ptr, n: nat)
    ensures multiset(CacheRuns.Copies(p, n))[p] == n
  {
    var c := CacheRuns.Copies(p, n);
    if n > 0 {
      CopiesCount(p, n - 1);
      assert c == CacheRuns.Copies(p, n - 1) + [p];
    }
  }

  // ---- frames ----

  /** Entries keep their data, or go, or come as reservations. */
  ghost predicate SameData(s: Server, v: Server) {
    && v.mem == s.mem
    && forall k :: k in v.cache.store.slots ==>
         if k in s.cache.store.slots
         then v.cache.store.slots[k].data == s.cache.store.slots[k].data
              && v.cache.store.slots[k].reserved == s.cache.store.slots[k].reserved
         else v.cache.store.slots[k].data == Null && v.cache.store.slots[k].reserved
  }

  lemma SameDataFilled(files: Files, s: Server, v: Server)
    requires Filled(files, s) && SameData(s, v)
    ensures Filled(files, v)
  {
    forall k | k in v.cache.store.slots
      ensures HasData(v, k)
    {
      assert k in s.cache.store.slots ==> HasData(s, k);
    }
    assert forall k, b: nat :: Stores(v, k, b) ==> Stores(s, k, b);
    forall u | Legit(files, u)
      ensures HeadRight(files, v, u)
    {
      assert HeadRight(files, s, u);
    }
    forall u, o: nat | Legit(files, u) && u in files && o <= |files[u]|
      ensures BodyRight(files, v, u, o)
    {
      assert BodyRight(files, s, u, o);
    }
  }

  /** Neither the waiting requests nor the queues change, up to what request r does between handlers. */
  lemma SameQueuesQueued(s: Server, v: Server)
    requires Queued(s) && |v.reqs| == |s.reqs| && |s.bound| <= |v.bound| && v.bound[..|s.bound|] == s.bound
    requires forall k, cb :: CacheRuns.Waits(v.cache.store, k, cb) <==> CacheRuns.Waits(s.cache.store, k, cb)
    requires forall r :: 0 <= r < |s.reqs| && (s.reqs[r].hst.Waiting? || v.reqs[r].hst.Waiting?) ==>
      v.reqs[r] == s.reqs[r]
    ensures Queued(v)
  {
    forall k, cb | CacheRuns.Waits(v.cache.store, k, cb)
      ensures exists r: nat :: BoundTo(v, cb, r) && WaitsFor(v, r, k, cb)
    {
      var r: nat :| BoundTo(s, cb, r) && WaitsFor(s, r, k, cb);
      assert BoundTo(v, cb, r) && WaitsFor(v, r, k, cb);
    }
  }

  lemma SameReading(s: Server, v: Server)
    requires Reading(s) && v.reading == s.reading && |v.reqs| == |s.reqs|
    requires forall r :: r in s.reading && r < |s.reqs| ==> v.reqs[r] == s.reqs[r]
    requires forall k :: k in v.cache.store.slots && v.cache.store.slots[k].reserved ==>
      k in s.cache.store.slots && s.cache.store.slots[k].reserved
    ensures Reading(v)
  {
    forall k | k in v.cache.store.slots && v.cache.store.slots[k].reserved
      ensures HasReader(v, k)
    {
      assert HasReader(s, k);
    }
  }

  // ---- what a writer knows ----

  lemma WriterStores(s: Server, r: nat)
    requires CacheRuns.Invariant(s.cache) && Held(s) && Fresh(s)
    requires r < |s.reqs| && s.reqs[r].hst.Writing?
    ensures var k, b := KeyOf(s.reqs[r]), s.reqs[r].hst.buf;
      && Stores(s, k, b) && !s.cache.store.slots[k].reserved
      && k in s.cache.held && Buf(b) in s.cache.held[k]
      && CacheRuns.FreeCount(s.cache.log, b) == 0
  {
    var k, b := KeyOf(s.reqs[r]), s.reqs[r].hst.buf;
    WriterCounted(s.reqs, r, k, b);
    assert Writers(s.reqs, k, b) <= CacheRuns.Holds(s.cache, k, Buf(b));
    assert k in s.cache.held && Buf(b) in s.cache.held[k];
    assert s.cache.store.slots[k].data == Buf(b);
  }

  lemma WriterRight(files: Files, s: Server, r: nat)
    requires Invariant(files, s) && r < |s.reqs| && s.reqs[r].hst.Writing?
    ensures var q, b := s.reqs[r], s.reqs[r].hst.buf;
      && b < |s.mem|
      && if q.wst == HeadPart then s.mem[b] == Head(q.uri in files)
         else q.uri in files && IsPiece(s.mem[b], files[q.uri], q.offset)
  {
    var q := s.reqs[r];
    WriterStores(s, r);
    assert OnTrack(files, q);
    if q.wst == HeadPart {
      assert HeadRight(files, s, q.uri);
    } else {
      assert BodyRight(files, s, q.uri, q.offset);
    }
  }

  /** The server keeps to the discipline of the cache, its asserts hold, and it never writes a freed buffer
      or a buffer of the wrong kind. */
  lemma NoFault(files: Files, s: Server, a: Action)
    requires Invariant(files, s) && Enabled(files, s, a)
    ensures Sound(s, a)
  {
    match a
    case Ask(r) =>
    case Fill(r, n) =>
      assert CacheRuns.Waits(s.cache.store, KeyOf(s.reqs[r]), s.reqs[r].hst.cb);
    case Wrote(r, n) =>
      WriterStores(s, r);
      WriterRight(files, s, r);
    case Evict(n) =>
  }

  // ---- Evict ----

  lemma EvictWaits(w: CacheRuns.World, n: nat)
    requires WellFormed(w.store) && n <= |w.store.idle|
    ensures forall k, cb :: CacheRuns.Waits(CacheRuns.Cleaned(w, n).store, k, cb) <==> CacheRuns.Waits(w.store, k, cb)
  {
    forall k, cb | CacheRuns.Waits(w.store, k, cb)
      ensures CacheRuns.Waits(CacheRuns.Cleaned(w, n).store, k, cb)
    {
      assert w.store.slots[k].refs > 0;
      assert k !in w.store.idle[..n];
    }
  }

  lemma EvictServing(files: Files, s: Server, n: nat)
    requires Serving(files, s) && WellFormed(s.cache.store) && CacheRuns.Counted(s.cache) && n <= |s.cache.store.idle|
    ensures Serving(files, s.(cache := CacheRuns.Cleaned(s.cache, n)))
  {
    var v := s.(cache := CacheRuns.Cleaned(s.cache, n));
    EvictWaits(s.cache, n);
    assert v.bound[..|s.bound|] == s.bound;
    SameQueuesQueued(s, v);
    SameDataFilled(files, s, v);
    SameReading(s, v);
    forall k, b: nat
      ensures Writers(v.reqs, k, b) <= CacheRuns.Holds(v.cache, k, Buf(b))
    {
      CacheRuns.EvictKeepsHolds(s.cache, n, k, Buf(b));
    }
  }

  lemma EvictInvariant(files: Files, s: Server, n: nat)
    requires Invariant(files, s) && Enabled(files, s, Evict(n))
    ensures Invariant(files, Apply(files, s, Evict(n)))
  {
    CacheRuns.CleanupInvariant(s.cache, n);
    EvictServing(files, s, n);
  }

  // ---- Wrote ----

  /** A request that is no longer a writer. */
  lemma WriterLeaves(s: Server, v: Server, r: nat)
    requires Held(s) && r < |s.reqs| && s.reqs[r].hst.Writing? && |v.reqs| == |s.reqs|
    requires v.reqs == s.reqs[r := v.reqs[r]] && !v.reqs[r].hst.Writing?
    requires forall k, b: nat :: CacheRuns.Holds(v.cache, k, Buf(b)) >= CacheRuns.Holds(s.cache, k, Buf(b))
                                 - if IsWriter(s.reqs[r], k, b) then 1 else 0
    ensures Held(v)
  {
    forall k, b: nat
      ensures Writers(v.reqs, k, b) <= CacheRuns.Holds(v.cache, k, Buf(b))
    {
      WritersUpdate(s.reqs, r, v.reqs[r], k, b);
      assert Writers(s.reqs, k, b) <= CacheRuns.Holds(s.cache, k, Buf(b));
    }
  }

  lemma WrittenOnTrack(files: Files, q: Request, c: Content, n: nat)
    requires OnTrack(files, q) && q.hst.Writing? && CanWrite(c, n)
    requires if q.wst == HeadPart then c == Head(q.uri in files)
             else q.uri in files && IsPiece(c, files[q.uri], q.offset)
    ensures OnTrack(files, Written(q, c, n)) && (Written(q, c, n).hst == Ready || Written(q, c, n).hst.Done?)
  {
    if q.wst == BodyPart && n > 0 {
      var f, o := files[q.uri], q.offset;
      assert c.bytes[..n] == f[o..o + n];
      assert f[..o] + f[o..o + n] == f[..o + n];
    } else if q.wst == HeadPart && q.uri in files {
      assert files[q.uri][..0] == "";
    }
  }

  /** Entries only go, or lose references; the queues stay. */
  ghost predicate Thinned(w: CacheRuns.World, v: CacheRuns.World) {
    && v.offered == w.offered && v.taken == w.taken
    && (forall k :: k in v.store.slots ==> k in w.store.slots && v.store.slots[k].data == w.store.slots[k].data
                                           && v.store.slots[k].reserved == w.store.slots[k].reserved)
    && (forall k, cb :: CacheRuns.Waits(v.store, k, cb) <==> CacheRuns.Waits(w.store, k, cb))
  }

  lemma UnreferenceThins(w: CacheRuns.World, key: Key, hold: Ptr)
    requires key in w.store.slots && w.store.slots[key].refs > 0 && key in w.held
    ensures Thinned(w, CacheRuns.UnreferenceStep(w, key, hold))
  {
    var u := CacheRuns.UnreferenceStep(w, key, hold);
    assert u.store.slots == w.store.slots[key := w.store.slots[key].(refs := w.store.slots[key].refs - 1)];
  }

  lemma CleanedThins(w: CacheRuns.World, n: nat)
    requires WellFormed(w.store) && n <= |w.store.idle|
    ensures Thinned(w, CacheRuns.Cleaned(w, n))
  {
    EvictWaits(w, n);
  }

  lemma ThinnedTwice(w: CacheRuns.World, u: CacheRuns.World, v: CacheRuns.World)
    requires Thinned(w, u) && Thinned(u, v)
    ensures Thinned(w, v)
  {
  }

  lemma DoneThins(w: CacheRuns.World, key: Key, hold: Ptr)
    requires CacheRuns.Invariant(w) && CacheRuns.Allowed(w, CacheRuns.DoneOp(key, hold))
    ensures Thinned(w, CacheRuns.Step(w, CacheRuns.DoneOp(key, hold)))
  {
    assert |w.held[key]| > 0;
    UnreferenceWellFormed(w.store, key);
    UnreferenceThins(w, key, hold);
    var u := CacheRuns.UnreferenceStep(w, key, hold);
    if u.store.used > u.store.quota {
      var n := Victims(u.store, Sub(u.store.used, u.store.quota), 0);
      CleanedThins(u, n);
      ThinnedTwice(w, u, CacheRuns.Cleaned(u, n));
    }
  }

  lemma WroteInvariant(files: Files, s: Server, r: nat, n: nat)
    requires Invariant(files, s) && Enabled(files, s, Wrote(r, n)) && Sound(s, Wrote(r, n))
    ensures Invariant(files, Apply(files, s, Wrote(r, n)))
  {
    var v := Apply(files, s, Wrote(r, n));
    var q := s.reqs[r];
    WriterRight(files, s, r);
    WrittenOnTrack(files, q, s.mem[q.hst.buf], n);
    if q.wst == BodyPart {
      var done := CacheRuns.DoneOp(KeyOf(q), Buf(q.hst.buf));
      CacheRuns.StepInvariant(s.cache, done);
      DoneThins(s.cache, KeyOf(q), Buf(q.hst.buf));
      forall k, b: nat
        ensures CacheRuns.Holds(v.cache, k, Buf(b)) >= CacheRuns.Holds(s.cache, k, Buf(b))
                                                       - if IsWriter(q, k, b) then 1 else 0
      {
        CacheRuns.StepKeepsHolds(s.cache, done, k, Buf(b));
      }
    }
    WriterLeaves(s, v, r);
    assert v.bound[..|s.bound|] == s.bound;
    SameQueuesQueued(s, v);
    SameDataFilled(files, s, v);
    SameReading(s, v);
  }

  // ---- Ask ----

  /** A Ready request that goes on to something else than writing keeps Held. */
  lemma AskerHeld(s: Server, v: Server, r: nat)
    requires Held(s) && r < |s.reqs| && s.reqs[r].hst == Ready
    requires |v.reqs| == |s.reqs| && v.reqs == s.reqs[r := v.reqs[r]]
    requires forall k, b: nat :: CacheRuns.Holds(v.cache, k, Buf(b)) >= CacheRuns.Holds(s.cache, k, Buf(b))
                                 + if IsWriter(v.reqs[r], k, b) then 1 else 0
    ensures Held(v)
  {
    forall k, b: nat
      ensures Writers(v.reqs, k, b) <= CacheRuns.Holds(v.cache, k, Buf(b))
    {
      WritersUpdate(s.reqs, r, v.reqs[r], k, b);
      assert Writers(s.reqs, k, b) <= CacheRuns.Holds(s.cache, k, Buf(b));
    }
  }

  /** Request r joins the queue of its key with a new callback. */
  lemma JoinQueued(s: Server, v: Server, r: nat, cb: Callback)
    requires Queued(s) && r < |s.reqs| && s.reqs[r].hst == Ready
    requires v.reqs == s.reqs[r := s.reqs[r].(hst := Waiting(cb))]
    requires |s.bound| <= cb < |v.bound| && v.bound[..|s.bound|] == s.bound && v.bound[cb] == r
    requires forall k, c :: CacheRuns.Waits(v.cache.store, k, c)
                            <==> CacheRuns.Waits(s.cache.store, k, c) || (k == KeyOf(s.reqs[r]) && c == cb)
    ensures Queued(v)
  {
    forall k, c | CacheRuns.Waits(v.cache.store, k, c)
      ensures exists t: nat :: BoundTo(v, c, t) && WaitsFor(v, t, k, c)
    {
      if CacheRuns.Waits(s.cache.store, k, c) {
        var t: nat :| BoundTo(s, c, t) && WaitsFor(s, t, k, c);
        assert BoundTo(v, c, t) && WaitsFor(v, t, k, c);
      } else {
        assert BoundTo(v, cb, r) && WaitsFor(v, r, k, cb);
      }
    }
  }

  lemma GetFilled(w: CacheRuns.World, key: Key, cb: Callback)
    requires CacheRuns.Counted(w) && key in w.store.slots && !w.store.slots[key].reserved
    ensures var v := CacheRuns.GetStep(w, key, Some(cb));
      && v.store.slots == w.store.slots[key := w.store.slots[key].(refs := w.store.slots[key].refs + 1)]
      && v.offered == w.offered + {cb} && v.taken == w.taken
      && (forall k, p :: CacheRuns.Holds(v, k, p) == CacheRuns.Holds(w, k, p)
                         + if k == key && p == w.store.slots[key].data then 1 else 0)
      && (forall k, c :: CacheRuns.Waits(v.store, k, c) <==> CacheRuns.Waits(w.store, k, c))
  {
  }

  lemma AskFilledStep(s: Server, r: nat, b: nat)
    requires r < |s.reqs| && KeyOf(s.reqs[r]) in s.cache.store.slots
    requires var slot := s.cache.store.slots[KeyOf(s.reqs[r])]; !slot.reserved && slot.data == Buf(b)
    ensures AskStep(s, r) == s.(cache := CacheRuns.GetStep(s.cache, KeyOf(s.reqs[r]), Some(|s.bound|)),
                                bound := s.bound + [r], reqs := s.reqs[r := s.reqs[r].(hst := Writing(b))])
  {
    var cb := |s.bound|;
    var waiting := s.reqs[r := s.reqs[r].(hst := Waiting(cb))];
    var e := Get(s.cache.store, KeyOf(s.reqs[r]), Some(cb)).effects;
    assert |e| == 1 && e[..0] == [];
    assert Deliver(waiting, s.bound + [r], e[..0]) == waiting;
  }

  lemma AskFilledHeld(s: Server, r: nat)
    requires Held(s) && CacheRuns.Counted(s.cache) && r < |s.reqs| && s.reqs[r].hst == Ready
    requires KeyOf(s.reqs[r]) in s.cache.store.slots
    requires var slot := s.cache.store.slots[KeyOf(s.reqs[r])]; !slot.reserved && slot.data.Buf?
    ensures Held(AskStep(s, r))
  {
    var key := KeyOf(s.reqs[r]);
    AskFilledStep(s, r, s.cache.store.slots[key].data.id);
    GetFilled(s.cache, key, |s.bound|);
    AskerHeld(s, AskStep(s, r), r);
  }

  lemma AskFilledServing(files: Files, s: Server, r: nat)
    requires Serving(files, s) && CacheRuns.Counted(s.cache) && r < |s.reqs| && s.reqs[r].hst == Ready
    requires KeyOf(s.reqs[r]) in s.cache.store.slots && !s.cache.store.slots[KeyOf(s.reqs[r])].reserved
    ensures Serving(files, AskStep(s, r))
  {
    var key := KeyOf(s.reqs[r]);
    assert HasData(s, key);
    AskFilledHeld(s, r);
    AskFilledStep(s, r, s.cache.store.slots[key].data.id);
    var v := AskStep(s, r);
    GetFilled(s.cache, key, |s.bound|);
    SameQueuesQueued(s, v);
    SameDataFilled(files, s, v);
    SameReading(s, v);
    assert OnTrack(files, s.reqs[r]);
  }

  lemma GetReserved(w: CacheRuns.World, key: Key, cb: Callback)
    requires key in w.store.slots && w.store.slots[key].reserved
    ensures var v := CacheRuns.GetStep(w, key, Some(cb));
      && v.store.slots == w.store.slots[key := w.store.slots[key].(waiters := w.store.slots[key].waiters + [cb])]
      && v.offered == w.offered + {cb} && v.taken == w.taken && v.held == w.held
      && (forall k, c :: CacheRuns.Waits(v.store, k, c) <==> CacheRuns.Waits(w.store, k, c) || (k == key && c == cb))
  {
  }

  lemma AskReservedServing(files: Files, s: Server, r: nat)
    requires Serving(files, s) && r < |s.reqs| && s.reqs[r].hst == Ready
    requires KeyOf(s.reqs[r]) in s.cache.store.slots && s.cache.store.slots[KeyOf(s.reqs[r])].reserved
    ensures Serving(files, AskStep(s, r))
  {
    var key, cb := KeyOf(s.reqs[r]), |s.bound|;
    var v := AskStep(s, r);
    GetReserved(s.cache, key, cb);
    AskerHeld(s, v, r);
    JoinQueued(s, v, r, cb);
    SameDataFilled(files, s, v);
    ReadingKept(s, v, r);
    assert OnTrack(files, s.reqs[r]);
  }

  /** A request that was not reading changes. */
  lemma ReadingKept(s: Server, v: Server, r: nat)
    requires Reading(s) && v.reading == s.reading && r < |s.reqs| && r !in s.reading
    requires |v.reqs| == |s.reqs| && v.reqs == s.reqs[r := v.reqs[r]]
    requires forall k :: k in v.cache.store.slots && v.cache.store.slots[k].reserved ==>
      k in s.cache.store.slots && s.cache.store.slots[k].reserved
    ensures Reading(v)
  {
    SameReading(s, v);
  }

  function ReservedBy(w: CacheRuns.World, key: Key, cb: Callback): CacheRuns.World {
    CacheRuns.GetStep(CacheRuns.ReserveStep(CacheRuns.GetStep(w, key, Some(cb)), key), key, Some(cb + 1))
  }

  lemma GetAbsent(w: CacheRuns.World, key: Key, cb: Callback)
    requires key !in w.store.slots
    ensures var v := ReservedBy(w, key, cb);
      && v.store.slots == w.store.slots[key := EMPTY_SLOT.(waiters := [cb + 1])]
      && v.offered == w.offered + {cb, cb + 1} && v.taken == w.taken && v.held == w.held[key := multiset{Null}]
  {
    assert EMPTY_SLOT.waiters + [cb + 1] == [cb + 1];
  }

  lemma GetAbsentInvariant(w: CacheRuns.World, key: Key, cb: Callback)
    requires CacheRuns.Invariant(w) && key !in w.store.slots && cb !in w.offered && cb + 1 !in w.offered
    ensures CacheRuns.Invariant(ReservedBy(w, key, cb))
  {
    var a := CacheRuns.GetStep(w, key, Some(cb));
    CacheRuns.StepInvariant(w, CacheRuns.GetOp(key, Some(cb)));
    CacheRuns.StepInvariant(a, CacheRuns.ReserveOp(key));
    CacheRuns.StepInvariant(CacheRuns.ReserveStep(a, key), CacheRuns.GetOp(key, Some(cb + 1)));
  }

  lemma AbsentWaits(s: Store, v: Store, key: Key, cb: Callback)
    requires key !in s.slots && v.slots == s.slots[key := EMPTY_SLOT.(waiters := [cb])]
    ensures forall k, c :: CacheRuns.Waits(v, k, c) <==> CacheRuns.Waits(s, k, c) || (k == key && c == cb)
  {
  }

  lemma AskAbsentServing(files: Files, s: Server, r: nat)
    requires Serving(files, s) && r < |s.reqs| && s.reqs[r].hst == Ready
    requires KeyOf(s.reqs[r]) !in s.cache.store.slots && KeyOf(s.reqs[r]) !in s.cache.held
    ensures Serving(files, AskStep(s, r))
  {
    var key, cb := KeyOf(s.reqs[r]), |s.bound|;
    var v := AskStep(s, r);
    assert v.cache == ReservedBy(s.cache, key, cb);
    GetAbsent(s.cache, key, cb);
    AbsentWaits(s.cache.store, v.cache.store, key, cb + 1);
    AskerHeld(s, v, r);
    JoinQueued(s, v, r, cb + 1);
    SameDataFilled(files, s, v);
    ReaderJoins(s, v, r);
    assert OnTrack(files, s.reqs[r]);
  }

  lemma AskCacheInvariant(s: Server, r: nat)
    requires CacheRuns.Invariant(s.cache) && Fresh(s) && r < |s.reqs|
    ensures CacheRuns.Invariant(AskStep(s, r).cache)
  {
    var key, cb := KeyOf(s.reqs[r]), |s.bound|;
    if key in s.cache.store.slots {
      CacheRuns.StepInvariant(s.cache, CacheRuns.GetOp(key, Some(cb)));
    } else {
      GetAbsentInvariant(s.cache, key, cb);
      assert AskStep(s, r).cache == ReservedBy(s.cache, key, cb);
    }
  }

  lemma AskInvariant(files: Files, s: Server, r: nat)
    requires Invariant(files, s) && r < |s.reqs| && s.reqs[r].hst == Ready
    ensures Invariant(files, AskStep(s, r))
  {
    AskCacheInvariant(s, r);
    var key := KeyOf(s.reqs[r]);
    if key !in s.cache.store.slots {
      AskAbsentServing(files, s, r);
    } else if s.cache.store.slots[key].reserved {
      AskReservedServing(files, s, r);
    } else {
      AskFilledServing(files, s, r);
    }
  }

  /** Nobody reads for a key that is absent. */
  lemma NoReaderYet(s: Server, key: Key)
    requires Reading(s) && Queued(s) && key !in s.cache.store.slots
    ensures forall t :: t in s.reading ==> t < |s.reqs| && KeyOf(s.reqs[t]) != key
  {
    forall t | t in s.reading
      ensures KeyOf(s.reqs[t]) != key
    {
      assert CacheRuns.Waits(s.cache.store, KeyOf(s.reqs[t]), s.reqs[t].hst.cb);
    }
  }

  lemma StillRead(s: Server, v: Server, r: nat, k: Key)
    requires HasReader(s, k) && r < |s.reqs| && v.reading == s.reading + {r} && |v.reqs| == |s.reqs|
    requires v.reqs == s.reqs[r := v.reqs[r]] && KeyOf(v.reqs[r]) == KeyOf(s.reqs[r])
    ensures HasReader(v, k)
  {
    var t :| t in s.reading && t < |s.reqs| && KeyOf(s.reqs[t]) == k;
    assert t in v.reading && KeyOf(v.reqs[t]) == k;
  }

  /** Request r reserves its key and begins to read. */
  lemma ReaderJoins(s: Server, v: Server, r: nat)
    requires Reading(s) && Queued(s) && r < |s.reqs| && KeyOf(s.reqs[r]) !in s.cache.store.slots
    requires v.reading == s.reading + {r} && v.reqs == s.reqs[r := s.reqs[r].(hst := Waiting(|s.bound| + 1))]
    requires v.cache.store.slots.Keys == s.cache.store.slots.Keys + {KeyOf(s.reqs[r])}
    requires forall k :: k in s.cache.store.slots ==> v.cache.store.slots[k] == s.cache.store.slots[k]
    ensures Reading(v)
  {
    NoReaderYet(s, KeyOf(s.reqs[r]));
    forall k | k in v.cache.store.slots && v.cache.store.slots[k].reserved
      ensures HasReader(v, k)
    {
      if k == KeyOf(s.reqs[r]) {
        assert r in v.reading && KeyOf(v.reqs[r]) == k;
      } else {
        StillRead(s, v, r, k);
      }
    }
  }

  // ---- Fill ----

  lemma PutReserved(w: CacheRuns.World, key: Key, buf: nat, size: size_t)
    requires CacheRuns.Counted(w) && key in w.store.slots && w.store.slots[key].reserved
    ensures var v, slot := CacheRuns.PutStep(w, key, Buf(buf), size), w.store.slots[key];
      && v.store.slots == w.store.slots[key := slot.(data := Buf(buf), size := size, refs := slot.refs + |slot.waiters|,
                                                     reserved := false)]
      && v.offered == w.offered && v.taken == w.taken + {buf}
      && (forall k, b: nat :: CacheRuns.Holds(v, k, Buf(b)) == CacheRuns.Holds(w, k, Buf(b))
                              + if k == key && b == buf then |slot.waiters| else 0)
  {
    var n := |w.store.slots[key].waiters|;
    CopiesCount(Buf(buf), n);
    forall b: nat | b != buf
      ensures multiset(CacheRuns.Copies(Buf(buf), n))[Buf(b)] == 0
    {
      assert Buf(b) !in CacheRuns.Copies(Buf(buf), n);
    }
  }

  lemma PutWaits(s: Store, v: Store, key: Key, slot: Slot)
    requires key in s.slots && s.slots[key].reserved && !slot.reserved && v.slots == s.slots[key := slot]
    ensures forall k, c :: CacheRuns.Waits(v, k, c) <==> CacheRuns.Waits(s, k, c) && k != key
  {
  }

  /** Every request that waits for the key, and no other, writes the new buffer. */
  lemma FillReqs(files: Files, s: Server, r: nat, n: size_t)
    requires Queued(s) && r < |s.reqs| && CanRead(files, s.reqs[r], n)
    requires KeyOf(s.reqs[r]) in s.cache.store.slots && s.cache.store.slots[KeyOf(s.reqs[r])].reserved
    ensures var v, key := FillStep(files, s, r, n), KeyOf(s.reqs[r]);
      forall i :: 0 <= i < |s.reqs| ==> v.reqs[i] == if s.reqs[i].hst.Waiting? && KeyOf(s.reqs[i]) == key
                                                     then s.reqs[i].(hst := Writing(|s.mem|)) else s.reqs[i]
  {
    var key := KeyOf(s.reqs[r]);
    var cbs := s.cache.store.slots[key].waiters;
    DeliverAt(s.reqs, s.bound, cbs, Buf(|s.mem|), n);
    forall i | 0 <= i < |s.reqs|
      ensures Hit(s.bound, cbs, i) <==> s.reqs[i].hst.Waiting? && KeyOf(s.reqs[i]) == key
    {
      if Hit(s.bound, cbs, i) {
        var j :| 0 <= j < |cbs| && cbs[j] < |s.bound| && s.bound[cbs[j]] == i;
        assert CacheRuns.Waits(s.cache.store, key, cbs[j]);
      }
      if s.reqs[i].hst.Waiting? && KeyOf(s.reqs[i]) == key {
        assert CacheRuns.Waits(s.cache.store, key, s.reqs[i].hst.cb) && BoundTo(s, s.reqs[i].hst.cb, i);
        var j :| 0 <= j < |cbs| && cbs[j] == s.reqs[i].hst.cb;
      }
    }
  }

  lemma FillHeld(files: Files, s: Server, r: nat, n: size_t)
    requires Held(s) && Queued(s) && CacheRuns.Counted(s.cache) && r < |s.reqs| && CanRead(files, s.reqs[r], n)
    requires KeyOf(s.reqs[r]) in s.cache.store.slots && s.cache.store.slots[KeyOf(s.reqs[r])].reserved
    ensures Held(FillStep(files, s, r, n))
  {
    var key, v := KeyOf(s.reqs[r]), FillStep(files, s, r, n);
    var cbs := s.cache.store.slots[key].waiters;
    PutReserved(s.cache, key, |s.mem|, n);
    forall cb | cb in cbs && cb < |s.bound| && s.bound[cb] < |s.reqs|
      ensures KeyOf(s.reqs[s.bound[cb]]) == key
    {
      assert CacheRuns.Waits(s.cache.store, key, cb);
    }
    forall k, b: nat
      ensures Writers(v.reqs, k, b) <= CacheRuns.Holds(v.cache, k, Buf(b))
    {
      DeliverWriters(s.reqs, s.bound, cbs, |s.mem|, n, key, k, b);
      assert Writers(s.reqs, k, b) <= CacheRuns.Holds(s.cache, k, Buf(b));
    }
  }

  /** The waiters of `key` become writers. */
  ghost predicate Woken(s: Server, v: Server, key: Key) {
    && v.bound == s.bound && |v.reqs| == |s.reqs|
    && (forall i :: 0 <= i < |s.reqs| ==> v.reqs[i] == if s.reqs[i].hst.Waiting? && KeyOf(s.reqs[i]) == key
                                                       then s.reqs[i].(hst := Writing(|s.mem|)) else s.reqs[i])
    && (forall k, c :: CacheRuns.Waits(v.cache.store, k, c) <==> CacheRuns.Waits(s.cache.store, k, c) && k != key)
  }

  lemma WokenQueued(s: Server, v: Server, key: Key)
    requires Queued(s) && Woken(s, v, key)
    ensures Queued(v)
  {
    forall k, c | CacheRuns.Waits(v.cache.store, k, c)
      ensures exists t: nat :: BoundTo(v, c, t) && WaitsFor(v, t, k, c)
    {
      var t: nat :| BoundTo(s, c, t) && WaitsFor(s, t, k, c);
      assert BoundTo(v, c, t) && WaitsFor(v, t, k, c);
    }
  }

  lemma WokenReading(s: Server, v: Server, r: nat)
    requires Reading(s) && r in s.reading && r < |s.reqs|
    requires Woken(s, v, KeyOf(s.reqs[r])) && v.reading == s.reading - {r}
    requires forall k :: k in v.cache.store.slots && v.cache.store.slots[k].reserved ==>
      k != KeyOf(s.reqs[r]) && k in s.cache.store.slots && s.cache.store.slots[k].reserved
    ensures Reading(v)
  {
    forall k | k in v.cache.store.slots && v.cache.store.slots[k].reserved
      ensures HasReader(v, k)
    {
      assert HasReader(s, k);
      var t :| t in s.reading && t < |s.reqs| && KeyOf(s.reqs[t]) == k;
      assert t in v.reading && KeyOf(v.reqs[t]) == k;
    }
  }

  /** The buffer read for q's key is right for whatever uri and offset have that key. */
  lemma DeliveredRight(files: Files, q: Request, n: size_t)
    requires OnTrack(files, q) && CanRead(files, q, n)
    ensures forall u :: Legit(files, u) && HeadKey(u) == KeyOf(q) ==> Delivered(files, q, n) == Head(u in files)
    ensures forall u, o: nat :: Legit(files, u) && u in files && o <= |files[u]| && BodyKey(u, o) == KeyOf(q) ==>
      IsPiece(Delivered(files, q, n), files[u], o)
  {
    UncutBelow(q.uri, q.offset, Length(files, q.uri));
    forall u | Legit(files, u) && HeadKey(u) == KeyOf(q)
      ensures Delivered(files, q, n) == Head(u in files)
    {
      UncutBelow(u, 0, Length(files, u));
      UncutBelow(q.uri, 0, Length(files, q.uri));
      KeysApart(u, 0, q.uri, q.offset);
    }
    forall u, o: nat | Legit(files, u) && u in files && o <= |files[u]| && BodyKey(u, o) == KeyOf(q)
      ensures IsPiece(Delivered(files, q, n), files[u], o)
    {
      UncutBelow(u, o, Length(files, u));
      KeysApart(q.uri, q.offset, u, o);
    }
  }

  lemma FillFilled(files: Files, s: Server, v: Server, q: Request, n: size_t)
    requires Filled(files, s) && OnTrack(files, q) && CanRead(files, q, n)
    requires v.mem == s.mem + [Delivered(files, q, n)]
    requires v.cache.store.slots.Keys == s.cache.store.slots.Keys && KeyOf(q) in s.cache.store.slots
    requires forall k :: k in s.cache.store.slots && k != KeyOf(q) ==> v.cache.store.slots[k] == s.cache.store.slots[k]
    requires v.cache.store.slots[KeyOf(q)].data == Buf(|s.mem|)
    ensures Filled(files, v)
  {
    DeliveredRight(files, q, n);
    forall k | k in v.cache.store.slots
      ensures HasData(v, k)
    {
      assert HasData(s, k);
    }
    forall k, b: nat | Stores(v, k, b)
      ensures if k == KeyOf(q) then v.mem[b] == Delivered(files, q, n) else Stores(s, k, b) && v.mem[b] == s.mem[b]
    {
      assert k != KeyOf(q) ==> HasData(s, k);
    }
    forall u | Legit(files, u)
      ensures HeadRight(files, v, u)
    {
      assert HeadRight(files, s, u);
    }
    forall u, o: nat | Legit(files, u) && u in files && o <= |files[u]|
      ensures BodyRight(files, v, u, o)
    {
      assert BodyRight(files, s, u, o);
    }
  }

  lemma FillWakes(files: Files, s: Server, r: nat, n: size_t)
    requires Queued(s) && r < |s.reqs| && CanRead(files, s.reqs[r], n)
    requires KeyOf(s.reqs[r]) in s.cache.store.slots && s.cache.store.slots[KeyOf(s.reqs[r])].reserved
    requires CacheRuns.Counted(s.cache)
    ensures Woken(s, FillStep(files, s, r, n), KeyOf(s.reqs[r]))
  {
    var key, v := KeyOf(s.reqs[r]), FillStep(files, s, r, n);
    FillReqs(files, s, r, n);
    PutReserved(s.cache, key, |s.mem|, n);
    PutWaits(s.cache.store, v.cache.store, key, v.cache.store.slots[key]);
  }

  lemma WokenOnTrack(files: Files, s: Server, v: Server, key: Key)
    requires Woken(s, v, key) && forall i :: 0 <= i < |s.reqs| ==> OnTrack(files, s.reqs[i])
    ensures forall i :: 0 <= i < |v.reqs| ==> OnTrack(files, v.reqs[i])
  {
    assert forall i :: 0 <= i < |v.reqs| ==> OnTrack(files, s.reqs[i]);
  }

  lemma FillServing(files: Files, s: Server, r: nat, n: size_t)
    requires Serving(files, s) && CacheRuns.Counted(s.cache)
    requires r in s.reading && r < |s.reqs| && CanRead(files, s.reqs[r], n)
    ensures Serving(files, FillStep(files, s, r, n))
  {
    var q, v := s.reqs[r], FillStep(files, s, r, n);
    assert CacheRuns.Waits(s.cache.store, KeyOf(q), q.hst.cb);
    PutReserved(s.cache, KeyOf(q), |s.mem|, n);
    FillWakes(files, s, r, n);
    FillHeld(files, s, r, n);
    WokenQueued(s, v, KeyOf(q));
    WokenReading(s, v, r);
    FillFilled(files, s, v, q, n);
    WokenOnTrack(files, s, v, KeyOf(q));
  }

  lemma FillInvariant(files: Files, s: Server, r: nat, n: size_t)
    requires Invariant(files, s) && Enabled(files, s, Fill(r, n)) && Sound(s, Fill(r, n))
    ensures Invariant(files, FillStep(files, s, r, n))
  {
    CacheRuns.StepInvariant(s.cache, CacheRuns.PutOp(KeyOf(s.reqs[r]), Buf(|s.mem|), n));
    FillServing(files, s, r, n);
  }

  // ---- runs ----

  lemma InvariantStep(files: Files, s: Server, a: Action)
    requires Invariant(files, s) && Enabled(files, s, a) && Sound(s, a)
    ensures Invariant(files, Apply(files, s, a))
  {
    match a
    case Ask(r) => AskInvariant(files, s, r);
    case Fill(r, n) => FillInvariant(files, s, r, n);
    case Wrote(r, n) => WroteInvariant(files, s, r, n);
    case Evict(n) => EvictInvariant(files, s, n);
  }

  /** None if some action cannot happen, or would break one of the code's assumptions. */
  ghost function Run(files: Files, s: Server, schedule: seq<Action>): Option<Server> {
    if schedule == [] then Some(s) else
      var last := |schedule| - 1;
      var before := Run(files, s, schedule[..last]);
      if before.Some? && Enabled(files, before.value, schedule[last]) && Sound(before.value, schedule[last])
      then Some(Apply(files, before.value, schedule[last])) else None
  }

  lemma {:induction false} NoWritersYet(reqs: seq<Request>, k: Key, b: nat)
    requires forall r :: 0 <= r < |reqs| ==> !reqs[r].hst.Writing?
    ensures Writers(reqs, k, b) == 0
  {
    if reqs != [] {
      NoWritersYet(reqs[..|reqs| - 1], k, b);
    }
  }

  lemma InitialInvariant(files: Files, quota: size_t, uris: seq<string>)
    requires forall u :: u in uris ==> Legit(files, u)
    ensures Invariant(files, Initial(quota, uris))
  {
    var s := Initial(quota, uris);
    CacheRuns.EmptyInvariant(quota);
    forall k, b: nat
      ensures Writers(s.reqs, k, b) <= CacheRuns.Holds(s.cache, k, Buf(b))
    {
      NoWritersYet(s.reqs, k, b);
    }
    assert forall r :: 0 <= r < |s.reqs| ==> uris[r] in uris;
  }

  lemma {:induction false} RunInvariant(files: Files, s: Server, schedule: seq<Action>)
    requires Invariant(files, s) && Run(files, s, schedule).Some?
    ensures Invariant(files, Run(files, s, schedule).value)
  {
    if schedule != [] {
      var last := |schedule| - 1;
      RunInvariant(files, s, schedule[..last]);
      InvariantStep(files, Run(files, s, schedule[..last]).value, schedule[last]);
    }
  }

  /** Whatever can happen next in a run is sound, so no run of the server stops short at a broken assumption. */
  lemma RunSound(files: Files, quota: size_t, uris: seq<string>, schedule: seq<Action>, a: Action)
    requires forall u :: u in uris ==> Legit(files, u)
    requires Run(files, Initial(quota, uris), schedule).Some?
    requires Enabled(files, Run(files, Initial(quota, uris), schedule).value, a)
    ensures Sound(Run(files, Initial(quota, uris), schedule).value, a)
  {
    InitialInvariant(files, quota, uris);
    RunInvariant(files, Initial(quota, uris), schedule);
    NoFault(files, Run(files, Initial(quota, uris), schedule).value, a);
  }

  /** An answer changes nothing but the handler. */
  lemma {:induction false} DeliverKeeps(reqs: seq<Request>, bound: seq<nat>, effects: seq<Effect>)
    ensures forall i :: 0 <= i < |reqs| ==> Deliver(reqs, bound, effects)[i].(hst := reqs[i].hst) == reqs[i]
  {
    if effects != [] {
      DeliverKeeps(reqs, bound, effects[..|effects| - 1]);
    }
  }

  /** Nothing but the end of its own write changes more of a request than its handler. */
  lemma StepKeeps(files: Files, s: Server, a: Action, i: nat)
    requires Enabled(files, s, a) && Sound(s, a) && i < |s.reqs|
    ensures |Apply(files, s, a).reqs| == |s.reqs|
    ensures !(a.Wrote? && a.r == i) ==> Apply(files, s, a).reqs[i].(hst := s.reqs[i].hst) == s.reqs[i]
    ensures Apply(files, s, a).reqs[i].uri == s.reqs[i].uri
  {
    match a
    case Ask(r) =>
      var key, cb := KeyOf(s.reqs[r]), |s.bound|;
      if key in s.cache.store.slots {
        var effects := Get(s.cache.store, key, Some(cb)).effects;
        DeliverKeeps(s.reqs[r := s.reqs[r].(hst := Waiting(cb))], s.bound + [r], effects);
      }
    case Fill(r, n) => DeliverKeeps(s.reqs, s.bound, Put(s.cache.store, KeyOf(s.reqs[r]), Buf(|s.mem|), n).effects);
    case Wrote(r, n) =>
    case Evict(n) =>
  }

  /** A request that waits for no callback is moved by its own steps only. */
  lemma StaysPut(files: Files, s: Server, a: Action, i: nat)
    requires Invariant(files, s) && Enabled(files, s, a) && Sound(s, a) && i < |s.reqs| && !s.reqs[i].hst.Waiting?
    requires !(a.Ask? && a.r == i) && !(a.Wrote? && a.r == i)
    ensures i < |Apply(files, s, a).reqs| && Apply(files, s, a).reqs[i] == s.reqs[i]
  {
    match a
    case Ask(r) => AskRank(files, s, r);
    case Fill(r, n) =>
      assert CacheRuns.Waits(s.cache.store, KeyOf(s.reqs[r]), s.reqs[r].hst.cb);
      FillWakes(files, s, r, n);
    case Wrote(r, n) =>
    case Evict(n) =>
  }

  /** A request ends only at the end of one of its own writes. */
  lemma OnlyWritesEnd(files: Files, s: Server, a: Action, i: nat)
    requires Invariant(files, s) && Enabled(files, s, a) && Sound(s, a) && i < |s.reqs| && !s.reqs[i].hst.Done?
    requires !(a.Wrote? && a.r == i)
    ensures i < |Apply(files, s, a).reqs| && !Apply(files, s, a).reqs[i].hst.Done?
  {
    match a
    case Ask(r) =>
      var key := KeyOf(s.reqs[r]);
      AskRank(files, s, r);
      if key in s.cache.store.slots && !s.cache.store.slots[key].reserved {
        assert HasData(s, key);
        AskFilledStep(s, r, s.cache.store.slots[key].data.id);
      }
    case Fill(r, n) =>
      assert CacheRuns.Waits(s.cache.store, KeyOf(s.reqs[r]), s.reqs[r].hst.cb);
      FillWakes(files, s, r, n);
    case Wrote(r, n) =>
    case Evict(n) =>
  }

  /** s is where some run of the server comes to. */
  ghost predicate Reached(files: Files, s: Server) {
    exists quota, uris, schedule :: ReachedBy(files, s, quota, uris, schedule)
  }

  ghost predicate ReachedBy(files: Files, s: Server, quota: size_t, uris: seq<string>, schedule: seq<Action>) {
    (forall u :: u in uris ==> Legit(files, u)) && Run(files, Initial(quota, uris), schedule) == Some(s)
  }

  lemma ReachedInvariant(files: Files, s: Server)
    requires Reached(files, s)
    ensures Invariant(files, s)
  {
    var quota, uris, schedule :| ReachedBy(files, s, quota, uris, schedule);
    InitialInvariant(files, quota, uris);
    RunInvariant(files, Initial(quota, uris), schedule);
  }

  lemma InitialReached(files: Files, quota: size_t, uris: seq<string>)
    requires forall u :: u in uris ==> Legit(files, u)
    ensures Reached(files, Initial(quota, uris))
  {
    assert ReachedBy(files, Initial(quota, uris), quota, uris, []);
  }

  lemma StepReached(files: Files, s: Server, a: Action)
    requires Reached(files, s) && Enabled(files, s, a) && Sound(s, a)
    ensures Reached(files, Apply(files, s, a))
  {
    var quota, uris, schedule :| ReachedBy(files, s, quota, uris, schedule);
    assert (schedule + [a])[..|schedule|] == schedule;
    assert ReachedBy(files, Apply(files, s, a), quota, uris, schedule + [a]);
  }

  /** In a run: a request that is writing goes on writing until its own write ends. */
  lemma WriterStays(files: Files, s: Server, a: Action, i: nat)
    requires Reached(files, s) && Enabled(files, s, a) && Sound(s, a) && i < |s.reqs| && s.reqs[i].hst.Writing?
    requires !(a.Wrote? && a.r == i)
    ensures i < |Apply(files, s, a).reqs| && Apply(files, s, a).reqs[i] == s.reqs[i]
  {
    ReachedInvariant(files, s);
    StaysPut(files, s, a, i);
  }

  lemma {:induction false} RunKeepsUris(files: Files, s: Server, schedule: seq<Action>)
    requires Run(files, s, schedule).Some?
    ensures var v := Run(files, s, schedule).value;
      |v.reqs| == |s.reqs| && forall i :: 0 <= i < |s.reqs| ==> v.reqs[i].uri == s.reqs[i].uri
  {
    if schedule != [] {
      var last := |schedule| - 1;
      RunKeepsUris(files, s, schedule[..last]);
      var u := Run(files, s, schedule[..last]).value;
      forall i | 0 <= i < |s.reqs|
        ensures |Apply(files, u, schedule[last]).reqs| == |u.reqs|
        ensures Apply(files, u, schedule[last]).reqs[i].uri == u.reqs[i].uri
      {
        StepKeeps(files, u, schedule[last], i);
      }
    }
  }

  /** Whatever mix of hits, misses, waits and evictions: what a request has sent is always a prefix of its
      file, and when it ends it ends with 200 and the whole file if there is one, and with 404 if not. */
  lemma StreamIsFile(files: Files, quota: size_t, uris: seq<string>, schedule: seq<Action>, r: nat)
    requires r < |uris| && forall u :: u in uris ==> Legit(files, u)
    requires Run(files, Initial(quota, uris), schedule).Some?
    ensures var v, u := Run(files, Initial(quota, uris), schedule).value, uris[r];
      && |v.reqs| == |uris|
      && (v.reqs[r].sent != "" ==> u in files && v.reqs[r].sent <= files[u])
      && (v.reqs[r].hst.Done? ==> (v.reqs[r].hst.ok <==> u in files)
                                  && v.reqs[r].sent == if u in files then files[u] else "")
  {
    InitialInvariant(files, quota, uris);
    RunInvariant(files, Initial(quota, uris), schedule);
    RunKeepsUris(files, Initial(quota, uris), schedule);
    var q := Run(files, Initial(quota, uris), schedule).value.reqs[r];
    assert OnTrack(files, q) && q.uri == uris[r];
    if q.wst == BodyPart {
      assert files[q.uri][..|files[q.uri]|] == files[q.uri];
    }
  }

  // ---- holds of body buffers ----

  /** The holders of buffer b of key k are exactly the requests that are writing it. */
  ghost predicate Balanced(s: Server, k: Key, b: nat) {
    CacheRuns.Holds(s.cache, k, Buf(b)) == Writers(s.reqs, k, b)
  }

  /** k is no request's header key. */
  predicate NoHead(s: Server, k: Key) {
    forall r :: 0 <= r < |s.reqs| ==> HeadKey(s.reqs[r].uri) != k
  }

  /** The callback's request waits with it for the key. */
  predicate WaiterOf(reqs: seq<Request>, bound: seq<nat>, cb: Callback, key: Key) {
    cb < |bound| && bound[cb] < |reqs| && reqs[bound[cb]].hst == Waiting(cb) && KeyOf(reqs[bound[cb]]) == key
  }

  lemma NotHitYet(reqs: seq<Request>, bound: seq<nat>, init: seq<Callback>, cb: Callback, key: Key)
    requires forall c :: c in init ==> WaiterOf(reqs, bound, c, key)
    requires WaiterOf(reqs, bound, cb, key) && cb !in init
    ensures !Hit(bound, init, bound[cb])
  {
    forall j | 0 <= j < |init|
      ensures init[j] < |bound| && bound[init[j]] != bound[cb]
    {
      assert WaiterOf(reqs, bound, init[j], key);
    }
  }

  /** Each callback makes exactly one more writer, of its own request. */
  lemma {:induction false} DeliverWritersExact(reqs: seq<Request>, bound: seq<nat>, cbs: seq<Callback>, buf: nat,
                                               size: size_t, key: Key, k: Key, b: nat)
    requires Distinct(cbs)
    requires forall cb :: cb in cbs ==> WaiterOf(reqs, bound, cb, key)
    ensures Writers(Deliver(reqs, bound, CallAll(cbs, Buf(buf), size, true)), k, b)
         == Writers(reqs, k, b) + if k == key && b == buf then |cbs| else 0
    decreases |cbs|
  {
    if cbs != [] {
      var last := |cbs| - 1;
      var init, cb := cbs[..last], cbs[last];
      RemoveDistinct(cbs, last);
      assert RemoveAt(cbs, last) == init;
      DeliverWritersExact(reqs, bound, init, buf, size, key, k, b);
      var e := CallAll(cbs, Buf(buf), size, true);
      assert e[..last] == CallAll(init, Buf(buf), size, true);
      NotHitYet(reqs, bound, init, cb, key);
      DeliverAt(reqs, bound, init, Buf(buf), size);
      assert WaiterOf(reqs, bound, cb, key);
      LastWakes(reqs, Deliver(reqs, bound, e[..last]), bound, cb, buf, key, k, b);
    }
  }

  lemma LastWakes(reqs: seq<Request>, d: seq<Request>, bound: seq<nat>, cb: Callback, buf: nat,
                  key: Key, k: Key, b: nat)
    requires WaiterOf(reqs, bound, cb, key) && |d| == |reqs| && d[bound[cb]] == reqs[bound[cb]]
    ensures Writers(d[bound[cb] := Answered(d[bound[cb]], Buf(buf))], k, b)
         == Writers(d, k, b) + if k == key && b == buf then 1 else 0
  {
    WritersUpdate(d, bound[cb], Answered(d[bound[cb]], Buf(buf)), k, b);
  }

  lemma AskBalanced(files: Files, s: Server, r: nat, k: Key, b: nat)
    requires Filled(files, s) && CacheRuns.Counted(s.cache) && Balanced(s, k, b)
    requires r < |s.reqs| && s.reqs[r].hst == Ready
    ensures Balanced(AskStep(s, r), k, b)
  {
    var key, cb := KeyOf(s.reqs[r]), |s.bound|;
    var v := AskStep(s, r);
    if key !in s.cache.store.slots {
      assert v.cache == ReservedBy(s.cache, key, cb);
      GetAbsent(s.cache, key, cb);
    } else if s.cache.store.slots[key].reserved {
      GetReserved(s.cache, key, cb);
    } else {
      assert HasData(s, key);
      AskFilledStep(s, r, s.cache.store.slots[key].data.id);
      GetFilled(s.cache, key, cb);
    }
    WritersUpdate(s.reqs, r, v.reqs[r], k, b);
    AskRank(files, s, r);
  }

  lemma FillBalanced(files: Files, s: Server, r: nat, n: size_t, k: Key, b: nat)
    requires Queued(s) && CacheRuns.Counted(s.cache) && Balanced(s, k, b)
    requires r < |s.reqs| && CanRead(files, s.reqs[r], n)
    requires KeyOf(s.reqs[r]) in s.cache.store.slots && s.cache.store.slots[KeyOf(s.reqs[r])].reserved
    requires Distinct(s.cache.store.slots[KeyOf(s.reqs[r])].waiters)
    ensures Balanced(FillStep(files, s, r, n), k, b)
  {
    var key := KeyOf(s.reqs[r]);
    var cbs := s.cache.store.slots[key].waiters;
    PutReserved(s.cache, key, |s.mem|, n);
    forall cb | cb in cbs
      ensures WaiterOf(s.reqs, s.bound, cb, key)
    {
      assert CacheRuns.Waits(s.cache.store, key, cb);
    }
    DeliverWritersExact(s.reqs, s.bound, cbs, |s.mem|, n, key, k, b);
  }

  lemma WroteBalanced(s: Server, r: nat, n: nat, k: Key, b: nat)
    requires CacheRuns.Vacant(s.cache) && NoHead(s, k) && Balanced(s, k, b)
    requires r < |s.reqs| && s.reqs[r].hst.Writing? && WriteSound(s, s.reqs[r], s.reqs[r].hst.buf)
    requires CanWrite(s.mem[s.reqs[r].hst.buf], n)
    ensures Balanced(WroteStep(s, r, n), k, b)
  {
    var q := s.reqs[r];
    WritersUpdate(s.reqs, r, Written(q, s.mem[q.hst.buf], n), k, b);
    if q.wst == BodyPart {
      CacheRuns.DoneHolds(s.cache, KeyOf(q), Buf(q.hst.buf), k, Buf(b));
    }
  }

  lemma StepBalanced(files: Files, s: Server, a: Action, k: Key, b: nat)
    requires Invariant(files, s) && Enabled(files, s, a) && Sound(s, a) && NoHead(s, k) && Balanced(s, k, b)
    ensures Balanced(Apply(files, s, a), k, b)
  {
    match a
    case Ask(r) => AskBalanced(files, s, r, k, b);
    case Fill(r, n) =>
      assert CacheRuns.Waits(s.cache.store, KeyOf(s.reqs[r]), s.reqs[r].hst.cb);
      FillBalanced(files, s, r, n, k, b);
    case Wrote(r, n) => WroteBalanced(s, r, n, k, b);
    case Evict(n) => CacheRuns.EvictKeepsHolds(s.cache, n, k, Buf(b));
  }

  /** In every run each body buffer has exactly as many holders as requests are writing it: the doneWith after a
      piece gives back the one hold that its get took.  (Header holds are never given back.) */
  lemma {:induction false} BodyHoldsAreWriters(files: Files, quota: size_t, uris: seq<string>, schedule: seq<Action>,
                                               u: string, o: nat, b: nat)
    requires forall w :: w in uris ==> Legit(files, w)
    requires Run(files, Initial(quota, uris), schedule).Some?
    requires Legit(files, u) && u in files && o <= |files[u]|
    ensures var v := Run(files, Initial(quota, uris), schedule).value;
      CacheRuns.Holds(v.cache, BodyKey(u, o), Buf(b)) == Writers(v.reqs, BodyKey(u, o), b)
  {
    var s := Initial(quota, uris);
    InitialInvariant(files, quota, uris);
    if schedule == [] {
      NoWritersYet(s.reqs, BodyKey(u, o), b);
    } else {
      var last := |schedule| - 1;
      BodyHoldsAreWriters(files, quota, uris, schedule[..last], u, o, b);
      RunInvariant(files, s, schedule[..last]);
      var v := Run(files, s, schedule[..last]).value;
      NoHeadIsBody(files, v, u, o);
      StepBalanced(files, v, schedule[last], BodyKey(u, o), b);
    }
  }

  lemma NoHeadIsBody(files: Files, s: Server, u: string, o: nat)
    requires Serving(files, s) && Legit(files, u) && u in files && o <= |files[u]|
    ensures NoHead(s, BodyKey(u, o))
  {
    UncutBelow(u, o, Length(files, u));
    forall r | 0 <= r < |s.reqs|
      ensures HeadKey(s.reqs[r].uri) != BodyKey(u, o)
    {
      var w := s.reqs[r].uri;
      assert OnTrack(files, s.reqs[r]);
      UncutBelow(w, 0, Length(files, w));
      KeysApart(w, 0, u, o);
    }
  }

  // ---- every request is served ----

  lemma ReaderGoesOn(files: Files, s: Server, r: nat)
    requires Serving(files, s) && r < |s.reqs| && s.reqs[r].hst.Waiting?
    ensures exists t, n :: Enabled(files, s, Fill(t, n))
  {
    var k := KeyOf(s.reqs[r]);
    assert CacheRuns.Waits(s.cache.store, k, s.reqs[r].hst.cb);
    assert HasReader(s, k);
    var t :| t in s.reading && t < |s.reqs| && KeyOf(s.reqs[t]) == k;
    var q := s.reqs[t];
    assert OnTrack(files, q);
    var rest := if q.wst == BodyPart then |files[q.uri]| - q.offset else 0;
    assert Enabled(files, s, Fill(t, if rest < MAXWB then rest else MAXWB));
  }

  lemma WriterGoesOn(files: Files, s: Server, r: nat) returns (n: nat)
    requires Invariant(files, s) && r < |s.reqs| && s.reqs[r].hst.Writing?
    ensures Enabled(files, s, Wrote(r, n))
  {
    WriterStores(s, r);
    var c := s.mem[s.reqs[r].hst.buf];
    n := if c.Piece? then |c.bytes| else 0;
  }

  /** While a request is not done, something other than an eviction can happen. */
  lemma NeverStuck(files: Files, s: Server, r: nat)
    requires Invariant(files, s) && r < |s.reqs| && !s.reqs[r].hst.Done?
    ensures exists a: Action :: !a.Evict? && Enabled(files, s, a)
  {
    match s.reqs[r].hst
    case Ready =>
      assert Enabled(files, s, Ask(r));
    case Waiting(_) =>
      ReaderGoesOn(files, s, r);
      var t, n :| Enabled(files, s, Fill(t, n));
      assert !Fill(t, n).Evict?;
    case Writing(b) =>
      var n := WriterGoesOn(files, s, r);
      assert !Wrote(r, n).Evict?;
  }

  /** How far a request is from being done. */
  function Rank(files: Files, q: Request): nat {
    if q.hst.Done? then 0 else
      var len := Length(files, q.uri);
      3 * (if q.wst == HeadPart then len + 2 else if q.offset <= len then len - q.offset + 1 else 0)
      + match q.hst { case Ready => 2 case Waiting(_) => 1 case _ => 0 }
  }

  function Total(files: Files, reqs: seq<Request>): nat {
    if reqs == [] then 0 else Total(files, reqs[..|reqs| - 1]) + Rank(files, reqs[|reqs| - 1])
  }

  lemma {:induction false} TotalFalls(files: Files, before: seq<Request>, after: seq<Request>)
    requires |after| == |before|
    requires forall i :: 0 <= i < |before| ==> Rank(files, after[i]) <= Rank(files, before[i])
    ensures Total(files, after) <= Total(files, before)
    ensures forall i :: 0 <= i < |before| && Rank(files, after[i]) < Rank(files, before[i]) ==>
      Total(files, after) < Total(files, before)
  {
    if before != [] {
      TotalFalls(files, before[..|before| - 1], after[..|after| - 1]);
    }
  }

  lemma WrittenRank(files: Files, q: Request, c: Content, n: nat)
    requires OnTrack(files, q) && q.hst.Writing? && CanWrite(c, n)
    requires if q.wst == HeadPart then c == Head(q.uri in files)
             else q.uri in files && IsPiece(c, files[q.uri], q.offset)
    ensures Rank(files, Written(q, c, n)) < Rank(files, q)
  {
  }

  lemma AskRank(files: Files, s: Server, r: nat)
    requires Filled(files, s) && r < |s.reqs| && s.reqs[r].hst == Ready
    ensures var v := AskStep(s, r).reqs;
      v == s.reqs[r := v[r]] && Rank(files, v[r]) < Rank(files, s.reqs[r])
  {
    var key := KeyOf(s.reqs[r]);
    if key in s.cache.store.slots && !s.cache.store.slots[key].reserved {
      assert HasData(s, key);
      AskFilledStep(s, r, s.cache.store.slots[key].data.id);
    }
  }

  lemma FillProgress(files: Files, s: Server, r: nat, n: size_t)
    requires Serving(files, s) && CacheRuns.Counted(s.cache)
    requires r in s.reading && r < |s.reqs| && CanRead(files, s.reqs[r], n)
    ensures Total(files, FillStep(files, s, r, n).reqs) < Total(files, s.reqs)
  {
    var v := FillStep(files, s, r, n);
    assert CacheRuns.Waits(s.cache.store, KeyOf(s.reqs[r]), s.reqs[r].hst.cb);
    FillWakes(files, s, r, n);
    TotalFalls(files, s.reqs, v.reqs);
    assert Rank(files, v.reqs[r]) < Rank(files, s.reqs[r]);
  }

  lemma WroteProgress(files: Files, s: Server, r: nat, n: nat)
    requires Invariant(files, s) && Enabled(files, s, Wrote(r, n)) && Sound(s, Wrote(r, n))
    ensures Total(files, WroteStep(s, r, n).reqs) < Total(files, s.reqs)
  {
    WriterRight(files, s, r);
    WrittenRank(files, s.reqs[r], s.mem[s.reqs[r].hst.buf], n);
    TotalFalls(files, s.reqs, WroteStep(s, r, n).reqs);
  }

  lemma StepProgress(files: Files, s: Server, a: Action)
    requires Invariant(files, s) && Enabled(files, s, a) && Sound(s, a)
    ensures Total(files, Apply(files, s, a).reqs) + (if a.Evict? then 0 else 1) <= Total(files, s.reqs)
  {
    match a
    case Ask(r) =>
      AskRank(files, s, r);
      TotalFalls(files, s.reqs, AskStep(s, r).reqs);
    case Fill(r, n) => FillProgress(files, s, r, n);
    case Wrote(r, n) => WroteProgress(files, s, r, n);
    case Evict(n) =>
  }

  function Work(schedule: seq<Action>): nat {
    if schedule == [] then 0 else
      Work(schedule[..|schedule| - 1]) + if schedule[|schedule| - 1].Evict? then 0 else 1
  }

  /** Only so much can happen, evictions apart: with NeverStuck, every request is done in the end. */
  lemma {:induction false} SchedulesEnd(files: Files, s: Server, schedule: seq<Action>)
    requires Invariant(files, s) && Run(files, s, schedule).Some?
    ensures Work(schedule) + Total(files, Run(files, s, schedule).value.reqs) <= Total(files, s.reqs)
  {
    if schedule != [] {
      var last := |schedule| - 1;
      SchedulesEnd(files, s, schedule[..last]);
      RunInvariant(files, s, schedule[..last]);
      StepProgress(files, Run(files, s, schedule[..last]).value, schedule[last]);
    }
  }
}
