/** One connection's packages in webserver/svr_http.cc: a parent that reads, and the chain of GETs it
    parsed, which are fetched, written and deleted one at a time.  Runs without errors or end of file. */
module Pipeline {
  import opened Wrappers
  import opened Sequences
  import RequestParser

  type Id = nat // an HPKG object; 0 is the connection's parent package

  datatype Package = Package(request: Option<RequestParser.Request>, ppg: Option<Id>, lcg: Option<Id>, nsg: Option<Id>)

  /** What a queued task or an I/O under way will call. */
  datatype Pending =
    | Read(pk: Id)    // svr_http_read
    | Parse(pk: Id)   // the aio_read that svr_http_parse_aio waits for
    | Fetch(pk: Id)   // svr_http_fetch
    | Get(pk: Id)     // a callback that the cache will call
    | Write(pk: Id)   // an aio_write

  datatype Event =
    | Asked                                                          // a read of the socket is issued
    | Parsed(ids: seq<Id>, requests: seq<RequestParser.Request>)     // packages made, in the text's order
    | Fetched(pk: Id)
    | Issued(pk: Id)
    | Wrote(pk: Id)
    | Deleted(pk: Id)

  datatype Conn = Conn(heap: map<Id, Package>, top: Id, pending: seq<Pending>, log: seq<Event>)

  const PARENT := Package(None, None, None, None)

  function Accepted(): Conn {
    Conn(map[0 := PARENT], 1, [Read(0)], [])
  }

  /** Pending thing i happens: the text a read delivers; whether more of a response is to be written. */
  datatype Action =
    | ReadNow(i: nat)
    | ParseNow(i: nat, text: seq<char>, nbytes: nat)
    | FetchNow(i: nat)
    | Answer(i: nat)
    | EndWrite(i: nat, more: bool)

  // ---- the handlers ----

  /** The links that svr_http_parse sets for each request it finds. */
  function Link(heap: map<Id, Package>, pk: Id, gk: Id, request: RequestParser.Request): map<Id, Package>
    requires pk in heap && gk !in heap
    requires heap[pk].lcg.Some? ==> heap[pk].lcg.value in heap
  {
    var made := heap[gk := Package(Some(request), Some(pk), None, None)];
    var linked := match heap[pk].lcg {
      case None => made
      case Some(last) => made[last := made[last].(nsg := Some(gk))]
    };
    linked[pk := linked[pk].(lcg := Some(gk))]
  }

  /** svr_http_fetch's test for a 400 answer. */
  predicate Bad(request: RequestParser.Request) {
    request.uri.None? || request.ver.None? || request.ver.value !in {"HTTP/1.0", "HTTP/1.1"}
  }

  predicate Enabled(c: Conn, a: Action) {
    match a
    case ReadNow(i) => i < |c.pending| && c.pending[i].Read?
    case ParseNow(i, text, nbytes) =>
      i < |c.pending| && c.pending[i].Parse? && 0 < nbytes < |text| && RequestParser.Terminated(text)
    case FetchNow(i) => i < |c.pending| && c.pending[i].Fetch?
    case Answer(i) => i < |c.pending| && c.pending[i].Get?
    case EndWrite(i, _) => i < |c.pending| && c.pending[i].Write?
  }

  /** The package may be touched, and so may its parent. */
  predicate Live(c: Conn, pk: Id) {
    pk in c.heap && c.heap[pk].request.Some? && c.heap[pk].ppg.Some? && c.heap[pk].ppg.value in c.heap
  }

  /** No handler touches a deleted package, and a parse starts with no children. */
  predicate Sound(c: Conn, a: Action)
    requires Enabled(c, a)
  {
    match a
    case ReadNow(i) => c.pending[i].pk in c.heap
    case ParseNow(i, _, _) => c.pending[i].pk in c.heap && c.heap[c.pending[i].pk].lcg == None
                              && forall k :: k in c.heap ==> k < c.top
    case _ => Live(c, c.pending[a.i].pk)
  }

  /** The handler of pending thing i runs: `next` is what it starts. */
  function Goes(c: Conn, i: nat, next: Pending, events: seq<Event>): Conn
    requires i < |c.pending|
  {
    c.(pending := RemoveAt(c.pending, i) + [next], log := c.log + events)
  }

  /** The packages for these requests, linked one by one from number `top` on. */
  function LinkAll(heap: map<Id, Package>, pk: Id, top: Id, requests: seq<RequestParser.Request>): (h: map<Id, Package>)
    requires pk in heap && heap[pk].lcg == None && forall k :: k in heap ==> k < top
    ensures pk in h && (forall k :: k in h ==> k < top + |requests|)
    ensures h[pk].lcg == if requests == [] then None else Some(top + |requests| - 1)
    ensures requests != [] ==> top + |requests| - 1 in h
  {
    if requests == [] then heap else
      var last := |requests| - 1;
      Link(LinkAll(heap, pk, top, requests[..last]), pk, top + last, requests[last])
  }

  function Ids(from: Id, n: nat): (s: seq<Id>)
    ensures |s| == n && forall i :: 0 <= i < n ==> s[i] == from + i
  {
    if n == 0 then [] else Ids(from, n - 1) + [from + n - 1]
  }

  /** svr_http_parse */
  function ParseStep(c: Conn, i: nat, requests: seq<RequestParser.Request>): Conn
    requires i < |c.pending| && c.pending[i].pk in c.heap && c.heap[c.pending[i].pk].lcg == None
    requires forall k :: k in c.heap ==> k < c.top
  {
    var pk := c.pending[i].pk;
    var heap := LinkAll(c.heap, pk, c.top, requests);
    var next := if requests == [] then Read(pk) else Fetch(c.top);
    Goes(c, i, next, [Parsed(Ids(c.top, |requests|), requests)]).(heap := heap, top := c.top + |requests|)
  }

  /** svr_http_final */
  function FinalStep(c: Conn, i: nat): Conn
    requires i < |c.pending| && Live(c, c.pending[i].pk)
  {
    var pk := c.pending[i].pk;
    var park, fget := c.heap[pk].ppg.value, c.heap[pk].nsg;
    var next := if fget.Some? then Fetch(fget.value) else Read(park);
    var heap := if fget.Some? then c.heap else c.heap[park := c.heap[park].(lcg := None)];
    Goes(c, i, next, [Wrote(pk), Deleted(pk)]).(heap := heap - {pk})
  }

  function Apply(c: Conn, a: Action): Conn
    requires Enabled(c, a) && Sound(c, a)
  {
    match a
    case ReadNow(i) => Goes(c, i, Parse(c.pending[i].pk), [Asked])
    case ParseNow(i, text, nbytes) => ParseStep(c, i, RequestParser.Scan(text, nbytes - 1, 0))
    case FetchNow(i) =>
      var pk := c.pending[i].pk;
      if Bad(c.heap[pk].request.value) then Goes(c, i, Write(pk), [Fetched(pk), Issued(pk)])
      else Goes(c, i, Get(pk), [Fetched(pk)])
    case Answer(i) => Goes(c, i, Write(c.pending[i].pk), [Issued(c.pending[i].pk)])
    case EndWrite(i, more) =>
      var pk := c.pending[i].pk;
      if more && !Bad(c.heap[pk].request.value) then Goes(c, i, Get(pk), [Wrote(pk)]) else FinalStep(c, i)
  }

  // ---- serving one request after the other ----

  datatype Phase = Unread | Reading | Unfetched | Fetching | Writing | Written

  /** The simple server: a queue of packages, the first of which is served. */
  datatype Serial = Serial(queue: seq<Id>, phase: Phase)

  function Next(s: Serial, e: Event): Option<Serial> {
    match e
    case Asked => if s.queue == [] && s.phase == Unread then Some(s.(phase := Reading)) else None
    case Parsed(ids, requests) =>
      if s.queue == [] && s.phase == Reading && |ids| == |requests|
      then Some(Serial(ids, if ids == [] then Unread else Unfetched)) else None
    case Fetched(pk) => Serve(s, pk, {Unfetched}, Fetching)
    case Issued(pk) => Serve(s, pk, {Fetching, Written}, Writing)
    case Wrote(pk) => Serve(s, pk, {Writing}, Written)
    case Deleted(pk) =>
      if s.queue != [] && s.queue[0] == pk && s.phase == Written
      then Some(Serial(s.queue[1..], if |s.queue| == 1 then Unread else Unfetched)) else None
  }

  /** Only the first of the queue is ever served. */
  function Serve(s: Serial, pk: Id, from: set<Phase>, to: Phase): Option<Serial> {
    if s.queue != [] && s.queue[0] == pk && s.phase in from then Some(s.(phase := to)) else None
  }

  /** Where the simple server stands after a log; None if it could not have produced it. */
  function After(log: seq<Event>): Option<Serial> {
    if log == [] then Some(Serial([], Unread)) else
      var before := After(log[..|log| - 1]);
      if before.Some? then Next(before.value, log[|log| - 1]) else None
  }

  // ---- the invariant ----

  /** The children of the parent are linked in this order, and nothing else is alive. */
  ghost predicate Chain(heap: map<Id, Package>, queue: seq<Id>) {
    && 0 in heap && heap[0] == PARENT.(lcg := if queue == [] then None else Some(queue[|queue| - 1]))
    && (forall i :: 0 <= i < |queue| ==> Child(heap, queue, i))
    && (forall k :: k in heap ==> k == 0 || k in queue)
    && Distinct(queue) && 0 !in queue
  }

  ghost predicate Child(heap: map<Id, Package>, queue: seq<Id>, i: nat)
    requires i < |queue|
  {
    && queue[i] in heap && heap[queue[i]].request.Some?
    && heap[queue[i]] == Package(heap[queue[i]].request, Some(0), None,
                                 if i + 1 < |queue| then Some(queue[i + 1]) else None)
  }

  /** What the one thing pending says about the phase. */
  ghost predicate Agrees(p: Pending, s: Serial) {
    match s.phase
    case Unread => p == Read(0) && s.queue == []
    case Reading => p == Parse(0) && s.queue == []
    case Unfetched => s.queue != [] && p == Fetch(s.queue[0])
    case Writing => s.queue != [] && p == Write(s.queue[0])
    case _ => s.queue != [] && p == Get(s.queue[0])
  }

  /** The connection is where the simple server is. */
  ghost predicate Simulates(c: Conn, s: Serial) {
    && |c.pending| == 1 && Agrees(c.pending[0], s) && Chain(c.heap, s.queue)
    && c.top > 0 && forall k :: k in c.heap ==> k < c.top
  }

  ghost predicate Invariant(c: Conn) {
    After(c.log).Some? && Simulates(c, After(c.log).value)
  }

  lemma AfterOne(log: seq<Event>, e: Event)
    requires After(log).Some?
    ensures After(log + [e]) == Next(After(log).value, e)
  {
    assert (log + [e])[..|log|] == log;
  }

  lemma AfterTwo(log: seq<Event>, e: Event, f: Event)
    requires After(log).Some? && Next(After(log).value, e).Some?
    ensures After(log + [e, f]) == Next(Next(After(log).value, e).value, f)
  {
    var one := log + [e];
    AfterOne(log, e);
    AfterOne(one, f);
    assert one + [f] == log + [e, f];
  }

  /** The packages of the queue carry the requests. */
  ghost predicate Carries(heap: map<Id, Package>, queue: seq<Id>, requests: seq<RequestParser.Request>) {
    && |queue| == |requests|
    && forall i :: 0 <= i < |queue| ==> queue[i] in heap && heap[queue[i]].request == Some(requests[i])
  }

  /** svr_http_parse's links make the requests a chain, in order. */
  lemma {:induction false} LinkAllChain(heap: map<Id, Package>, top: Id, requests: seq<RequestParser.Request>)
    requires Chain(heap, []) && top > 0 && forall k :: k in heap ==> k < top
    ensures Chain(LinkAll(heap, 0, top, requests), Ids(top, |requests|))
    decreases |requests|
  {
    if requests != [] {
      var last := |requests| - 1;
      var init := requests[..last];
      LinkAllChain(heap, top, init);
      LinkChain(LinkAll(heap, 0, top, init), Ids(top, last), top + last, requests[last]);
    }
  }

  lemma {:induction false} LinkAllCarries(heap: map<Id, Package>, top: Id, requests: seq<RequestParser.Request>)
    requires Chain(heap, []) && top > 0 && forall k :: k in heap ==> k < top
    ensures Carries(LinkAll(heap, 0, top, requests), Ids(top, |requests|), requests)
    decreases |requests|
  {
    if requests != [] {
      var last := |requests| - 1;
      var init := requests[..last];
      LinkAllChain(heap, top, init);
      LinkAllCarries(heap, top, init);
      LinkCarries(LinkAll(heap, 0, top, init), Ids(top, last), init, top + last, requests[last]);
      assert requests == init + [requests[last]];
    }
  }

  lemma LinkCarries(heap: map<Id, Package>, queue: seq<Id>, init: seq<RequestParser.Request>,
                    gk: Id, request: RequestParser.Request)
    requires Chain(heap, queue) && gk !in heap && gk != 0 && Carries(heap, queue, init)
    ensures heap[0].lcg.Some? ==> heap[0].lcg.value in heap
    ensures Carries(Link(heap, 0, gk, request), queue + [gk], init + [request])
  {
    LinkChain(heap, queue, gk, request);
  }

  lemma LinkChain(heap: map<Id, Package>, queue: seq<Id>, gk: Id, request: RequestParser.Request)
    requires Chain(heap, queue) && gk !in heap && gk != 0
    ensures heap[0].lcg.Some? ==> heap[0].lcg.value in heap
    ensures Chain(Link(heap, 0, gk, request), queue + [gk])
    ensures gk in Link(heap, 0, gk, request) && Link(heap, 0, gk, request)[gk].request == Some(request)
    ensures forall k :: k in heap ==>
      k in Link(heap, 0, gk, request) && Link(heap, 0, gk, request)[k].request == heap[k].request
  {
    var n := |queue|;
    forall i | 0 <= i < n
      ensures queue[i] in heap && queue[i] != gk
    {
      assert Child(heap, queue, i);
    }
    AppendDistinct(queue, gk);
    var h := Link(heap, 0, gk, request);
    forall i | 0 <= i < n + 1
      ensures Child(h, queue + [gk], i)
    {
      if i < n {
        assert Child(heap, queue, i);
        if i < n - 1 {
          DistinctAt(queue, i, n - 1);
        }
      }
    }
    forall k | k in h
      ensures k == 0 || k in queue + [gk]
    {
      assert k in heap || k == gk;
    }
  }

  /** svr_http_final takes the first package off the chain. */
  lemma FinalChain(c: Conn, s: Serial)
    requires Simulates(c, s) && s.phase == Writing
    ensures Live(c, c.pending[0].pk) && c.pending[0].pk == s.queue[0]
    ensures Chain(FinalStep(c, 0).heap, s.queue[1..])
    ensures FinalStep(c, 0).pending == [if |s.queue| == 1 then Read(0) else Fetch(s.queue[1])]
  {
    var q := s.queue;
    assert Child(c.heap, q, 0);
    AllDistinctAt(q, 0);
    var h := FinalStep(c, 0).heap;
    assert RemoveAt(c.pending, 0) == [];
    forall i | 0 <= i < |q| - 1
      ensures Child(h, q[1..], i)
    {
      assert Child(c.heap, q, i + 1);
    }
    forall k | k in h
      ensures k == 0 || k in q[1..]
    {
      assert k in c.heap && k != q[0];
    }
  }

  /** The others keep their requests. */
  lemma AfterFinal(c: Conn, s: Serial, requests: seq<RequestParser.Request>)
    requires Simulates(c, s) && s.phase == Writing && Carries(c.heap, s.queue, requests)
    ensures Live(c, c.pending[0].pk) && Carries(FinalStep(c, 0).heap, s.queue[1..], requests[1..])
  {
    FinalChain(c, s);
    var q := s.queue;
    forall i | 0 <= i < |q| - 1
      ensures q[1..][i] in FinalStep(c, 0).heap && FinalStep(c, 0).heap[q[1..][i]].request == Some(requests[1..][i])
    {
      assert Child(c.heap, q, i + 1);
      AllDistinctAt(q, 0);
    }
  }

  /** No handler ever touches a deleted package. */
  lemma NoFault(c: Conn, a: Action)
    requires Invariant(c) && Enabled(c, a)
    ensures Sound(c, a)
  {
    var s := After(c.log).value;
    if s.queue != [] {
      assert Child(c.heap, s.queue, 0);
    }
  }

  /** After a parse the live children are the text's requests, in order. */
  lemma ParseInvariant(c: Conn, requests: seq<RequestParser.Request>)
    requires Invariant(c) && c.pending[0].Parse?
    ensures c.pending[0].pk in c.heap && c.heap[c.pending[0].pk].lcg == None
    ensures Invariant(ParseStep(c, 0, requests))
    ensures Carries(ParseStep(c, 0, requests).heap, After(ParseStep(c, 0, requests).log).value.queue, requests)
  {
    var v := ParseStep(c, 0, requests);
    AfterOne(c.log, Parsed(Ids(c.top, |requests|), requests));
    LinkAllChain(c.heap, c.top, requests);
    LinkAllCarries(c.heap, c.top, requests);
    assert RemoveAt(c.pending, 0) == [];
    if requests != [] {
      assert Ids(c.top, |requests|)[0] == c.top;
    }
  }

  /** Nothing but the log and the pending thing changes. */
  lemma GoesInvariant(c: Conn, next: Pending, events: seq<Event>)
    requires Invariant(c) && After(c.log + events).Some?
    requires After(c.log + events).value.queue == After(c.log).value.queue
    requires Agrees(next, After(c.log + events).value)
    ensures Invariant(Goes(c, 0, next, events))
  {
    assert RemoveAt(c.pending, 0) + [next] == [next];
  }

  lemma FinalInvariant(c: Conn)
    requires Invariant(c) && After(c.log).value.phase == Writing && Live(c, c.pending[0].pk)
    ensures Invariant(FinalStep(c, 0))
  {
    var pk := c.pending[0].pk;
    FinalChain(c, After(c.log).value);
    AfterTwo(c.log, Wrote(pk), Deleted(pk));
  }

  lemma FetchInvariant(c: Conn)
    requires Invariant(c) && c.pending[0].Fetch? && Live(c, c.pending[0].pk)
    ensures Invariant(Apply(c, FetchNow(0)))
  {
    var pk := c.pending[0].pk;
    AfterOne(c.log, Fetched(pk));
    AfterTwo(c.log, Fetched(pk), Issued(pk));
    if Bad(c.heap[pk].request.value) {
      GoesInvariant(c, Write(pk), [Fetched(pk), Issued(pk)]);
    } else {
      GoesInvariant(c, Get(pk), [Fetched(pk)]);
    }
  }

  lemma EndWriteInvariant(c: Conn, more: bool)
    requires Invariant(c) && c.pending[0].Write? && Live(c, c.pending[0].pk)
    ensures Invariant(Apply(c, EndWrite(0, more)))
  {
    var pk := c.pending[0].pk;
    AfterOne(c.log, Wrote(pk));
    if more && !Bad(c.heap[pk].request.value) {
      GoesInvariant(c, Get(pk), [Wrote(pk)]);
    } else {
      FinalInvariant(c);
    }
  }

  lemma InvariantStep(c: Conn, a: Action)
    requires Invariant(c) && Enabled(c, a) && Sound(c, a)
    ensures Invariant(Apply(c, a))
  {
    match a
    case ReadNow(_) =>
      AfterOne(c.log, Asked);
      GoesInvariant(c, Parse(c.pending[0].pk), [Asked]);
    case ParseNow(_, text, nbytes) => ParseInvariant(c, RequestParser.Scan(text, nbytes - 1, 0));
    case FetchNow(_) => FetchInvariant(c);
    case Answer(_) =>
      AfterOne(c.log, Issued(c.pending[0].pk));
      GoesInvariant(c, Write(c.pending[0].pk), [Issued(c.pending[0].pk)]);
    case EndWrite(_, more) => EndWriteInvariant(c, more);
  }

  // ---- runs ----

  /** None if some action cannot happen, or would touch a deleted package. */
  function Run(schedule: seq<Action>): Option<Conn> {
    if schedule == [] then Some(Accepted()) else
      var last := |schedule| - 1;
      var before := Run(schedule[..last]);
      if before.Some? && Enabled(before.value, schedule[last]) && Sound(before.value, schedule[last])
      then Some(Apply(before.value, schedule[last])) else None
  }

  /** Every run of the connection is one of the simple server, which serves one package after the other, in
      the order of the text, and reads again only with none left; and it never stops at a deleted package. */
  lemma {:induction false} RunInvariant(schedule: seq<Action>)
    requires Run(schedule).Some?
    ensures Invariant(Run(schedule).value)
    ensures forall a :: Enabled(Run(schedule).value, a) ==> Sound(Run(schedule).value, a)
  {
    if schedule != [] {
      var last := |schedule| - 1;
      RunInvariant(schedule[..last]);
      InvariantStep(Run(schedule[..last]).value, schedule[last]);
    }
    forall a | Enabled(Run(schedule).value, a)
      ensures Sound(Run(schedule).value, a)
    {
      NoFault(Run(schedule).value, a);
    }
  }

  /** Something is always pending that can happen, be it only the arrival of a text. */
  lemma NeverStuck(c: Conn, text: seq<char>, nbytes: nat)
    requires Invariant(c) && 0 < nbytes < |text| && RequestParser.Terminated(text)
    ensures || Enabled(c, ReadNow(0)) || Enabled(c, ParseNow(0, text, nbytes)) || Enabled(c, FetchNow(0))
            || Enabled(c, Answer(0)) || Enabled(c, EndWrite(0, true))
  {
  }

  // ---- what the simple server's logs look like ----

  function Count(log: seq<Event>, e: Event): nat {
    if log == [] then 0 else Count(log[..|log| - 1], e) + if log[|log| - 1] == e then 1 else 0
  }

  /** How often pk was among the packages made. */
  function Made(log: seq<Event>, pk: Id): nat {
    if log == [] then 0 else
      Made(log[..|log| - 1], pk) + if log[|log| - 1].Parsed? then Times(log[|log| - 1].ids, pk) else 0
  }

  predicate First(s: Serial, pk: Id) {
    s.queue != [] && s.queue[0] == pk
  }

  /** Of each package: one fetch and one deletion for each time it is made, the first of the queue being under
      way; and all its writes are over, except the first's while it is being written. */
  lemma {:induction false} Conserved(log: seq<Event>, pk: Id)
    requires After(log).Some?
    ensures var s := After(log).value;
      && Made(log, pk) == Count(log, Deleted(pk)) + Times(s.queue, pk)
      && Count(log, Fetched(pk)) == Count(log, Deleted(pk))
                                    + (if First(s, pk) && s.phase in {Fetching, Writing, Written} then 1 else 0)
      && Count(log, Issued(pk)) == Count(log, Wrote(pk)) + (if First(s, pk) && s.phase == Writing then 1 else 0)
  {
    if log != [] {
      var init := log[..|log| - 1];
      Conserved(init, pk);
      var s := After(init).value;
      if log[|log| - 1].Deleted? {
        assert s.queue == [s.queue[0]] + s.queue[1..];
      }
    }
  }

  /** No write is issued while another is under way. */
  lemma WritesApart(log: seq<Event>, pk: Id, other: Id)
    requires After(log + [Issued(pk)]).Some?
    ensures Count(log, Issued(other)) == Count(log, Wrote(other))
    ensures Count(log, Fetched(other)) == Count(log, Deleted(other)) + if other == pk then 1 else 0
  {
    assert (log + [Issued(pk)])[..|log|] == log;
    Conserved(log, other);
  }

  /** When the socket is read again, every package ever made has been fetched, written and deleted. */
  lemma ReadsApart(log: seq<Event>, pk: Id)
    requires After(log + [Asked]).Some?
    ensures Made(log, pk) == Count(log, Fetched(pk)) == Count(log, Deleted(pk))
    ensures Count(log, Issued(pk)) == Count(log, Wrote(pk))
  {
    assert (log + [Asked])[..|log|] == log;
    Conserved(log, pk);
  }

  lemma {:induction false} IdsTimes(from: Id, n: nat, pk: Id)
    ensures Times(Ids(from, n), pk) == if from <= pk < from + n then 1 else 0
  {
    if n > 0 {
      var init := Ids(from, n - 1);
      IdsTimes(from, n - 1, pk);
      assert Ids(from, n) == init + [from + n - 1];
      TimesAppend(init, from + n - 1, pk);
    }
  }

  lemma MadeAppend(log: seq<Event>, e: Event, pk: Id)
    ensures Made(log + [e], pk) == Made(log, pk) + if e.Parsed? then Times(e.ids, pk) else 0
  {
    assert (log + [e])[..|log|] == log;
  }

  lemma MadeStep(c: Conn, a: Action, pk: Id)
    requires Enabled(c, a) && Sound(c, a)
    ensures Apply(c, a).top >= c.top
    ensures Made(Apply(c, a).log, pk) == Made(c.log, pk) + if c.top <= pk < Apply(c, a).top then 1 else 0
  {
    var p := c.pending[a.i].pk;
    match a
    case ReadNow(_) => MadeAppend(c.log, Asked, pk);
    case ParseNow(_, text, nbytes) =>
      var requests := RequestParser.Scan(text, nbytes - 1, 0);
      MadeAppend(c.log, Parsed(Ids(c.top, |requests|), requests), pk);
      IdsTimes(c.top, |requests|, pk);
    case FetchNow(_) =>
      MadeAppend(c.log, Fetched(p), pk);
      MadeAppend(c.log + [Fetched(p)], Issued(p), pk);
      assert c.log + [Fetched(p)] + [Issued(p)] == c.log + [Fetched(p), Issued(p)];
    case Answer(_) => MadeAppend(c.log, Issued(p), pk);
    case EndWrite(_, _) =>
      MadeAppend(c.log, Wrote(p), pk);
      MadeAppend(c.log + [Wrote(p)], Deleted(p), pk);
      assert c.log + [Wrote(p)] + [Deleted(p)] == c.log + [Wrote(p), Deleted(p)];
  }

  lemma {:induction false} MadeOnce(schedule: seq<Action>, pk: Id)
    requires Run(schedule).Some?
    ensures Run(schedule).value.top >= 1
    ensures Made(Run(schedule).value.log, pk) == if 1 <= pk < Run(schedule).value.top then 1 else 0
  {
    if schedule != [] {
      MadeOnce(schedule[..|schedule| - 1], pk);
      MadeStep(Run(schedule[..|schedule| - 1]).value, schedule[|schedule| - 1], pk);
    }
  }

  /** In every run each package made is fetched at most once and deleted at most once, the fetch being counted
      before the deletion; once the chain is used up, exactly once. */
  lemma ServedOnce(schedule: seq<Action>, pk: Id)
    requires Run(schedule).Some?
    ensures var c := Run(schedule).value;
      && Count(c.log, Deleted(pk)) <= Count(c.log, Fetched(pk)) <= 1
      && After(c.log).Some?
      && (After(c.log).value.queue == [] && 1 <= pk < c.top ==>
            Count(c.log, Fetched(pk)) == 1 && Count(c.log, Deleted(pk)) == 1)
  {
    RunInvariant(schedule);
    MadeOnce(schedule, pk);
    Conserved(Run(schedule).value.log, pk);
  }
}
