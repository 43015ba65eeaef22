/** One connection together with the server that it shares with all others: every write of one of its bodies is
    a step of both Pipeline and BodyStream.  The server's first `mine` requests are the ones that the
    connection comes to parse; any number of others run beside them. */
module Service {
  import opened Wrappers
  import opened Sequences
  import P = Pipeline
  import B = BodyStream
  import RP = RequestParser
  import CM = CacheModel

  /** asked: what has been parsed so far; out: the body bytes written on the connection. */
  datatype State = State(conn: P.Conn, server: B.Server, asked: seq<RP.Request>, out: string)

  /** A step of the server that ends no write of this connection, a request of the connection's being asked only
      when its package is being served; a step of the connection that ends no write of the server's; the end of a
      write of package r + 1, which is request r of the server. */
  datatype Action = Other(step: B.Action) | Own(a: P.Action) | EndWrite(i: nat, r: nat, n: nat)

  function Initial(server: B.Server): State {
    State(P.Accepted(), server, [], "")
  }

  /** Package pk, its request if it is alive. */
  function RequestOf(c: P.Conn, pk: P.Id): Option<RP.Request> {
    if pk in c.heap then c.heap[pk].request else None
  }

  predicate BadPackage(c: P.Conn, pk: P.Id) {
    var q := RequestOf(c, pk);
    q.Some? && P.Bad(q.value)
  }

  predicate GoodPackage(c: P.Conn, pk: P.Id) {
    var q := RequestOf(c, pk);
    q.Some? && !P.Bad(q.value)
  }

  /** The callback of package pk has been called. */
  predicate IsWriting(server: B.Server, pk: P.Id) {
    0 < pk <= |server.reqs| && server.reqs[pk - 1].hst.Writing?
  }

  /** What a step of the connection parses. */
  function Found(a: P.Action): seq<RP.Request> {
    if a.ParseNow? && RP.Terminated(a.text) && 0 < a.nbytes < |a.text| then RP.Scan(a.text, a.nbytes - 1, 0) else []
  }

  /** The server's next requests are these, as far as it is asked for them at all. */
  ghost predicate Fits(s: State, mine: nat, requests: seq<RP.Request>) {
    && |s.asked| + |requests| <= mine <= |s.server.reqs|
    && forall k :: 0 <= k < |requests| && !P.Bad(requests[k]) ==>
         s.server.reqs[|s.asked| + k].uri == requests[k].uri.value
  }

  ghost predicate Enabled(files: B.Files, mine: nat, s: State, x: Action) {
    match x
    case Other(a) =>
      && B.Enabled(files, s.server, a) && !(a.Wrote? && a.r < mine)
      && (a.Ask? && a.r < mine ==> P.Get(a.r + 1) in s.conn.pending)
    case Own(a) =>
      && P.Enabled(s.conn, a)
      && (a.Answer? ==> IsWriting(s.server, s.conn.pending[a.i].pk))
      && (a.ParseNow? ==> Fits(s, mine, Found(a)))
      && (a.EndWrite? ==> BadPackage(s.conn, s.conn.pending[a.i].pk))
    case EndWrite(i, r, n) =>
      && P.Enabled(s.conn, P.EndWrite(i, true)) && s.conn.pending[i] == P.Write(r + 1) && r < mine
      && GoodPackage(s.conn, r + 1)
      && B.Enabled(files, s.server, B.Wrote(r, n))
  }

  ghost predicate Sound(files: B.Files, mine: nat, s: State, x: Action)
    requires Enabled(files, mine, s, x)
  {
    match x
    case Other(a) => B.Sound(s.server, a)
    case Own(a) => P.Sound(s.conn, a)
    case EndWrite(i, r, n) =>
      B.Sound(s.server, B.Wrote(r, n)) && P.Sound(s.conn, P.EndWrite(i, true)) && P.Sound(s.conn, P.EndWrite(i, false))
  }

  /** The body bytes among n bytes written of c. */
  function BodyBytes(c: B.Content, n: nat): string
    requires B.CanWrite(c, n)
  {
    if c.Piece? then c.bytes[..n] else ""
  }

  /** Whether svr_http_header_to_body_aio or svr_http_body_rio goes on to svr_http_body, not to svr_http_final. */
  ghost function GoesOn(files: B.Files, server: B.Server, r: nat, n: nat): bool
    requires B.Enabled(files, server, B.Wrote(r, n)) && B.Sound(server, B.Wrote(r, n))
  {
    !B.Apply(files, server, B.Wrote(r, n)).reqs[r].hst.Done?
  }

  ghost function Apply(files: B.Files, mine: nat, s: State, x: Action): State
    requires Enabled(files, mine, s, x) && Sound(files, mine, s, x)
  {
    match x
    case Other(a) => s.(server := B.Apply(files, s.server, a))
    case Own(a) =>
      s.(conn := P.Apply(s.conn, a), asked := s.asked + Found(a))
    case EndWrite(i, r, n) =>
      State(P.Apply(s.conn, P.EndWrite(i, GoesOn(files, s.server, r, n))), B.Apply(files, s.server, B.Wrote(r, n)),
            s.asked, s.out + BodyBytes(s.server.mem[s.server.reqs[r].hst.buf], n))
  }

  // ---- the connection's numbering ----

  function Queue(c: P.Conn): seq<P.Id> {
    var s := P.After(c.log);
    if s.Some? then s.value.queue else []
  }

  /** Packages are numbered as they were asked for, and the last of them are the ones alive. */
  ghost predicate NumberedAt(heap: map<P.Id, P.Package>, top: P.Id, q: seq<P.Id>, asked: seq<RP.Request>) {
    && top == |asked| + 1 && |q| <= |asked|
    && q == P.Ids(top - |q|, |q|)
    && P.Carries(heap, q, asked[|asked| - |q|..])
  }

  ghost predicate Numbered(c: P.Conn, asked: seq<RP.Request>) {
    NumberedAt(c.heap, c.top, Queue(c), asked)
  }

  /** Steps that neither parse nor delete. */
  lemma SameQueue(c: P.Conn, next: P.Pending, events: seq<P.Event>)
    requires |c.pending| > 0
    requires P.After(c.log + events).Some? && P.After(c.log + events).value.queue == Queue(c)
    ensures Queue(P.Goes(c, 0, next, events)) == Queue(c)
    ensures P.Goes(c, 0, next, events).heap == c.heap && P.Goes(c, 0, next, events).top == c.top
  {
  }

  lemma ParseNumbered(c: P.Conn, requests: seq<RP.Request>, asked: seq<RP.Request>)
    requires P.Invariant(c) && c.pending[0].Parse? && Numbered(c, asked)
    ensures c.pending[0].pk in c.heap && c.heap[c.pending[0].pk].lcg == None
    ensures Numbered(P.ParseStep(c, 0, requests), asked + requests)
    ensures Queue(c) == [] && |Queue(P.ParseStep(c, 0, requests))| == |requests|
  {
    P.ParseInvariant(c, requests);
    P.AfterOne(c.log, P.Parsed(P.Ids(c.top, |requests|), requests));
    assert (asked + requests)[|asked|..] == requests;
  }

  lemma TailNumbered(heap: map<P.Id, P.Package>, after: map<P.Id, P.Package>, top: P.Id, q: seq<P.Id>,
                     asked: seq<RP.Request>)
    requires NumberedAt(heap, top, q, asked) && q != []
    requires P.Carries(after, q[1..], asked[|asked| - |q|..][1..])
    ensures NumberedAt(after, top, q[1..], asked)
  {
    assert q[1..] == P.Ids(top - |q| + 1, |q| - 1);
    assert asked[|asked| - |q|..][1..] == asked[|asked| - |q| + 1..];
  }

  lemma FinalQueue(c: P.Conn)
    requires P.Invariant(c) && c.pending[0].Write?
    ensures P.Live(c, c.pending[0].pk) && Queue(c) != [] && Queue(P.FinalStep(c, 0)) == Queue(c)[1..]
    ensures P.FinalStep(c, 0).top == c.top
  {
    P.NoFault(c, P.EndWrite(0, true));
    P.AfterTwo(c.log, P.Wrote(c.pending[0].pk), P.Deleted(c.pending[0].pk));
  }

  lemma FinalCarries(c: P.Conn, requests: seq<RP.Request>)
    requires P.Invariant(c) && c.pending[0].Write? && P.Carries(c.heap, Queue(c), requests)
    ensures P.Live(c, c.pending[0].pk) && Queue(c) != []
    ensures P.Carries(P.FinalStep(c, 0).heap, Queue(c)[1..], requests[1..])
  {
    P.AfterFinal(c, P.After(c.log).value, requests);
  }

  lemma FinalNumbered(c: P.Conn, asked: seq<RP.Request>)
    requires P.Invariant(c) && c.pending[0].Write? && Numbered(c, asked)
    ensures P.Live(c, c.pending[0].pk)
    ensures Numbered(P.FinalStep(c, 0), asked) && Queue(P.FinalStep(c, 0)) == Queue(c)[1..]
  {
    FinalQueue(c);
    FinalCarries(c, asked[|asked| - |Queue(c)|..]);
    TailNumbered(c.heap, P.FinalStep(c, 0).heap, c.top, Queue(c), asked);
  }

  lemma MoreQueue(c: P.Conn)
    requires P.Invariant(c) && c.pending[0].Write?
    ensures var v := P.Goes(c, 0, P.Get(c.pending[0].pk), [P.Wrote(c.pending[0].pk)]);
      Queue(v) == Queue(c) && v.heap == c.heap && v.top == c.top
  {
    var pk := c.pending[0].pk;
    P.AfterOne(c.log, P.Wrote(pk));
    SameQueue(c, P.Get(pk), [P.Wrote(pk)]);
  }

  /** The connection goes on writing, or takes the package off. */
  lemma WriteNumbered(c: P.Conn, more: bool, asked: seq<RP.Request>)
    requires P.Invariant(c) && c.pending[0].Write? && P.Live(c, c.pending[0].pk) && Numbered(c, asked)
    ensures var v := P.Apply(c, P.EndWrite(0, more));
      && Numbered(v, asked)
      && Queue(v) == if more && !P.Bad(c.heap[c.pending[0].pk].request.value) then Queue(c) else Queue(c)[1..]
  {
    MoreQueue(c);
    FinalNumbered(c, asked);
  }

  lemma FetchQueue(c: P.Conn)
    requires P.Invariant(c) && c.pending[0].Fetch? && P.Live(c, c.pending[0].pk)
    ensures var v := P.Apply(c, P.FetchNow(0)); Queue(v) == Queue(c) && v.heap == c.heap && v.top == c.top
  {
    var pk := c.pending[0].pk;
    P.AfterOne(c.log, P.Fetched(pk));
    P.AfterTwo(c.log, P.Fetched(pk), P.Issued(pk));
    if P.Bad(c.heap[pk].request.value) {
      SameQueue(c, P.Write(pk), [P.Fetched(pk), P.Issued(pk)]);
    } else {
      SameQueue(c, P.Get(pk), [P.Fetched(pk)]);
    }
  }

  /** Reading, fetching and answering leave the queue as it is. */
  lemma QuietQueue(c: P.Conn, a: P.Action)
    requires P.Invariant(c) && P.Enabled(c, a) && P.Sound(c, a) && !a.ParseNow? && !a.EndWrite?
    ensures var v := P.Apply(c, a); Queue(v) == Queue(c) && v.heap == c.heap && v.top == c.top
  {
    var pk := c.pending[0].pk;
    match a
    case ReadNow(_) =>
      P.AfterOne(c.log, P.Asked);
      SameQueue(c, P.Parse(pk), [P.Asked]);
    case FetchNow(_) => FetchQueue(c);
    case Answer(_) =>
      P.AfterOne(c.log, P.Issued(pk));
      SameQueue(c, P.Write(pk), [P.Issued(pk)]);
  }

  /** A step of the connection alone. */
  lemma OwnNumbered(c: P.Conn, a: P.Action, asked: seq<RP.Request>)
    requires P.Invariant(c) && P.Enabled(c, a) && P.Sound(c, a) && Numbered(c, asked)
    requires a.EndWrite? ==> BadPackage(c, c.pending[0].pk)
    ensures var v := P.Apply(c, a);
      && Numbered(v, asked + Found(a))
      && (a.ParseNow? ==> Queue(c) == [] && |Queue(v)| == |Found(a)|)
      && (!a.ParseNow? ==> Queue(v) == if a.EndWrite? then Queue(c)[1..] else Queue(c))
  {
    assert asked + [] == asked;
    match a
    case ParseNow(_, _, _) => ParseNumbered(c, Found(a), asked);
    case EndWrite(_, more) => WriteNumbered(c, more, asked);
    case _ => QuietQueue(c, a);
  }

  // ---- the invariant ----

  function Sent(reqs: seq<B.Request>, n: nat): string
    requires n <= |reqs|
  {
    if n == 0 then "" else Sent(reqs, n - 1) + reqs[n - 1].sent
  }

  lemma {:induction false} SentSame(reqs: seq<B.Request>, after: seq<B.Request>, n: nat)
    requires n <= |reqs| && n <= |after| && forall k :: 0 <= k < n ==> after[k].sent == reqs[k].sent
    ensures Sent(after, n) == Sent(reqs, n)
  {
    if n > 0 {
      SentSame(reqs, after, n - 1);
    }
  }

  /** More bytes for the last request that has any go to the end. */
  lemma {:induction false} SentMore(reqs: seq<B.Request>, after: seq<B.Request>, n: nat, r: nat, bytes: string)
    requires r < n <= |reqs| && n <= |after|
    requires forall k :: 0 <= k < n && k != r ==> after[k].sent == reqs[k].sent
    requires after[r].sent == reqs[r].sent + bytes && forall k :: r < k < n ==> reqs[k].sent == ""
    ensures Sent(after, n) == Sent(reqs, n) + bytes
  {
    if n == r + 1 {
      SentSame(reqs, after, r);
      Associative(Sent(reqs, r), reqs[r].sent, bytes);
    } else {
      SentMore(reqs, after, n - 1, r, bytes);
      assert Sent(reqs, n - 1) + "" == Sent(reqs, n - 1) && Sent(after, n - 1) + "" == Sent(after, n - 1);
    }
  }

  /** How many packages have been deleted. */
  function Gone(s: State): int {
    |s.asked| - |Queue(s.conn)|
  }

  /** How request k of the connection stands: untouched before its package is first in the queue, and for ever if it
      is bad; not done while its package is there, and done once it is gone. */
  ghost predicate InTurn(s: State, k: nat)
    requires k < |s.server.reqs|
  {
    var q := s.server.reqs[k];
    && (k > Gone(s) || (k == Gone(s) && Queue(s.conn) == []) ==> q == B.Opened(q.uri))
    && (k < |s.asked| && P.Bad(s.asked[k]) ==> q == B.Opened(q.uri))
    && (k < |s.asked| && !P.Bad(s.asked[k]) ==> q.uri == s.asked[k].uri.value)
    && (k < |s.asked| && k < Gone(s) && !P.Bad(s.asked[k]) ==> q.hst.Done?)
    && (k >= Gone(s) ==> !q.hst.Done?)
  }

  ghost predicate Turns(s: State, mine: nat) {
    && |s.asked| <= mine <= |s.server.reqs|
    && (forall k :: 0 <= k < mine ==> InTurn(s, k))
    && s.out == Sent(s.server.reqs, mine)
  }

  /** Only a good package waits for the cache, and a good package that writes has been called back. */
  ghost predicate ServedBy(c: P.Conn, server: B.Server) {
    && (forall pk :: P.Get(pk) in c.pending ==> GoodPackage(c, pk))
    && (forall pk :: P.Write(pk) in c.pending && GoodPackage(c, pk) ==> IsWriting(server, pk))
  }

  ghost predicate Served(s: State) {
    ServedBy(s.conn, s.server)
  }

  ghost predicate Invariant(files: B.Files, mine: nat, s: State) {
    && P.Invariant(s.conn) && B.Reached(files, s.server)
    && Numbered(s.conn, s.asked) && Turns(s, mine) && Served(s)
  }

  /** Neither side ever breaks an assumption of the code. */
  lemma NoFault(files: B.Files, mine: nat, s: State, x: Action)
    requires Invariant(files, mine, s) && Enabled(files, mine, s, x)
    ensures Sound(files, mine, s, x)
  {
    match x
    case Other(a) =>
      B.ReachedInvariant(files, s.server);
      B.NoFault(files, s.server, a);
    case Own(a) => P.NoFault(s.conn, a);
    case EndWrite(i, r, n) =>
      B.ReachedInvariant(files, s.server);
      B.NoFault(files, s.server, B.Wrote(r, n));
      P.NoFault(s.conn, P.EndWrite(i, true));
      P.NoFault(s.conn, P.EndWrite(i, false));
  }

  /** The package being served is the first of the queue: request number Gone. */
  lemma FirstInTurn(s: State, pk: P.Id)
    requires P.Invariant(s.conn) && Numbered(s.conn, s.asked)
    requires s.conn.pending[0] == P.Write(pk) || s.conn.pending[0] == P.Get(pk) || s.conn.pending[0] == P.Fetch(pk)
    ensures Queue(s.conn) != [] && Gone(s) >= 0 && pk == Gone(s) + 1
    ensures P.Live(s.conn, pk) && s.conn.heap[pk].request == Some(s.asked[Gone(s)])
  {
    assert P.Child(s.conn.heap, Queue(s.conn), 0);
    assert s.asked[|s.asked| - |Queue(s.conn)|..][0] == s.asked[Gone(s)];
  }

  /** A request of the connection is asked in its turn. */
  lemma AskInTurn(s: State, r: nat)
    requires P.Invariant(s.conn) && Numbered(s.conn, s.asked) && Served(s) && P.Get(r + 1) in s.conn.pending
    ensures r == Gone(s) && Queue(s.conn) != [] && r < |s.asked| && !P.Bad(s.asked[r])
  {
    assert s.conn.pending == [s.conn.pending[0]];
    FirstInTurn(s, r + 1);
  }

  /** No request of the connection has sent more, and all are in turn. */
  ghost predicate InTurnAfter(s: State, v: State, k: nat) {
    && k < |s.server.reqs| && |v.server.reqs| == |s.server.reqs|
    && InTurn(v, k) && v.server.reqs[k].sent == s.server.reqs[k].sent
  }

  /** What a step of the server that does not end its write may do to a request; `asks`: it is its own Ask. */
  predicate Moves(q: B.Request, v: B.Request, asks: bool) {
    v.uri == q.uri && v.sent == q.sent && (!q.hst.Waiting? && !asks ==> v == q) && (!q.hst.Done? ==> !v.hst.Done?)
  }

  lemma RequestMoves(files: B.Files, s: B.Server, a: B.Action, k: nat)
    requires B.Reached(files, s) && B.Enabled(files, s, a) && B.Sound(s, a) && k < |s.reqs| && !(a.Wrote? && a.r == k)
    ensures |B.Apply(files, s, a).reqs| == |s.reqs|
    ensures Moves(s.reqs[k], B.Apply(files, s, a).reqs[k], a.Ask? && a.r == k)
  {
    B.ReachedInvariant(files, s);
    B.StepKeeps(files, s, a, k);
    if !s.reqs[k].hst.Waiting? && !(a.Ask? && a.r == k) {
      B.StaysPut(files, s, a, k);
    }
    if !s.reqs[k].hst.Done? {
      B.OnlyWritesEnd(files, s, a, k);
    }
  }

  lemma MovesInTurn(s: State, v: State, k: nat, asks: bool)
    requires k < |s.server.reqs| == |v.server.reqs| && v.asked == s.asked && v.conn == s.conn && InTurn(s, k)
    requires Moves(s.server.reqs[k], v.server.reqs[k], asks)
    requires asks ==> k == Gone(s) && Queue(s.conn) != [] && k < |s.asked| && !P.Bad(s.asked[k])
    ensures InTurnAfter(s, v, k)
  {
  }

  lemma TurnsAfter(s: State, v: State, mine: nat)
    requires Turns(s, mine) && v.asked == s.asked && v.out == s.out && |v.server.reqs| == |s.server.reqs|
    requires forall k: nat :: k < mine ==> InTurnAfter(s, v, k)
    ensures Turns(v, mine)
  {
    forall k | 0 <= k < mine
      ensures InTurn(v, k) && v.server.reqs[k].sent == s.server.reqs[k].sent
    {
      assert InTurnAfter(s, v, k);
    }
    SentSame(s.server.reqs, v.server.reqs, mine);
  }

  lemma StillWriting(files: B.Files, s: B.Server, a: B.Action, pk: P.Id)
    requires B.Reached(files, s) && B.Enabled(files, s, a) && B.Sound(s, a) && IsWriting(s, pk)
    requires !(a.Wrote? && a.r == pk - 1)
    ensures IsWriting(B.Apply(files, s, a), pk)
  {
    B.WriterStays(files, s, a, pk - 1);
  }

  lemma WriterIsMine(s: State, mine: nat, pk: P.Id)
    requires P.Invariant(s.conn) && Numbered(s.conn, s.asked) && |s.asked| <= mine && P.Write(pk) in s.conn.pending
    ensures 0 < pk <= mine && RequestOf(s.conn, pk).Some?
  {
    FirstInTurn(s, pk);
  }

  lemma ParseTurns(s: State, mine: nat, requests: seq<RP.Request>, conn: P.Conn)
    requires Turns(s, mine) && Fits(s, mine, requests) && Queue(s.conn) == [] && |Queue(conn)| == |requests|
    ensures Turns(s.(conn := conn, asked := s.asked + requests), mine)
  {
    var v := s.(conn := conn, asked := s.asked + requests);
    forall k | 0 <= k < mine
      ensures InTurn(v, k)
    {
      assert InTurn(s, k);
      assert k >= |s.asked| && k < |v.asked| ==> v.asked[k] == requests[k - |s.asked|];
    }
  }

  /** A bad request's answer ends. */
  lemma BadTurns(s: State, mine: nat, conn: P.Conn)
    requires Turns(s, mine) && Queue(s.conn) != [] && Queue(conn) == Queue(s.conn)[1..]
    requires Gone(s) >= 0 && P.Bad(s.asked[Gone(s)])
    ensures Turns(s.(conn := conn), mine)
  {
    forall k | 0 <= k < mine
      ensures InTurn(s.(conn := conn), k)
    {
      assert InTurn(s, k);
    }
  }

  lemma QuietTurns(s: State, mine: nat, conn: P.Conn)
    requires Turns(s, mine) && Queue(conn) == Queue(s.conn)
    ensures Turns(s.(conn := conn), mine)
  {
    forall k | 0 <= k < mine
      ensures InTurn(s.(conn := conn), k)
    {
      assert InTurn(s, k);
    }
  }

  /** Request r has ended a write of these body bytes, and is done exactly if the connection does not go on. */
  predicate Wrote(s: B.Server, v: B.Server, r: nat, bytes: string, more: bool) {
    && r < |s.reqs| == |v.reqs|
    && v.reqs[r].uri == s.reqs[r].uri && v.reqs[r].sent == s.reqs[r].sent + bytes && more == !v.reqs[r].hst.Done?
    && v.reqs == s.reqs[r := v.reqs[r]]
  }

  lemma WroteTurns(mine: nat, s: State, v: State, r: nat, bytes: string, more: bool)
    requires Turns(s, mine) && r < mine && r < |s.asked| && r == Gone(s) && !P.Bad(s.asked[r]) && Queue(s.conn) != []
    requires Wrote(s.server, v.server, r, bytes, more) && v.asked == s.asked && v.out == s.out + bytes
    requires Queue(v.conn) == if more then Queue(s.conn) else Queue(s.conn)[1..]
    ensures Turns(v, mine)
  {
    forall k | 0 <= k < mine
      ensures InTurn(v, k)
    {
      assert InTurn(s, k);
    }
    forall k | r < k < mine
      ensures s.server.reqs[k].sent == ""
    {
      assert InTurn(s, k);
    }
    SentMore(s.server.reqs, v.server.reqs, mine, r, bytes);
  }

  lemma AskTurn(files: B.Files, mine: nat, s: State, a: B.Action)
    requires P.Invariant(s.conn) && Numbered(s.conn, s.asked) && Served(s)
    requires Enabled(files, mine, s, Other(a)) && a.Ask? && a.r < mine
    ensures a.r == Gone(s) && Queue(s.conn) != [] && a.r < |s.asked| && !P.Bad(s.asked[a.r])
  {
    AskInTurn(s, a.r);
  }

  lemma RequestInTurn(files: B.Files, mine: nat, s: State, a: B.Action, k: nat)
    requires B.Reached(files, s.server) && Turns(s, mine) && k < mine
    requires B.Enabled(files, s.server, a) && B.Sound(s.server, a) && !(a.Wrote? && a.r < mine)
    requires a.Ask? && a.r == k ==> k == Gone(s) && Queue(s.conn) != [] && k < |s.asked| && !P.Bad(s.asked[k])
    ensures InTurnAfter(s, s.(server := B.Apply(files, s.server, a)), k)
  {
    RequestMoves(files, s.server, a, k);
    assert InTurn(s, k);
    MovesInTurn(s, s.(server := B.Apply(files, s.server, a)), k, a.Ask? && a.r == k);
  }

  lemma OtherTurns(files: B.Files, mine: nat, s: State, a: B.Action)
    requires Invariant(files, mine, s) && Enabled(files, mine, s, Other(a)) && Sound(files, mine, s, Other(a))
    ensures Turns(Apply(files, mine, s, Other(a)), mine)
  {
    SameRequests(files, s.server, a);
    if a.Ask? && a.r < mine {
      AskTurn(files, mine, s, a);
    }
    forall k: nat | k < mine {
      RequestInTurn(files, mine, s, a, k);
    }
    TurnsAfter(s, s.(server := B.Apply(files, s.server, a)), mine);
  }

  lemma SameRequests(files: B.Files, s: B.Server, a: B.Action)
    requires B.Enabled(files, s, a) && B.Sound(s, a)
    ensures |B.Apply(files, s, a).reqs| == |s.reqs|
  {
    if |s.reqs| > 0 {
      B.StepKeeps(files, s, a, 0);
    } else {
      assert a.Evict?;
    }
  }

  lemma OtherServed(files: B.Files, mine: nat, s: State, a: B.Action)
    requires Invariant(files, mine, s) && Enabled(files, mine, s, Other(a)) && Sound(files, mine, s, Other(a))
    ensures Served(Apply(files, mine, s, Other(a)))
  {
    forall pk | P.Write(pk) in s.conn.pending && GoodPackage(s.conn, pk)
      ensures IsWriting(B.Apply(files, s.server, a), pk)
    {
      WriterIsMine(s, mine, pk);
      StillWriting(files, s.server, a, pk);
    }
  }

  lemma OtherInvariant(files: B.Files, mine: nat, s: State, a: B.Action)
    requires Invariant(files, mine, s) && Enabled(files, mine, s, Other(a)) && Sound(files, mine, s, Other(a))
    ensures Invariant(files, mine, Apply(files, mine, s, Other(a)))
  {
    B.StepReached(files, s.server, a);
    OtherTurns(files, mine, s, a);
    OtherServed(files, mine, s, a);
  }

  /** What a write's end leaves pending. */
  lemma WritePending(c: P.Conn, more: bool)
    requires P.Invariant(c) && c.pending[0].Write? && P.Live(c, c.pending[0].pk)
    ensures var v, pk := P.Apply(c, P.EndWrite(0, more)), c.pending[0].pk;
      if more && !P.Bad(c.heap[pk].request.value) then v.pending == [P.Get(pk)] && v.heap == c.heap
      else |v.pending| == 1 && !v.pending[0].Get? && !v.pending[0].Write?
  {
    assert RemoveAt(c.pending, 0) == [];
  }

  /** What a fetch leaves pending. */
  lemma FetchPending(c: P.Conn)
    requires P.Invariant(c) && c.pending[0].Fetch? && P.Live(c, c.pending[0].pk)
    ensures var v, pk := P.Apply(c, P.FetchNow(0)), c.pending[0].pk;
      v.pending == [if P.Bad(c.heap[pk].request.value) then P.Write(pk) else P.Get(pk)] && v.heap == c.heap
  {
    assert RemoveAt(c.pending, 0) == [];
  }

  lemma OwnServed(s: State, a: P.Action)
    requires P.Invariant(s.conn) && Served(s) && P.Enabled(s.conn, a) && P.Sound(s.conn, a)
    requires a.Answer? ==> IsWriting(s.server, s.conn.pending[a.i].pk)
    requires a.EndWrite? ==> BadPackage(s.conn, s.conn.pending[a.i].pk)
    ensures Served(s.(conn := P.Apply(s.conn, a)))
  {
    assert RemoveAt(s.conn.pending, 0) == [];
    match a
    case FetchNow(_) => FetchPending(s.conn);
    case EndWrite(_, more) => WritePending(s.conn, more);
    case _ =>
  }

  lemma OwnTurns(files: B.Files, mine: nat, s: State, a: P.Action)
    requires P.Invariant(s.conn) && Numbered(s.conn, s.asked) && Turns(s, mine)
    requires Enabled(files, mine, s, Own(a)) && Sound(files, mine, s, Own(a))
    ensures var v := Apply(files, mine, s, Own(a));
      P.Invariant(v.conn) && Numbered(v.conn, v.asked) && Turns(v, mine)
  {
    var conn := P.Apply(s.conn, a);
    P.InvariantStep(s.conn, a);
    OwnNumbered(s.conn, a, s.asked);
    assert s.asked + [] == s.asked;
    if a.ParseNow? {
      ParseTurns(s, mine, Found(a), conn);
    } else if a.EndWrite? {
      FirstInTurn(s, s.conn.pending[0].pk);
      BadTurns(s, mine, conn);
    } else {
      QuietTurns(s, mine, conn);
    }
  }

  lemma OwnInvariant(files: B.Files, mine: nat, s: State, a: P.Action)
    requires Invariant(files, mine, s) && Enabled(files, mine, s, Own(a)) && Sound(files, mine, s, Own(a))
    ensures Invariant(files, mine, Apply(files, mine, s, Own(a)))
  {
    OwnTurns(files, mine, s, a);
    OwnServed(s, a);
  }

  lemma EndWriteConn(s: State, i: nat, r: nat, more: bool)
    requires P.Enabled(s.conn, P.EndWrite(i, more)) && s.conn.pending[i] == P.Write(r + 1)
    requires P.Sound(s.conn, P.EndWrite(i, more)) && GoodPackage(s.conn, r + 1)
    requires P.Invariant(s.conn) && Numbered(s.conn, s.asked)
    ensures var conn := P.Apply(s.conn, P.EndWrite(i, more));
      && P.Invariant(conn) && Numbered(conn, s.asked)
      && Queue(s.conn) != [] && Queue(conn) == if more then Queue(s.conn) else Queue(s.conn)[1..]
    ensures r == Gone(s) && r < |s.asked| && !P.Bad(s.asked[r])
  {
    FirstInTurn(s, r + 1);
    P.InvariantStep(s.conn, P.EndWrite(i, more));
    WriteNumbered(s.conn, more, s.asked);
  }

  lemma WriteServed(c: P.Conn, more: bool, server: B.Server)
    requires P.Invariant(c) && c.pending[0].Write? && P.Live(c, c.pending[0].pk) && GoodPackage(c, c.pending[0].pk)
    ensures ServedBy(P.Apply(c, P.EndWrite(0, more)), server)
  {
    WritePending(c, more);
  }

  lemma EndWriteSides(files: B.Files, mine: nat, s: State, i: nat, r: nat, n: nat)
      returns (v: State, bytes: string, more: bool)
    requires B.Reached(files, s.server)
    requires Enabled(files, mine, s, EndWrite(i, r, n)) && Sound(files, mine, s, EndWrite(i, r, n))
    ensures v == Apply(files, mine, s, EndWrite(i, r, n)) && B.Reached(files, v.server)
    ensures i < |s.conn.pending| && s.conn.pending[i] == P.Write(r + 1) && P.Live(s.conn, r + 1)
    ensures r < mine && GoodPackage(s.conn, r + 1) && v.conn == P.Apply(s.conn, P.EndWrite(i, more))
    ensures Wrote(s.server, v.server, r, bytes, more) && v.asked == s.asked && v.out == s.out + bytes
  {
    v := Apply(files, mine, s, EndWrite(i, r, n));
    bytes := BodyBytes(s.server.mem[s.server.reqs[r].hst.buf], n);
    more := GoesOn(files, s.server, r, n);
    assert s.server.reqs[r].sent + "" == s.server.reqs[r].sent;
    B.StepReached(files, s.server, B.Wrote(r, n));
  }

  lemma EndWriteInvariant(files: B.Files, mine: nat, s: State, i: nat, r: nat, n: nat)
    requires Invariant(files, mine, s)
    requires Enabled(files, mine, s, EndWrite(i, r, n)) && Sound(files, mine, s, EndWrite(i, r, n))
    ensures Invariant(files, mine, Apply(files, mine, s, EndWrite(i, r, n)))
  {
    var v, bytes, more := EndWriteSides(files, mine, s, i, r, n);
    EndWriteKept(files, mine, s, v, i, r, bytes, more);
  }

  lemma EndWriteKept(files: B.Files, mine: nat, s: State, v: State, i: nat, r: nat, bytes: string, more: bool)
    requires i < |s.conn.pending| && s.conn.pending[i] == P.Write(r + 1) && P.Live(s.conn, r + 1)
    requires r < mine && GoodPackage(s.conn, r + 1) && v.conn == P.Apply(s.conn, P.EndWrite(i, more))
    requires P.Invariant(s.conn) && Numbered(s.conn, s.asked) && Turns(s, mine) && B.Reached(files, v.server)
    requires Wrote(s.server, v.server, r, bytes, more) && v.asked == s.asked && v.out == s.out + bytes
    ensures Invariant(files, mine, v)
  {
    EndWriteConn(s, i, r, more);
    WriteServed(s.conn, more, v.server);
    WroteTurns(mine, s, v, r, bytes, more);
  }

  // ---- runs ----

  ghost function Run(files: B.Files, mine: nat, s: State, schedule: seq<Action>): Option<State> {
    if schedule == [] then Some(s) else
      var last := |schedule| - 1;
      var before := Run(files, mine, s, schedule[..last]);
      if before.Some? && Enabled(files, mine, before.value, schedule[last])
         && Sound(files, mine, before.value, schedule[last])
      then Some(Apply(files, mine, before.value, schedule[last])) else None
  }

  lemma {:induction false} NothingSent(reqs: seq<B.Request>, n: nat)
    requires n <= |reqs| && forall k :: 0 <= k < n ==> reqs[k].sent == ""
    ensures Sent(reqs, n) == ""
  {
    if n > 0 {
      NothingSent(reqs, n - 1);
    }
  }

  lemma InitialTurns(server: B.Server, mine: nat)
    requires mine <= |server.reqs|
    requires forall k :: 0 <= k < |server.reqs| ==> server.reqs[k] == B.Opened(server.reqs[k].uri)
    ensures var s := Initial(server);
      P.Invariant(s.conn) && Numbered(s.conn, s.asked) && Turns(s, mine) && Served(s)
  {
    NothingSent(server.reqs, mine);
  }

  lemma InitialOpened(quota: CM.size_t, uris: seq<string>)
    ensures var reqs := B.Initial(quota, uris).reqs;
      |reqs| == |uris| && forall k :: 0 <= k < |reqs| ==> reqs[k] == B.Opened(reqs[k].uri)
  {
  }

  lemma InitialInvariant(files: B.Files, mine: nat, quota: CM.size_t, uris: seq<string>)
    requires mine <= |uris| && forall u :: u in uris ==> B.Legit(files, u)
    ensures Invariant(files, mine, Initial(B.Initial(quota, uris)))
  {
    B.InitialReached(files, quota, uris);
    InitialOpened(quota, uris);
    InitialTurns(B.Initial(quota, uris), mine);
  }

  lemma {:induction false} RunInvariant(files: B.Files, mine: nat, s: State, schedule: seq<Action>)
    requires Invariant(files, mine, s) && Run(files, mine, s, schedule).Some?
    ensures Invariant(files, mine, Run(files, mine, s, schedule).value)
  {
    if schedule != [] {
      var last := |schedule| - 1;
      RunInvariant(files, mine, s, schedule[..last]);
      var u := Run(files, mine, s, schedule[..last]).value;
      match schedule[last]
      case Other(a) => OtherInvariant(files, mine, u, a);
      case Own(a) => OwnInvariant(files, mine, u, a);
      case EndWrite(i, r, n) => EndWriteInvariant(files, mine, u, i, r, n);
    }
  }

  // ---- what arrives on the connection ----

  /** The body a request gets: the file, if the request names one that exists and a version that the server
      speaks; otherwise nothing. */
  function Body(files: B.Files, q: RP.Request): string {
    match (q.uri, q.ver)
    case (Some(u), Some(v)) => if (v == "HTTP/1.0" || v == "HTTP/1.1") && u in files then files[u] else ""
    case _ => ""
  }

  function Bodies(files: B.Files, asked: seq<RP.Request>): string {
    if asked == [] then "" else Bodies(files, asked[..|asked| - 1]) + Body(files, asked[|asked| - 1])
  }

  lemma SentIsBody(files: B.Files, mine: nat, s: State, k: nat)
    requires k < mine && Turns(s, mine) && Queue(s.conn) == [] && B.OnTrack(files, s.server.reqs[k])
    ensures s.server.reqs[k].sent == if k < |s.asked| then Body(files, s.asked[k]) else ""
  {
    var q := s.server.reqs[k];
    assert InTurn(s, k);
    if q.wst == B.BodyPart {
      assert files[q.uri][..|files[q.uri]|] == files[q.uri];
    }
  }

  lemma {:induction false} SentIsBodies(files: B.Files, reqs: seq<B.Request>, asked: seq<RP.Request>, n: nat)
    requires n <= |reqs|
    requires forall k :: 0 <= k < n ==> reqs[k].sent == if k < |asked| then Body(files, asked[k]) else ""
    ensures Sent(reqs, n) == Bodies(files, asked[..if n < |asked| then n else |asked|])
  {
    if n > 0 {
      var k := n - 1;
      SentIsBodies(files, reqs, asked, k);
      if k < |asked| {
        assert asked[..n][..k] == asked[..k];
      } else {
        assert Sent(reqs, k) + "" == Sent(reqs, k);
      }
    }
  }

  lemma AllOnTrack(files: B.Files, s: B.Server)
    requires B.Reached(files, s)
    ensures forall k :: 0 <= k < |s.reqs| ==> B.OnTrack(files, s.reqs[k])
  {
    B.ReachedInvariant(files, s);
  }

  lemma OutIsBodies(files: B.Files, mine: nat, s: State)
    requires Turns(s, mine) && Queue(s.conn) == []
    requires forall k :: 0 <= k < mine ==> B.OnTrack(files, s.server.reqs[k])
    ensures s.out == Bodies(files, s.asked)
  {
    forall k | 0 <= k < mine
      ensures s.server.reqs[k].sent == if k < |s.asked| then Body(files, s.asked[k]) else ""
    {
      SentIsBody(files, mine, s, k);
    }
    SentIsBodies(files, s.server.reqs, s.asked, mine);
    assert s.asked[..|s.asked|] == s.asked;
  }

  /** Whatever the other connections do, and however hits, misses, waits and evictions fall: when all that the
      connection has asked for is served, the body bytes written on it are the files asked for, whole, one after
      the other in the order of the requests. */
  lemma BodiesInOrder(files: B.Files, mine: nat, quota: CM.size_t, uris: seq<string>, schedule: seq<Action>)
    requires mine <= |uris| && forall u :: u in uris ==> B.Legit(files, u)
    requires Run(files, mine, Initial(B.Initial(quota, uris)), schedule).Some?
    requires Queue(Run(files, mine, Initial(B.Initial(quota, uris)), schedule).value.conn) == []
    ensures var v := Run(files, mine, Initial(B.Initial(quota, uris)), schedule).value;
      v.out == Bodies(files, v.asked)
  {
    var s := Initial(B.Initial(quota, uris));
    InitialInvariant(files, mine, quota, uris);
    RunInvariant(files, mine, s, schedule);
    var v := Run(files, mine, s, schedule).value;
    AllOnTrack(files, v.server);
    OutIsBodies(files, mine, v);
  }

  // ---- one pipelined text ----

  /** The texts parsed on the connection. */
  function Texts(schedule: seq<Action>): seq<(seq<char>, nat)> {
    if schedule == [] then [] else
      var last := schedule[|schedule| - 1];
      Texts(schedule[..|schedule| - 1])
      + if last.Own? && last.a.ParseNow? then [(last.a.text, last.a.nbytes)] else []
  }

  function AskedIn(texts: seq<(seq<char>, nat)>): seq<RP.Request>
    requires forall t :: t in texts ==> RP.Terminated(t.0) && 0 < t.1 < |t.0|
  {
    if texts == [] then [] else
      var last := texts[|texts| - 1];
      AskedIn(texts[..|texts| - 1]) + RP.Scan(last.0, last.1 - 1, 0)
  }

  lemma {:induction false} RunAsked(files: B.Files, mine: nat, server: B.Server, schedule: seq<Action>)
    requires Run(files, mine, Initial(server), schedule).Some?
    ensures forall t :: t in Texts(schedule) ==> RP.Terminated(t.0) && 0 < t.1 < |t.0|
    ensures Run(files, mine, Initial(server), schedule).value.asked == AskedIn(Texts(schedule))
  {
    if schedule != [] {
      var last := |schedule| - 1;
      RunAsked(files, mine, server, schedule[..last]);
      var texts := Texts(schedule);
      if texts != Texts(schedule[..last]) {
        assert texts[..|texts| - 1] == Texts(schedule[..last]);
      }
      var u := Run(files, mine, Initial(server), schedule[..last]).value;
      assert u.asked + [] == u.asked;
    }
  }

  predicate Spoken(ver: string) {
    ver == "HTTP/1.0" || ver == "HTTP/1.1"
  }

  /** The files of the messages, one after the other; one in another version, or for a missing file, adds nothing. */
  function FilesOf(files: B.Files, ms: seq<RP.Message>): string {
    if ms == [] then "" else
      var m := ms[|ms| - 1];
      FilesOf(files, ms[..|ms| - 1]) + if Spoken(m.ver) && m.uri in files then files[m.uri] else ""
  }

  lemma {:induction false} AllToldAt(ms: seq<RP.Message>)
    ensures |RP.AllTold(ms)| == |ms| && forall i :: 0 <= i < |ms| ==> RP.AllTold(ms)[i] == RP.Told(ms[i])
  {
    if ms != [] {
      AllToldAt(ms[1..]);
    }
  }

  lemma {:induction false} ToldBodies(files: B.Files, ms: seq<RP.Message>)
    ensures Bodies(files, RP.AllTold(ms)) == FilesOf(files, ms)
  {
    AllToldAt(ms);
    if ms != [] {
      var init := ms[..|ms| - 1];
      AllToldAt(init);
      ToldBodies(files, init);
      assert RP.AllTold(ms)[..|ms| - 1] == RP.AllTold(init);
    }
  }

  /** A client that sends these messages in one text gets the bodies of their files in the order it asked. */
  lemma PipelinedFiles(files: B.Files, mine: nat, quota: CM.size_t, uris: seq<string>, schedule: seq<Action>,
                       ms: seq<RP.Message>, text: seq<char>)
    requires mine <= |uris| && forall u :: u in uris ==> B.Legit(files, u)
    requires Run(files, mine, Initial(B.Initial(quota, uris)), schedule).Some?
    requires Queue(Run(files, mine, Initial(B.Initial(quota, uris)), schedule).value.conn) == []
    requires ms != [] && forall m :: m in ms ==> RP.Printable(m) && RP.Quiet(m)
    requires Texts(schedule) == [(text, |RP.Print(ms)|)] && RP.Print(ms) <= text
    ensures Run(files, mine, Initial(B.Initial(quota, uris)), schedule).value.out == FilesOf(files, ms)
  {
    BodiesInOrder(files, mine, quota, uris, schedule);
    RunAsked(files, mine, B.Initial(quota, uris), schedule);
    var t := (text, |RP.Print(ms)|);
    assert t in Texts(schedule);
    assert text[..|RP.Print(ms)|] == RP.Print(ms);
    RP.ParseUndoesPrint(ms, text);
    var found := RP.Scan(text, |RP.Print(ms)| - 1, 0);
    assert AskedIn([t]) == found by {
      assert [t][..0] == [];
      assert [] + found == found;
    }
    ToldBodies(files, ms);
  }

  /** The files of these messages, one after the other. */
  function Concatenated(files: B.Files, ms: seq<RP.Message>): string
    requires forall m :: m in ms ==> m.uri in files
  {
    if ms == [] then "" else Concatenated(files, ms[..|ms| - 1]) + files[ms[|ms| - 1].uri]
  }

  lemma {:induction false} AllSpoken(files: B.Files, ms: seq<RP.Message>)
    requires forall m :: m in ms ==> m.uri in files && Spoken(m.ver)
    ensures FilesOf(files, ms) == Concatenated(files, ms)
  {
    if ms != [] {
      AllSpoken(files, ms[..|ms| - 1]);
    }
  }

  /** So messages in the two versions that the server speaks, for files that exist, are all answered in full. */
  lemma EveryFileServed(files: B.Files, mine: nat, quota: CM.size_t, uris: seq<string>, schedule: seq<Action>,
                        ms: seq<RP.Message>, text: seq<char>)
    requires mine <= |uris| && forall u :: u in uris ==> B.Legit(files, u)
    requires Run(files, mine, Initial(B.Initial(quota, uris)), schedule).Some?
    requires Queue(Run(files, mine, Initial(B.Initial(quota, uris)), schedule).value.conn) == []
    requires ms != [] && forall m :: m in ms ==> RP.Printable(m) && RP.Quiet(m) && m.uri in files
                                                 && (m.ver == "HTTP/1.0" || m.ver == "HTTP/1.1")
    requires Texts(schedule) == [(text, |RP.Print(ms)|)] && RP.Print(ms) <= text
    ensures Run(files, mine, Initial(B.Initial(quota, uris)), schedule).value.out == Concatenated(files, ms)
  {
    PipelinedFiles(files, mine, quota, uris, schedule, ms, text);
    AllSpoken(files, ms);
  }

  /** A request without a uri or a version, or in another version, is never put to the server: it stays as it was
      opened, and sends nothing. */
  lemma RefusedUntouched(files: B.Files, mine: nat, quota: CM.size_t, uris: seq<string>, schedule: seq<Action>, k: nat)
    requires mine <= |uris| && forall u :: u in uris ==> B.Legit(files, u)
    requires Run(files, mine, Initial(B.Initial(quota, uris)), schedule).Some?
    requires var v := Run(files, mine, Initial(B.Initial(quota, uris)), schedule).value;
      && k < |v.asked|
      && (v.asked[k].uri.None? || v.asked[k].ver.None?
          || (v.asked[k].ver.value != "HTTP/1.0" && v.asked[k].ver.value != "HTTP/1.1"))
    ensures var v := Run(files, mine, Initial(B.Initial(quota, uris)), schedule).value;
      k < |v.server.reqs| && v.server.reqs[k] == B.Opened(v.server.reqs[k].uri)
  {
    InitialInvariant(files, mine, quota, uris);
    RunInvariant(files, mine, Initial(B.Initial(quota, uris)), schedule);
    assert InTurn(Run(files, mine, Initial(B.Initial(quota, uris)), schedule).value, k);
  }

  // ---- the connection never waits for nothing ----

  lemma NextWrite(files: B.Files, s: State, pk: P.Id) returns (n: nat)
    requires B.Reached(files, s.server) && Served(s) && P.Write(pk) in s.conn.pending
    ensures GoodPackage(s.conn, pk) ==> pk > 0 && B.Enabled(files, s.server, B.Wrote(pk - 1, n))
  {
    n := 0;
    if GoodPackage(s.conn, pk) {
      assert IsWriting(s.server, pk);
      B.ReachedInvariant(files, s.server);
      n := B.WriterGoesOn(files, s.server, pk - 1);
    }
  }

  lemma NextRead(files: B.Files, server: B.Server, r: nat) returns (t: nat, n: CM.size_t)
    requires B.Reached(files, server) && r < |server.reqs|
    ensures server.reqs[r].hst.Waiting? ==> B.Enabled(files, server, B.Fill(t, n))
  {
    t, n := 0, 0;
    if server.reqs[r].hst.Waiting? {
      B.ReachedInvariant(files, server);
      B.ReaderGoesOn(files, server, r);
      t, n :| B.Enabled(files, server, B.Fill(t, n));
    }
  }

  lemma AskedGoesOn(files: B.Files, mine: nat, s: State, r: nat, t: nat, n: CM.size_t)
    requires Turns(s, mine) && r == Gone(s) && r < |s.asked| && s.conn.pending == [P.Get(r + 1)]
    requires s.server.reqs[r].hst.Waiting? ==> B.Enabled(files, s.server, B.Fill(t, n))
    ensures exists x :: Enabled(files, mine, s, x)
  {
    assert InTurn(s, r);
    match s.server.reqs[r].hst
    case Ready => assert Enabled(files, mine, s, Other(B.Ask(r)));
    case Waiting(_) => assert Enabled(files, mine, s, Other(B.Fill(t, n)));
    case Writing(_) => assert Enabled(files, mine, s, Own(P.Answer(0)));
    case Done(_) =>
  }

  lemma WriteGoesOn(files: B.Files, mine: nat, s: State, pk: P.Id, n: nat)
    requires s.conn.pending == [P.Write(pk)] && 0 < pk <= mine && RequestOf(s.conn, pk).Some?
    requires GoodPackage(s.conn, pk) ==> B.Enabled(files, s.server, B.Wrote(pk - 1, n))
    ensures exists x :: Enabled(files, mine, s, x)
  {
    if BadPackage(s.conn, pk) {
      assert Enabled(files, mine, s, Own(P.EndWrite(0, false)));
    } else {
      assert GoodPackage(s.conn, pk);
      assert Enabled(files, mine, s, EndWrite(0, pk - 1, n));
    }
  }

  lemma FetchGoesOn(files: B.Files, mine: nat, s: State, pk: P.Id)
    requires s.conn.pending == [P.Fetch(pk)]
    ensures exists x :: Enabled(files, mine, s, x)
  {
    assert Enabled(files, mine, s, Own(P.FetchNow(0)));
  }

  /** What is pending while a package is left. */
  lemma SomethingPending(s: State) returns (p: P.Pending)
    requires P.Invariant(s.conn) && Queue(s.conn) != []
    ensures s.conn.pending == [p] && (p.Fetch? || p.Get? || p.Write?)
  {
    p := s.conn.pending[0];
  }

  lemma GetPlace(s: State, pk: P.Id) returns (r: nat)
    requires P.Invariant(s.conn) && Numbered(s.conn, s.asked) && s.conn.pending == [P.Get(pk)]
    ensures r == Gone(s) && r < |s.asked| && s.conn.pending == [P.Get(r + 1)]
  {
    FirstInTurn(s, pk);
    r := pk - 1;
  }

  /** While a package is left, something can happen that serves it or what it waits for. */
  lemma NeverStuck(files: B.Files, mine: nat, s: State)
    requires Invariant(files, mine, s) && Queue(s.conn) != []
    ensures exists x :: Enabled(files, mine, s, x)
  {
    var p := SomethingPending(s);
    if p.Fetch? {
      FetchGoesOn(files, mine, s, p.pk);
    } else if p.Get? {
      var r := GetPlace(s, p.pk);
      var t, n := NextRead(files, s.server, r);
      AskedGoesOn(files, mine, s, r, t, n);
    } else {
      WriterIsMine(s, mine, p.pk);
      var n := NextWrite(files, s, p.pk);
      WriteGoesOn(files, mine, s, p.pk, n);
    }
  }
}
