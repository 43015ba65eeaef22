/** svr_http_parse (webserver/svr_http.cc): GET requests found in a C string by a walking pointer and
    linked into a chain of siblings. */
module RequestParser {
  import opened Wrappers
  import opened Sequences

  const NUL := '\0'
  const GET := "GET "
  const CRLF := "\r\n"

  // ---- the C library on a terminated buffer; a pointer is an index ----

  /** The last byte is a terminator, so no scan runs off the end. */
  predicate Terminated(buf: seq<char>) {
    buf != [] && buf[|buf| - 1] == NUL
  }

  /** strstr(buf + p, CRLF) */
  function FindCrlf(buf: seq<char>, p: nat): (r: Option<nat>)
    requires Terminated(buf) && p < |buf|
    ensures r.Some? ==> p <= r.value && r.value + 1 < |buf|
    decreases |buf| - p
  {
    if buf[p] == NUL then None
    else if buf[p] == '\r' && buf[p + 1] == '\n' then Some(p)
    else FindCrlf(buf, p + 1)
  }

  /** strchr(buf + p, c) */
  function FindChar(buf: seq<char>, p: nat, c: char): (r: Option<nat>)
    requires Terminated(buf) && p < |buf|
    ensures r.Some? ==> p <= r.value < |buf| && buf[r.value] == c
    decreases |buf| - p
  {
    if buf[p] == c then Some(p)
    else if buf[p] == NUL then None
    else FindChar(buf, p + 1, c)
  }

  /** strncmp(buf + p, "GET ", 4) == 0: no byte is compared after one that differs. */
  predicate GetAt(buf: seq<char>, p: nat)
    requires Terminated(buf) && p < |buf|
    ensures GetAt(buf, p) ==> p + 4 < |buf|
  {
    buf[p] == 'G' && buf[p + 1] == 'E' && buf[p + 2] == 'T' && buf[p + 3] == ' '
  }

  // ---- the walk ----

  /** What a child package is told; a bad request has no uri and no version. */
  datatype Request = Request(uri: Option<string>, ver: Option<string>)

  /** One turn of the loop: where ph goes, and the request found, if any. */
  datatype Turn = Turn(ph: nat, request: Option<Request>)

  function LineEnd(buf: seq<char>, pe: nat, ph: nat): nat
    requires Terminated(buf) && ph < pe < |buf|
  {
    var pt := FindCrlf(buf, ph);
    if pt.Some? then pt.value else pe
  }

  /** ph moves on in every turn, and every byte looked at lies in the buffer. */
  function TurnAt(buf: seq<char>, pe: nat, ph: nat): (t: Turn)
    requires Terminated(buf) && ph < pe < |buf|
    ensures t.ph > ph
  {
    var pt := LineEnd(buf, pe, ph);
    if GetAt(buf, ph) then
      var q := ph + 4;
      var ps := FindChar(buf, q, ' ');
      var u := if buf[q] == '/' then q + 1 else q;
      if ps.Some? && ps.value < pt then
        Turn(ps.value + 1, Some(Request(Some(buf[u..ps.value]), Some(buf[ps.value + 1..pt]))))
      else
        Turn(u, Some(Request(None, None)))
    else
      Turn(pt + 2, None)
  }

  /** The requests found from ph on. */
  function Scan(buf: seq<char>, pe: nat, ph: nat): seq<Request>
    requires Terminated(buf) && pe < |buf|
    decreases pe - ph
  {
    if ph >= pe then [] else
      var t := TurnAt(buf, pe, ph);
      if t.request.Some? then [t.request.value] + Scan(buf, pe, t.ph) else Scan(buf, pe, t.ph)
  }

  // ---- the chain of packages ----

  class Hpkg {
    var request: Request
    var ppg: Hpkg?
    var lcg: Hpkg?
    var nsg: Hpkg?

    constructor (request: Request, ppg: Hpkg?)
      ensures this.request == request && this.ppg == ppg && lcg == null && nsg == null
    {
      this.request, this.ppg, lcg, nsg := request, ppg, null, null;
    }
  }

  /** The children of pk are exactly `chain`, first to last, and end there. */
  ghost predicate Chained(pk: Hpkg, chain: seq<Hpkg>)
    reads pk, chain
  {
    && (forall i :: 0 <= i < |chain| ==> chain[i].ppg == pk && chain[i].lcg == null)
    && (forall i, j :: 0 <= i < j < |chain| ==> chain[i] != chain[j])
    && (forall i :: 0 <= i < |chain| - 1 ==> chain[i].nsg == chain[i + 1])
    && (if chain == [] then pk.lcg == null else pk.lcg == chain[|chain| - 1] && pk.lcg.nsg == null)
  }

  ghost predicate Carries(chain: seq<Hpkg>, requests: seq<Request>)
    reads chain
  {
    && |chain| == |requests|
    && forall i :: 0 <= i < |chain| ==> chain[i].request == requests[i]
  }

  /** Links a new last child. */
  method Append(pk: Hpkg, request: Request, ghost chain: seq<Hpkg>, ghost requests: seq<Request>) returns (gk: Hpkg)
    requires pk !in chain && Chained(pk, chain) && Carries(chain, requests)
    modifies pk, chain
    ensures fresh(gk) && pk !in chain + [gk]
    ensures Chained(pk, chain + [gk]) && Carries(chain + [gk], requests + [request])
  {
    gk := new Hpkg(request, pk);
    if pk.lcg != null {
      pk.lcg.nsg := gk;
    }
    pk.lcg := gk;
  }

  /** Parses nbytes of text that came into a zeroed buffer; fget is the request to fetch first.  The
      children of pk are then the text's requests in order, the last of them pk's last child. */
  method Parse(pk: Hpkg, buf: array<char>, nbytes: nat) returns (fget: Hpkg?, ghost chain: seq<Hpkg>)
    requires 0 < nbytes < buf.Length && Terminated(buf[..])
    requires pk.lcg == null
    modifies pk
    ensures fresh(chain) && pk !in chain
    ensures Chained(pk, chain) && Carries(chain, Scan(buf[..], nbytes - 1, 0))
    ensures fget == if chain == [] then null else chain[0]
  {
    ghost var s := buf[..];
    var ph, pe := 0, nbytes - 1;
    fget, chain := null, [];
    ghost var found: seq<Request> := [];
    while ph < pe
      invariant buf[..] == s && Scan(s, pe, 0) == found + Scan(s, pe, ph)
      invariant fresh(chain) && pk !in chain && Chained(pk, chain) && Carries(chain, found)
      invariant fget == if chain == [] then null else chain[0]
      decreases pe - ph
    {
      var t := TurnAt(buf[..], pe, ph);
      if t.request.Some? {
        var gk := Append(pk, t.request.value, chain, found);
        if fget == null {
          fget := gk;
        }
        Associative(found, [t.request.value], Scan(s, pe, t.ph));
        chain, found := chain + [gk], found + [t.request.value];
      }
      ph := t.ph;
    }
    assert found + [] == found;
  }

  /** svr_http_final of the first package of the chain: who is fetched next, or null when the parent reads again,
      in which case it has no children left. */
  method Final(pk: Hpkg, ghost chain: seq<Hpkg>) returns (fget: Hpkg?)
    requires chain != [] && chain[0] == pk && pk.ppg != null
    requires pk.ppg !in chain && Chained(pk.ppg, chain)
    modifies pk.ppg
    ensures Chained(pk.ppg, chain[1..])
    ensures fget == if |chain| == 1 then null else chain[1]
    ensures fget == null <==> pk.ppg.lcg == null
  {
    var park := pk.ppg;
    fget := pk.nsg;
    if fget == null {
      park.lcg := null;
    }
  }

  // ---- what the walk makes of lines ----

  predicate CrlfAt(l: string, i: nat) {
    i + 1 < |l| && l[i] == '\r' && l[i + 1] == '\n'
  }

  /** No terminator and no line end inside. */
  predicate Clean(l: string) {
    NUL !in l && forall i :: 0 <= i < |l| ==> !CrlfAt(l, i)
  }

  function IndexOf(l: string, c: char): (i: nat)
    ensures i <= |l| && (i < |l| ==> l[i] == c)
    ensures forall j :: 0 <= j < i ==> l[j] != c
  {
    if l == "" || l[0] == c then 0 else IndexOf(l[1..], c) + 1
  }

  predicate IsGet(l: string) {
    |l| >= 4 && l[0] == 'G' && l[1] == 'E' && l[2] == 'T' && l[3] == ' '
  }

  /** Where the line's first request ends, and what it is. */
  function Next(l: string): (t: Turn)
    requires IsGet(l)
    ensures 4 <= t.ph <= |l| && t.request.Some?
  {
    var r := l[4..];
    var s := IndexOf(r, ' ');
    var u := if r != "" && r[0] == '/' then 1 else 0;
    if s < |r| then Turn(4 + s + 1, Some(Request(Some(r[u..s]), Some(r[s + 1..]))))
    else Turn(4 + u, Some(Request(None, None)))
  }

  /** The requests found in one line: what follows a request's uri is looked at again. */
  function LineGets(l: string): seq<Request>
    decreases |l|
  {
    if IsGet(l) then [Next(l).request.value] + LineGets(l[Next(l).ph..]) else []
  }

  /** Line l stands at p, with its line end. */
  ghost predicate LineAt(buf: seq<char>, p: nat, l: string) {
    && Clean(l)
    && p + |l| + 2 < |buf|
    && (forall i {:trigger l[i]} :: 0 <= i < |l| ==> buf[p + i] == l[i])
    && buf[p + |l|] == '\r' && buf[p + |l| + 1] == '\n'
  }

  lemma {:induction false} LineEndAt(buf: seq<char>, p: nat, l: string)
    requires Terminated(buf) && LineAt(buf, p, l)
    ensures FindCrlf(buf, p) == Some(p + |l|)
    decreases |l|
  {
    if l != "" {
      assert !CrlfAt(l, 0) && buf[p] == l[0];
      assert |l| > 1 ==> buf[p + 1] == l[1];
      LineRest(buf, p, l, 1);
      LineEndAt(buf, p + 1, l[1..]);
    }
  }

  lemma LineRest(buf: seq<char>, p: nat, l: string, k: nat)
    requires LineAt(buf, p, l) && k <= |l|
    ensures LineAt(buf, p + k, l[k..])
  {
    forall i | 0 <= i < |l| - k
      ensures !CrlfAt(l[k..], i)
    {
      assert !CrlfAt(l, k + i);
    }
  }

  lemma {:induction false} CharAt(buf: seq<char>, p: nat, l: string, c: char)
    requires Terminated(buf) && LineAt(buf, p, l) && c != '\r' && c != NUL
    ensures var s := FindChar(buf, p, c);
      if IndexOf(l, c) < |l| then s == Some(p + IndexOf(l, c)) else s.None? || s.value > p + |l|
    decreases |l|
  {
    if l != "" {
      assert buf[p] == l[0];
      if l[0] != c {
        LineRest(buf, p, l, 1);
        CharAt(buf, p + 1, l[1..], c);
      }
    }
  }

  lemma GetOnLine(buf: seq<char>, p: nat, l: string)
    requires Terminated(buf) && LineAt(buf, p, l)
    ensures GetAt(buf, p) <==> IsGet(l)
  {
    assert buf[p + |l|] == '\r';
    assert |l| > 0 ==> buf[p] == l[0];
    assert |l| > 1 ==> buf[p + 1] == l[1];
    assert |l| > 2 ==> buf[p + 2] == l[2];
    assert |l| > 3 ==> buf[p + 3] == l[3];
  }

  lemma LineSlice(buf: seq<char>, p: nat, l: string, i: nat, j: nat)
    requires LineAt(buf, p, l) && i <= j <= |l|
    ensures buf[p + i..p + j] == l[i..j]
  {
  }

  lemma UriOnLine(buf: seq<char>, q: nat, r: string, u: nat, s: nat)
    requires LineAt(buf, q, r) && u <= s < |r|
    ensures buf[q + u..q + s] == r[u..s] && buf[q + s + 1..q + |r|] == r[s + 1..]
  {
    LineSlice(buf, q, r, u, s);
    LineSlice(buf, q, r, s + 1, |r|);
    assert r[s + 1..] == r[s + 1..|r|];
  }

  lemma TurnOnLine(buf: seq<char>, pe: nat, p: nat, l: string)
    requires Terminated(buf) && LineAt(buf, p, l) && p + |l| < pe < |buf| && IsGet(l)
    ensures TurnAt(buf, pe, p) == Turn(p + Next(l).ph, Next(l).request)
  {
    LineEndAt(buf, p, l);
    GetOnLine(buf, p, l);
    var r := l[4..];
    var s := IndexOf(r, ' ');
    LineRest(buf, p, l, 4);
    CharAt(buf, p + 4, r, ' ');
    var slash := r != "" && r[0] == '/';
    assert buf[p + 4] == '/' <==> slash;
    if s < |r| {
      UriOnLine(buf, p + 4, r, if slash then 1 else 0, s);
    }
  }

  lemma FoundOnLine(buf: seq<char>, pe: nat, p: nat, l: string)
    requires Terminated(buf) && LineAt(buf, p, l) && p + |l| < pe < |buf| && IsGet(l)
    ensures Scan(buf, pe, p) == [Next(l).request.value] + Scan(buf, pe, p + Next(l).ph)
  {
    TurnOnLine(buf, pe, p, l);
  }

  lemma SkipLine(buf: seq<char>, pe: nat, p: nat, l: string)
    requires Terminated(buf) && LineAt(buf, p, l) && p + |l| < pe < |buf| && !IsGet(l)
    ensures Scan(buf, pe, p) == LineGets(l) + Scan(buf, pe, p + |l| + 2)
  {
    LineEndAt(buf, p, l);
    GetOnLine(buf, p, l);
    assert [] + Scan(buf, pe, p + |l| + 2) == Scan(buf, pe, p + |l| + 2);
  }

  lemma JoinLine(buf: seq<char>, pe: nat, p: nat, l: string, tail: seq<Request>)
    requires Terminated(buf) && LineAt(buf, p, l) && p + |l| < pe < |buf| && IsGet(l)
    requires Scan(buf, pe, p + Next(l).ph) == LineGets(l[Next(l).ph..]) + tail
    ensures Scan(buf, pe, p) == LineGets(l) + tail
  {
    FoundOnLine(buf, pe, p, l);
    Associative([Next(l).request.value], LineGets(l[Next(l).ph..]), tail);
  }

  lemma NextRest(buf: seq<char>, p: nat, l: string) returns (k: nat, rest: string)
    requires LineAt(buf, p, l) && IsGet(l)
    ensures k == Next(l).ph && 4 <= k <= |l| && rest == l[k..] && |rest| == |l| - k && LineAt(buf, p + k, rest)
  {
    k := Next(l).ph;
    rest := l[k..];
    LineRest(buf, p, l, k);
  }

  /** The walk over one line finds that line's requests and goes on at q, behind its line end. */
  lemma {:induction false} ScanLine(buf: seq<char>, pe: nat, p: nat, q: nat, l: string)
    requires Terminated(buf) && LineAt(buf, p, l) && q == p + |l| + 2 && p + |l| < pe < |buf|
    ensures Scan(buf, pe, p) == LineGets(l) + Scan(buf, pe, q)
    decreases |l|
  {
    if IsGet(l) {
      var k, rest := NextRest(buf, p, l);
      ScanLine(buf, pe, p + k, q, rest);
      JoinLine(buf, pe, p, l, Scan(buf, pe, q));
    } else {
      SkipLine(buf, pe, p, l);
    }
  }

  // ---- whole texts ----

  function Text(lines: seq<string>): string {
    if lines == [] then "" else lines[0] + CRLF + Text(lines[1..])
  }

  function Gets(lines: seq<string>): seq<Request> {
    if lines == [] then [] else LineGets(lines[0]) + Gets(lines[1..])
  }

  lemma LineFromText(buf: seq<char>, p: nat, n: nat, l: string, rest: string)
    requires Clean(l) && p <= n < |buf| && buf[p..n] == l + CRLF + rest
    ensures LineAt(buf, p, l) && buf[p + |l| + 2..n] == rest
  {
    var t := buf[p..n];
    assert forall i {:trigger l[i]} :: 0 <= i < |l| ==> t[i] == l[i];
    assert t[|l|] == '\r' && t[|l| + 1] == '\n' && t[|l| + 2..] == rest;
  }

  lemma JoinGets(lines: seq<string>, l: string, found: seq<Request>, tail: seq<Request>)
    requires lines != [] && lines[0] == l && found == LineGets(l) + tail && tail == Gets(lines[1..])
    ensures found == Gets(lines)
  {
  }

  /** The lines stand one after the other from p to n. */
  ghost predicate LinesAt(buf: seq<char>, p: nat, n: nat, lines: seq<string>)
    decreases |lines|
  {
    if lines == [] then p == n
    else LineAt(buf, p, lines[0]) && LinesAt(buf, p + |lines[0]| + 2, n, lines[1..])
  }

  lemma {:induction false} TextAt(buf: seq<char>, p: nat, n: nat, lines: seq<string>)
    requires p <= n < |buf| && buf[p..n] == Text(lines)
    requires forall l :: l in lines ==> Clean(l)
    ensures LinesAt(buf, p, n, lines)
    decreases |lines|
  {
    if lines == [] {
      assert |buf[p..n]| == 0;
    } else {
      LineFromText(buf, p, n, lines[0], Text(lines[1..]));
      TextAt(buf, p + |lines[0]| + 2, n, lines[1..]);
    }
  }

  lemma {:induction false} LinesEnd(buf: seq<char>, p: nat, n: nat, lines: seq<string>)
    requires LinesAt(buf, p, n, lines)
    ensures if lines == [] then p == n else p + |lines[0]| + 2 <= n
    decreases |lines|
  {
    if lines != [] {
      LinesEnd(buf, p + |lines[0]| + 2, n, lines[1..]);
    }
  }

  /** A text of whole lines, from p on, gives the lines' requests, although the last byte is not looked at. */
  lemma {:induction false} ScanLines(buf: seq<char>, n: nat, p: nat, lines: seq<string>)
    requires Terminated(buf) && 0 < n < |buf| && LinesAt(buf, p, n, lines)
    ensures Scan(buf, n - 1, p) == Gets(lines)
    decreases |lines|
  {
    LinesEnd(buf, p, n, lines);
    if lines == [] {
      assert Gets(lines) == [] && Scan(buf, n - 1, p) == [];
    } else {
      var l := lines[0];
      var q := p + |l| + 2;
      ScanLine(buf, n - 1, p, q, l);
      ScanLines(buf, n, q, lines[1..]);
      JoinGets(lines, l, Scan(buf, n - 1, p), Scan(buf, n - 1, q));
    }
  }

  // ---- parsing undoes printing ----

  datatype Message = Message(uri: string, ver: string, headers: seq<string>)

  function RequestLine(m: Message): string {
    GET + ("/" + m.uri + " " + m.ver)
  }

  /** A GET with its headers and the blank line. */
  function Lines(m: Message): seq<string> {
    [RequestLine(m)] + m.headers + [""]
  }

  function AllLines(ms: seq<Message>): seq<string> {
    if ms == [] then [] else Lines(ms[0]) + AllLines(ms[1..])
  }

  function Print(ms: seq<Message>): string {
    Text(AllLines(ms))
  }

  function Told(m: Message): Request {
    Request(Some(m.uri), Some(m.ver))
  }

  function AllTold(ms: seq<Message>): seq<Request> {
    if ms == [] then [] else [Told(ms[0])] + AllTold(ms[1..])
  }

  predicate Printable(m: Message) {
    Clean(m.uri) && ' ' !in m.uri && Clean(m.ver) && forall h :: h in m.headers ==> Clean(h)
  }

  /** No version or header line is itself taken for a request. */
  predicate Quiet(m: Message) {
    Silent(m.ver) && forall h :: h in m.headers ==> Silent(h)
  }

  lemma {:induction false} IndexOfSpace(u: string, v: string)
    requires ' ' !in u
    ensures IndexOf(u + " " + v, ' ') == |u|
  {
    if u != "" {
      assert (u + " " + v)[1..] == u[1..] + " " + v;
      IndexOfSpace(u[1..], v);
    }
  }

  lemma NextOfRequestLine(m: Message)
    requires ' ' !in m.uri
    ensures IsGet(RequestLine(m)) && Next(RequestLine(m)) == Turn(6 + |m.uri|, Some(Told(m)))
  {
    var l := RequestLine(m);
    var r := "/" + m.uri + " " + m.ver;
    assert l[4..] == r;
    IndexOfSpace("/" + m.uri, m.ver);
    assert r[1..1 + |m.uri|] == m.uri;
    assert r[|m.uri| + 2..] == m.ver;
  }

  lemma FirstLine(m: Message)
    requires ' ' !in m.uri
    ensures LineGets(RequestLine(m)) == [Told(m)] + LineGets(m.ver)
  {
    NextOfRequestLine(m);
    assert RequestLine(m)[6 + |m.uri|..] == m.ver;
  }

  lemma FirstLineClean(m: Message)
    requires Printable(m)
    ensures Clean(RequestLine(m))
  {
    var l := RequestLine(m);
    var n := 5 + |m.uri|;
    forall i | 0 <= i < |l|
      ensures !CrlfAt(l, i)
    {
      assert i < 5 ==> l[i] == (GET + "/")[i];
      assert 5 <= i < n ==> !CrlfAt(m.uri, i - 5) && l[i] == m.uri[i - 5];
      assert 5 <= i < n - 1 ==> l[i + 1] == m.uri[i - 4];
      assert i > n ==> !CrlfAt(m.ver, i - n - 1) && l[i] == m.ver[i - n - 1];
      assert n < i < |l| - 1 ==> l[i + 1] == m.ver[i - n];
    }
  }

  lemma {:induction false} GetsAppend(a: seq<string>, b: seq<string>)
    ensures Gets(a + b) == Gets(a) + Gets(b)
  {
    if a == [] {
      assert a + b == b;
    } else {
      assert (a + b)[1..] == a[1..] + b;
      GetsAppend(a[1..], b);
      Associative(LineGets(a[0]), Gets(a[1..]), Gets(b));
    }
  }

  predicate Silent(l: string) {
    !IsGet(l)
  }

  lemma {:induction false} NoGets(lines: seq<string>)
    ensures Gets(lines) == [] <==> forall l :: l in lines ==> Silent(l)
  {
    if lines != [] {
      NoGets(lines[1..]);
      assert |Gets(lines)| == |LineGets(lines[0])| + |Gets(lines[1..])|;
      assert |LineGets(lines[0])| == 0 <==> Silent(lines[0]);
      assert lines[0] in lines;
      assert forall l :: l in lines <==> l == lines[0] || l in lines[1..];
    } else {
      assert Gets(lines) == [];
    }
  }

  lemma MessageGets(m: Message)
    requires ' ' !in m.uri
    ensures |Gets(Lines(m))| >= 1 && Gets(Lines(m))[0] == Told(m)
    ensures |Gets(Lines(m))| == 1 <==> Quiet(m)
  {
    FirstLine(m);
    var rest := m.headers + [""];
    assert Lines(m) == [RequestLine(m)] + rest;
    assert Lines(m)[1..] == rest;
    NoGets(rest);
    assert forall l :: l in rest <==> l in m.headers || l == "";
    assert LineGets(m.ver) == [] <==> Silent(m.ver);
  }

  lemma {:induction false} AllGets(ms: seq<Message>)
    requires forall m :: m in ms ==> ' ' !in m.uri
    ensures |Gets(AllLines(ms))| >= |ms|
    ensures |Gets(AllLines(ms))| == |ms| ==> Gets(AllLines(ms)) == AllTold(ms)
    ensures |Gets(AllLines(ms))| == |ms| <==> forall m :: m in ms ==> Quiet(m)
  {
    if ms != [] {
      AllGets(ms[1..]);
      MessageGets(ms[0]);
      GetsAppend(Lines(ms[0]), AllLines(ms[1..]));
      assert forall m :: m in ms <==> m == ms[0] || m in ms[1..];
    }
  }

  lemma LinesClean(m: Message)
    requires Printable(m)
    ensures forall l :: l in Lines(m) ==> Clean(l)
  {
    FirstLineClean(m);
    forall l | l in Lines(m)
      ensures Clean(l)
    {
      var i :| 0 <= i < |Lines(m)| && Lines(m)[i] == l;
      if 0 < i <= |m.headers| {
        assert l == m.headers[i - 1];
      }
    }
  }

  lemma {:induction false} AllClean(ms: seq<Message>)
    requires forall m :: m in ms ==> Printable(m)
    ensures forall l :: l in AllLines(ms) ==> Clean(l)
  {
    if ms != [] {
      LinesClean(ms[0]);
      AllClean(ms[1..]);
    }
  }

  lemma {:induction false} AllToldLength(ms: seq<Message>)
    ensures |AllTold(ms)| == |ms|
  {
    if ms != [] {
      AllToldLength(ms[1..]);
    }
  }

  /** A received text that consists of whole lines. */
  lemma ScanText(buf: seq<char>, n: nat, lines: seq<string>)
    requires Terminated(buf) && 0 < n < |buf| && buf[..n] == Text(lines)
    requires forall l :: l in lines ==> Clean(l)
    ensures Scan(buf, n - 1, 0) == Gets(lines)
  {
    assert buf[0..n] == buf[..n];
    TextAt(buf, 0, n, lines);
    ScanLines(buf, n, 0, lines);
  }

  lemma PrintNotEmpty(ms: seq<Message>)
    requires ms != []
    ensures |Print(ms)| > 0
  {
    assert AllLines(ms)[0] == Lines(ms[0])[0];
  }

  lemma ScanPrint(ms: seq<Message>, buf: seq<char>)
    requires ms != [] && forall m :: m in ms ==> Printable(m)
    requires Terminated(buf) && |Print(ms)| < |buf| && buf[..|Print(ms)|] == Print(ms)
    ensures |Print(ms)| > 0 && Scan(buf, |Print(ms)| - 1, 0) == Gets(AllLines(ms))
  {
    PrintNotEmpty(ms);
    AllClean(ms);
    ScanText(buf, |Print(ms)|, AllLines(ms));
  }

  lemma GetsOfPrint(ms: seq<Message>)
    requires forall m :: m in ms ==> Printable(m)
    ensures Gets(AllLines(ms)) == AllTold(ms) <==> forall m :: m in ms ==> Quiet(m)
  {
    AllGets(ms);
    AllToldLength(ms);
  }

  /** Pipelined requests come out as they were printed, exactly when none of their version or header
      lines starts like a request itself. */
  lemma ParseUndoesPrint(ms: seq<Message>, buf: seq<char>)
    requires ms != [] && forall m :: m in ms ==> Printable(m)
    requires Terminated(buf) && |Print(ms)| < |buf| && buf[..|Print(ms)|] == Print(ms)
    ensures |Print(ms)| > 0
    ensures Scan(buf, |Print(ms)| - 1, 0) == AllTold(ms) <==> forall m :: m in ms ==> Quiet(m)
  {
    ScanPrint(ms, buf);
    GetsOfPrint(ms);
  }

  // ---- single request lines, good and bad ----

  function WithoutSlash(raw: string): string {
    if raw != "" && raw[0] == '/' then raw[1..] else raw
  }

  lemma {:induction false} NoIndex(l: string, c: char)
    requires c !in l
    ensures IndexOf(l, c) == |l|
  {
    if l != "" {
      NoIndex(l[1..], c);
    }
  }

  /** A request line without a second space gives one request, with neither uri nor version. */
  lemma BadLineGets(raw: string)
    requires ' ' !in raw
    ensures LineGets(GET + raw) == [Request(None, None)]
  {
    var l := GET + raw;
    assert l[4..] == raw;
    NoIndex(raw, ' ');
    var rest := l[Next(l).ph..];
    assert forall i :: 0 <= i < |rest| ==> rest[i] == raw[|raw| - |rest| + i];
    assert !IsGet(rest);
    assert [Request(None, None)] + [] == [Request(None, None)];
  }

  /** One with a second space: the uri is what lies between, less one leading slash if there is one, the version the
      rest of the line, which is then looked at again. */
  lemma GoodLineGets(raw: string, ver: string)
    requires ' ' !in raw
    ensures LineGets(GET + (raw + " " + ver)) == [Request(Some(WithoutSlash(raw)), Some(ver))] + LineGets(ver)
  {
    NextOfGoodLine(raw, ver);
    var l := GET + (raw + " " + ver);
    assert l[4 + |raw| + 1..] == ver;
  }

  lemma NextOfGoodLine(raw: string, ver: string)
    requires ' ' !in raw
    ensures var l := GET + (raw + " " + ver);
      IsGet(l) && Next(l) == Turn(4 + |raw| + 1, Some(Request(Some(WithoutSlash(raw)), Some(ver))))
  {
    var r := raw + " " + ver;
    var l := GET + r;
    assert l[4..] == r;
    IndexOfSpace(raw, ver);
    assert r[0] == if raw == "" then ' ' else raw[0];
    var u := if r[0] == '/' then 1 else 0;
    assert r[u..|raw|] == WithoutSlash(raw);
    assert r[|raw| + 1..] == ver;
  }

  /** Other lines give none. */
  lemma OtherLineGets(l: string)
    ensures LineGets(l) == [] <==> !(GET <= l)
  {
    assert IsGet(l) <==> GET <= l by {
      if GET <= l {
        assert forall i :: 0 <= i < 4 ==> l[i] == GET[i];
      }
    }
  }

  lemma ScanOneLine(buf: seq<char>, l: string)
    requires Terminated(buf) && Clean(l) && |l| + 2 < |buf| && buf[..|l| + 2] == l + CRLF
    ensures Scan(buf, |l| + 1, 0) == LineGets(l)
  {
    assert Text([l]) == l + CRLF by {
      assert [l][1..] == [];
      assert l + CRLF + "" == l + CRLF;
    }
    ScanText(buf, |l| + 2, [l]);
    assert [l][1..] == [] && LineGets(l) + [] == LineGets(l);
  }

  /** The same of the received text. */
  lemma BadRequest(buf: seq<char>, raw: string)
    requires Terminated(buf) && Clean(raw) && ' ' !in raw
    requires |raw| + 6 < |buf| && buf[..|raw| + 6] == GET + raw + CRLF
    ensures Scan(buf, |raw| + 5, 0) == [Request(None, None)]
  {
    var l := GET + raw;
    forall i | 0 <= i < |l|
      ensures !CrlfAt(l, i)
    {
      assert i < 4 ==> l[i] == GET[i];
      assert i >= 4 ==> !CrlfAt(raw, i - 4) && l[i] == raw[i - 4];
      assert 4 <= i < |l| - 1 ==> l[i + 1] == raw[i - 3];
    }
    ScanOneLine(buf, l);
    BadLineGets(raw);
  }
}
