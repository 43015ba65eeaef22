/** The cache keys of webserver/svr_http.cc: a uri's header is kept under the uri, a piece of its body under
    uri#offset, both cut to MAXKEYS - 1 characters. */
module ContentKeys {
  const MAXKEYS: nat := 256

  function Digit(d: nat): (c: char)
    requires d < 10
    ensures c != '#'
  {
    "0123456789"[d]
  }

  /** %zu */
  function Decimal(n: nat): (s: string)
    ensures s != "" && '#' !in s
  {
    if n < 10 then [Digit(n)] else Decimal(n / 10) + [Digit(n % 10)]
  }

  function Cut(s: string): string {
    if |s| < MAXKEYS then s else s[..MAXKEYS - 1]
  }

  function HeadKey(uri: string): string {
    Cut(uri)
  }

  function BodyKey(uri: string, offset: nat): string {
    Cut(uri + "#" + Decimal(offset))
  }

  /** Which digit it is. */
  function Weight(c: char): nat {
    match c
    case '1' => 1 case '2' => 2 case '3' => 3 case '4' => 4 case '5' => 5
    case '6' => 6 case '7' => 7 case '8' => 8 case '9' => 9 case _ => 0
  }

  /** Reading a decimal number, first digit first. */
  function Value(s: string): nat {
    if s == "" then 0 else 10 * Value(s[..|s| - 1]) + Weight(s[|s| - 1])
  }

  /** Decimal writes the number that Value reads. */
  lemma {:induction false} DecimalValue(n: nat)
    ensures Value(Decimal(n)) == n
    ensures n > 0 ==> Decimal(n)[0] != '0'
  {
    var s := Decimal(n);
    if n >= 10 {
      DecimalValue(n / 10);
      assert s[..|s| - 1] == Decimal(n / 10);
      assert Weight(Digit(n % 10)) == n % 10;
    } else {
      assert s[..0] == "";
    }
  }

  lemma {:induction false} DecimalGrows(m: nat, n: nat)
    requires m <= n
    ensures |Decimal(m)| <= |Decimal(n)|
  {
    if n >= 10 && m >= 10 {
      DecimalGrows(m / 10, n / 10);
    }
  }

  /** A '#' followed by digits only is where a body key's offset begins. */
  lemma SplitAtHash(u: string, s: string, v: string, t: string)
    requires '#' !in s && '#' !in t && u + "#" + s == v + "#" + t
    ensures u == v && s == t
  {
    var k := u + "#" + s;
    assert k[|u|] == '#' && k[|v|] == '#';
    assert forall i :: |u| < i < |k| ==> k[i] == s[i - |u| - 1] != '#';
    assert forall i :: |v| < i < |k| ==> k[i] == t[i - |v| - 1] != '#';
    assert k[..|u|] == u && k[..|v|] == v;
    assert k[|u| + 1..] == s && k[|v| + 1..] == t;
  }

  /** The key of that piece is not cut. */
  predicate Uncut(uri: string, o: nat) {
    |uri| + 1 + |Decimal(o)| < MAXKEYS
  }

  lemma UncutBelow(uri: string, o: nat, last: nat)
    requires Uncut(uri, last) && o <= last
    ensures Uncut(uri, o)
  {
    DecimalGrows(o, last);
  }

  /** Uncut keys tell pieces apart, and a header key is a body key exactly if the uri is written like one. */
  lemma KeysApart(u: string, o: nat, v: string, p: nat)
    requires Uncut(u, o) && Uncut(v, p)
    ensures BodyKey(u, o) == BodyKey(v, p) <==> u == v && o == p
    ensures HeadKey(u) == HeadKey(v) <==> u == v
    ensures HeadKey(u) == BodyKey(v, p) <==> u == v + "#" + Decimal(p)
  {
    var s, t := Decimal(o), Decimal(p);
    if u + "#" + s == v + "#" + t {
      SplitAtHash(u, s, v, t);
      DecimalValue(o);
      DecimalValue(p);
    }
  }

  // ---- when keys are cut ----

  /** A piece whose key is cut shares it with the piece at a tenth of its offset. */
  lemma CutTenfold(uri: string, o: nat)
    requires o >= 10 && !Uncut(uri, o)
    ensures BodyKey(uri, o) == BodyKey(uri, o / 10)
  {
    var long, short := uri + "#" + Decimal(o), uri + "#" + Decimal(o / 10);
    assert long[..|short|] == short;
    assert long[..MAXKEYS - 1] == short[..MAXKEYS - 1];
    assert |short| < MAXKEYS ==> short[..MAXKEYS - 1] == short;
  }

  /** Two inputs: offsets 1 and 10 under a uri of 253 characters; a chunk boundary and its tenfold under 250. */
  lemma LongUrisMixPieces(u: string, v: string)
    requires |u| == 253 && |v| == 250
    ensures BodyKey(u, 1) == BodyKey(u, 10)
    ensures BodyKey(v, 65536) == BodyKey(v, 655360)
  {
    assert |Decimal(10)| == 1 + |Decimal(1)| == 2;
    CutTenfold(u, 10);
    assert |Decimal(655)| == 1 + |Decimal(65)| == 3;
    assert |Decimal(65536)| == 1 + |Decimal(6553)| == 5;
    assert |Decimal(655360)| == 1 + |Decimal(65536)| == 6;
    CutTenfold(v, 655360);
  }

  lemma HeadKeyCut(uri: string, o: nat)
    ensures HeadKey(uri) == BodyKey(uri, o) <==> |uri| >= MAXKEYS - 1
  {
    var k := uri + "#" + Decimal(o);
    if |uri| >= MAXKEYS - 1 {
      assert k[..MAXKEYS - 1] == uri[..MAXKEYS - 1];
      assert |uri| == MAXKEYS - 1 ==> uri[..MAXKEYS - 1] == uri;
    }
  }

  /** All that is stored for a uri whose offsets go up to `last` has its own key. */
  ghost predicate OwnKeys(uri: string, last: nat) {
    && (forall o: nat :: o <= last ==> BodyKey(uri, o) != HeadKey(uri))
    && (forall o: nat, p: nat :: o < p <= last ==> BodyKey(uri, o) != BodyKey(uri, p))
  }

  /** The whole family that cutting spoils: a uri's keys up to `last` are all different exactly if none is cut,
      or if the only piece's key loses no more than its one digit. */
  lemma OwnKeysIff(uri: string, last: nat)
    ensures OwnKeys(uri, last) <==> Uncut(uri, last) || (last == 0 && |uri| == MAXKEYS - 2)
  {
    HeadKeyCut(uri, 0);
    if Uncut(uri, last) {
      UncutOwnKeys(uri, last);
    } else if last >= 10 {
      CutTenfold(uri, last);
      assert BodyKey(uri, last / 10) == BodyKey(uri, last);
    } else if |uri| == MAXKEYS - 2 {
      BareHash(uri, 0);
      BareHash(uri, last);
      assert last > 0 ==> BodyKey(uri, 0) == BodyKey(uri, last);
    }
  }

  lemma UncutOwnKeys(uri: string, last: nat)
    requires Uncut(uri, last)
    ensures OwnKeys(uri, last)
  {
    forall o: nat | o <= last
      ensures BodyKey(uri, o) != HeadKey(uri)
    {
      HeadKeyCut(uri, o);
    }
    forall o: nat, p: nat | o < p <= last
      ensures BodyKey(uri, o) != BodyKey(uri, p)
    {
      UncutBelow(uri, o, last);
      UncutBelow(uri, p, last);
      KeysApart(uri, o, uri, p);
    }
  }

  lemma BareHash(uri: string, o: nat)
    requires |uri| == MAXKEYS - 2
    ensures BodyKey(uri, o) == uri + "#"
  {
    assert (uri + "#" + Decimal(o))[..MAXKEYS - 1] == uri + "#";
  }
}
