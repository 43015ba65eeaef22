/** Facts about sequences that several modules share. */
module Sequences {
  lemma Associative<T>(a: seq<T>, b: seq<T>, c: seq<T>)
    ensures a + b + c == a + (b + c)
  {
  }

  function RemoveAt<T>(s: seq<T>, at: nat): (r: seq<T>)
    requires at < |s|
    ensures |r| == |s| - 1
    ensures forall i {:trigger r[i]} :: 0 <= i < at ==> r[i] == s[i]
    ensures forall i {:trigger r[i]} :: at <= i < |r| ==> r[i] == s[i + 1]
  {
    s[..at] + s[at + 1..]
  }

  /** No element occurs twice. */
  predicate Distinct<T(==)>(s: seq<T>) {
    s == [] || (s[0] !in s[1..] && Distinct(s[1..]))
  }

  lemma {:induction false} DistinctAt<T>(s: seq<T>, i: nat, j: nat)
    requires Distinct(s) && i < j < |s|
    ensures s[i] != s[j]
  {
    if i == 0 {
      assert s[1..][j - 1] == s[j];
    } else {
      DistinctAt(s[1..], i - 1, j - 1);
    }
  }

  lemma AllDistinctAt<T>(s: seq<T>, i: nat)
    requires Distinct(s) && i < |s|
    ensures forall j :: 0 <= j < |s| && j != i ==> s[j] != s[i]
  {
    forall j | 0 <= j < |s| && j != i
      ensures s[j] != s[i]
    {
      DistinctAt(s, if i < j then i else j, if i < j then j else i);
    }
  }

  lemma {:induction false} AppendDistinct<T>(s: seq<T>, x: T)
    requires Distinct(s) && x !in s
    ensures Distinct(s + [x])
  {
    if s == [] {
      assert s + [x] == [x];
    } else {
      AppendDistinct(s[1..], x);
      assert (s + [x])[1..] == s[1..] + [x];
    }
  }

  lemma {:induction false} RemoveDistinct<T>(s: seq<T>, at: nat)
    requires Distinct(s) && at < |s|
    ensures Distinct(RemoveAt(s, at)) && s[at] !in RemoveAt(s, at)
  {
    AllDistinctAt(s, at);
    var r := RemoveAt(s, at);
    if at == 0 {
      assert r == s[1..];
    } else {
      RemoveDistinct(s[1..], at - 1);
      assert r[1..] == RemoveAt(s[1..], at - 1);
      assert s[0] !in r[1..] by {
        assert forall x :: x in r[1..] ==> x in s[1..];
      }
    }
  }

  lemma RemoveMembers<T>(s: seq<T>, at: nat)
    requires at < |s|
    ensures forall x :: x in s && x != s[at] ==> x in RemoveAt(s, at)
  {
    forall x | x in s && x != s[at]
      ensures x in RemoveAt(s, at)
    {
      var i :| 0 <= i < |s| && s[i] == x;
      assert RemoveAt(s, at)[if i < at then i else i - 1] == x;
    }
  }

  /** How often x occurs. */
  function Times<T(==)>(s: seq<T>, x: T): nat {
    multiset(s)[x]
  }

  lemma TimesAppend<T>(s: seq<T>, y: T, x: T)
    ensures Times(s + [y], x) == Times(s, x) + if y == x then 1 else 0
  {
  }

  function Sum(xs: seq<nat>): nat {
    if xs == [] then 0 else Sum(xs[..|xs| - 1]) + xs[|xs| - 1]
  }

  lemma {:induction false} SumWrite(xs: seq<nat>, i: nat, x: nat)
    requires i < |xs|
    ensures Sum(xs[i := x]) == Sum(xs) - xs[i] + x
  {
    var last := |xs| - 1;
    if i == last {
      assert xs[i := x][..last] == xs[..last];
    } else {
      SumWrite(xs[..last], i, x);
      assert xs[i := x][..last] == xs[..last][i := x];
    }
  }

  lemma {:induction false} SumBounded(xs: seq<nat>, b: nat)
    requires forall i :: 0 <= i < |xs| ==> xs[i] <= b
    ensures Sum(xs) <= |xs| * b
  {
    if xs != [] {
      var last := |xs| - 1;
      SumBounded(xs[..last], b);
      assert |xs| * b == last * b + b;
    }
  }
}
