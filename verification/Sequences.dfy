/** Facts about sequences that the list-splicing code needs. */
module Sequences {

  function Map<A, B>(f: A -> B, s: seq<A>): (r: seq<B>)
    ensures |r| == |s| && forall i :: 0 <= i < |s| ==> r[i] == f(s[i])
  {
    seq(|s|, i requires 0 <= i < |s| => f(s[i]))
  }

  /** The sequence without the first occurrence of x: what splicing one node out of a list leaves. */
  function Without<T(==)>(s: seq<T>, x: T): seq<T> {
    if s == [] then []
    else if s[0] == x then s[1..]
    else [s[0]] + Without(s[1..], x)
  }

  /** It takes out one x, if there is one, and nothing else. */
  lemma {:induction false} WithoutOne<T>(s: seq<T>, x: T)
    ensures x in s ==> multiset(Without(s, x)) + multiset{x} == multiset(s) && |Without(s, x)| == |s| - 1
    ensures x !in s ==> Without(s, x) == s
  {
    if s != [] {
      assert s == [s[0]] + s[1..];
      WithoutOne(s[1..], x);
    }
  }

  lemma WithoutKeeps<T>(s: seq<T>, x: T)
    ensures forall y :: y in s && y != x ==> y in Without(s, x)
  {
    WithoutOne(s, x);
    if x in s {
      forall y | y in s && y != x ensures y in Without(s, x) {
        assert y in multiset(Without(s, x)) + multiset{x};
      }
    }
  }

  lemma WithoutIsPart<T(!new)>(s: seq<T>, x: T)
    requires x in s
    ensures forall y :: y in Without(s, x) ==> y in s
  {
    WithoutOne(s, x);
    forall y | y in Without(s, x) ensures y in s {
      assert y in multiset(Without(s, x)) + multiset{x};
      assert y in multiset(s);
    }
  }

  lemma InsertMembers<T(!new)>(s: seq<T>, k: nat, x: T)
    requires k <= |s|
    ensures forall y :: y in s[..k] + [x] + s[k..] <==> y in s || y == x
  {
    assert s == s[..k] + s[k..];
    forall y ensures y in s[..k] + [x] + s[k..] <==> y in s || y == x {
      assert y in s <==> y in s[..k] || y in s[k..];
    }
  }

  lemma SplitMultiset<T>(s: seq<T>, k: nat)
    requires k <= |s|
    ensures multiset(s[..k]) + multiset(s[k..]) == multiset(s)
  {
    assert s == s[..k] + s[k..];
  }

  lemma TwiceInMultiset<T>(s: seq<T>, i: nat, j: nat)
    requires i < j < |s| && s[i] == s[j]
    ensures multiset(s)[s[i]] >= 2
  {
    assert s == s[..j] + [s[j]] + s[j + 1..];
    assert s[..j][i] in multiset(s[..j]);
  }

  /** Splicing a node out leaves what was before it and what was behind it. */
  lemma {:induction false} WithoutSplits<T>(s: seq<T>, x: T) returns (k: nat)
    requires x in s
    ensures k < |s| && s[k] == x && x !in s[..k]
    ensures Without(s, x) == s[..k] + s[k + 1..]
  {
    if s[0] == x {
      k := 0;
    } else {
      assert s == [s[0]] + s[1..];
      var j := WithoutSplits(s[1..], x);
      k := j + 1;
      assert s[..k] == [s[0]] + s[1..][..j] && s[k + 1..] == s[1..][j + 1..];
    }
  }

  ghost predicate Distinct<T(!new)>(s: seq<T>) {
    forall i, j :: 0 <= i < j < |s| ==> s[i] != s[j]
  }

  /** The sequence without its element at k. */
  function Cut<T>(s: seq<T>, k: nat): (r: seq<T>)
    requires k < |s|
    ensures |r| == |s| - 1
    ensures forall j :: 0 <= j < k ==> r[j] == s[j]
    ensures forall j :: k <= j < |r| ==> r[j] == s[j + 1]
  {
    s[..k] + s[k + 1..]
  }

  lemma CutMembers<T(!new)>(s: seq<T>, k: nat)
    requires Distinct(s) && k < |s|
    ensures Distinct(Cut(s, k))
    ensures forall x :: x in Cut(s, k) <==> x in s && x != s[k]
  {
    assert s == s[..k] + [s[k]] + s[k + 1..];
    assert forall x :: x in s <==> x in s[..k] || x == s[k] || x in s[k + 1..];
  }

  lemma WithoutIsCut<T(!new)>(s: seq<T>, k: nat)
    requires Distinct(s) && k < |s|
    ensures Without(s, s[k]) == Cut(s, k)
  {
    var i := WithoutSplits(s, s[k]);
    assert i == k;
  }

  // ---------- counting ----------

  function One<T(==)>(y: T, x: T): nat {
    if y == x then 1 else 0
  }

  /** How often x occurs in s. */
  function Count<T(==)>(s: seq<T>, x: T): nat {
    if s == [] then 0 else One(s[0], x) + Count(s[1..], x)
  }

  lemma {:induction false} CountConcat<T>(a: seq<T>, b: seq<T>, x: T)
    ensures Count(a + b, x) == Count(a, x) + Count(b, x)
  {
    if a == [] {
      assert a + b == b;
    } else {
      CountConcat(a[1..], b, x);
      assert (a + b)[1..] == a[1..] + b;
    }
  }

  lemma CountAppend<T>(s: seq<T>, y: T, x: T)
    ensures Count(s + [y], x) == Count(s, x) + One(y, x)
  {
    CountConcat(s, [y], x);
  }

  lemma CountCut<T>(s: seq<T>, i: nat, x: T)
    requires i < |s|
    ensures Count(Cut(s, i), x) + One(s[i], x) == Count(s, x)
  {
    CountConcat(s[..i], s[i..], x);
    CountConcat(s[..i], s[i + 1..], x);
    assert s == s[..i] + s[i..];
    assert s[i..][1..] == s[i + 1..];
  }

  lemma CountReplace<T>(s: seq<T>, i: nat, y: T, x: T)
    requires i < |s|
    ensures Count(s[i := y], x) + One(s[i], x) == Count(s, x) + One(y, x)
  {
    CountCut(s, i, x);
    CountCut(s[i := y], i, x);
    assert Cut(s[i := y], i) == Cut(s, i);
  }

  lemma {:induction false} CountZero<T>(s: seq<T>, x: T)
    ensures Count(s, x) == 0 <==> x !in s
  {
    if s != [] {
      CountZero(s[1..], x);
      assert s == [s[0]] + s[1..];
    }
  }

  lemma CountTwo<T>(s: seq<T>, i: nat, j: nat)
    requires i < j < |s| && s[i] == s[j]
    ensures Count(s, s[i]) >= 2
  {
    CountCut(s, j, s[i]);
    CountCut(Cut(s, j), i, s[i]);
  }
}
