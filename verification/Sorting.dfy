/** What the sources rely on when they sort a slice: the result is an ordered
    permutation. Ties may come out in any order, so nothing more is promised. */
module Sorting {

  ghost predicate TotalPreorder<T(!new)>(le: (T, T) -> bool)
  {
    && (forall a, b :: le(a, b) || le(b, a))
    && (forall a, b, c :: le(a, b) && le(b, c) ==> le(a, c))
  }

  ghost predicate SortedBy<T>(le: (T, T) -> bool, s: seq<T>)
  {
    forall i, j :: 0 <= i < j < |s| ==> le(s[i], s[j])
  }

  ghost predicate Distinct<T>(s: seq<T>)
  {
    forall i, j :: 0 <= i < j < |s| ==> s[i] != s[j]
  }

  /** Elements that the order does not tell apart are equal. */
  ghost predicate Decides<T>(le: (T, T) -> bool, s: seq<T>)
  {
    forall i, j :: 0 <= i < j < |s| && le(s[i], s[j]) && le(s[j], s[i]) ==> s[i] == s[j]
  }

  /** Rising positions below n. */
  ghost predicate Rising(n: nat, at: seq<nat>)
  {
    && (forall i, j :: 0 <= i < j < |at| ==> at[i] < at[j])
    && (forall i :: 0 <= i < |at| ==> at[i] < n)
  }

  predicate Chosen(at: seq<nat>, j: nat)
  {
    j in at
  }

  method SortFunc<T(!new)>(s: seq<T>, le: (T, T) -> bool) returns (r: seq<T>)
    requires TotalPreorder(le)
    ensures SortedBy(le, r) && multiset(r) == multiset(s)
  {
    r := [];
    for n := 0 to |s|
      invariant SortedBy(le, r) && multiset(r) == multiset(s[..n])
    {
      r := InsertSorted(r, s[n], le);
      assert s[..n + 1] == s[..n] + [s[n]];
    }
    assert s[..|s|] == s;
  }

  method InsertSorted<T(!new)>(s: seq<T>, x: T, le: (T, T) -> bool) returns (r: seq<T>)
    requires TotalPreorder(le) && SortedBy(le, s)
    ensures SortedBy(le, r) && multiset(r) == multiset(s) + multiset{x}
  {
    var k: nat := |s|;
    while k > 0 && !le(s[k - 1], x)
      invariant k <= |s|
      invariant k < |s| ==> le(x, s[k])
    {
      k := k - 1;
    }
    assert s == s[..k] + s[k..];
    InsertionSorted(s, x, le, k);
    r := s[..k] + [x] + s[k..];
  }

  lemma InsertionSorted<T(!new)>(s: seq<T>, x: T, le: (T, T) -> bool, k: nat)
    requires TotalPreorder(le) && SortedBy(le, s) && k <= |s|
    requires (k > 0 ==> le(s[k - 1], x)) && (k < |s| ==> le(x, s[k]))
    ensures SortedBy(le, s[..k] + [x] + s[k..])
  {
    var r := s[..k] + [x] + s[k..];
    forall i, j | 0 <= i < j < |r|
      ensures le(r[i], r[j])
    {
      if i == k {
        assert r[j] == s[j - 1] && (j - 1 == k || le(s[k], s[j - 1]));
      } else if j == k {
        assert r[i] == s[i] && (i == k - 1 || le(s[i], s[k - 1]));
      } else {
        assert r[i] == s[if i < k then i else i - 1] && r[j] == s[if j < k then j else j - 1];
      }
    }
  }

  lemma {:induction false} InsertionPlace<T(!new)>(s: seq<T>, x: T, le: (T, T) -> bool) returns (k: nat)
    requires TotalPreorder(le)
    ensures k <= |s| && (k > 0 ==> le(s[k - 1], x)) && (k < |s| ==> le(x, s[k]))
  {
    k := |s|;
    if s != [] && !le(s[|s| - 1], x) {
      k := InsertionPlace(s[..|s| - 1], x, le);
    }
  }

  lemma InsertionExists<T(!new)>(s: seq<T>, x: T, le: (T, T) -> bool) returns (r: seq<T>)
    requires TotalPreorder(le) && SortedBy(le, s)
    ensures SortedBy(le, r) && multiset(r) == multiset(s) + multiset{x}
  {
    var k := InsertionPlace(s, x, le);
    assert s == s[..k] + s[k..];
    InsertionSorted(s, x, le, k);
    r := s[..k] + [x] + s[k..];
  }

  /** Every list has an ordered permutation. */
  lemma {:induction false} SortedExists<T(!new)>(s: seq<T>, le: (T, T) -> bool) returns (r: seq<T>)
    requires TotalPreorder(le)
    ensures SortedBy(le, r) && multiset(r) == multiset(s)
  {
    r := [];
    if s != [] {
      var n := |s| - 1;
      var init := SortedExists(s[..n], le);
      assert s == s[..n] + [s[n]];
      r := InsertionExists(init, s[n], le);
    }
  }

  /** Two ordered permutations of each other are equal. */
  lemma {:induction false} SortedPermutationUnique<T(!new)>(a: seq<T>, b: seq<T>, le: (T, T) -> bool)
    requires SortedBy(le, a) && SortedBy(le, b) && multiset(a) == multiset(b)
    requires Decides(le, a)
    ensures a == b
  {
    SameLength(a, b);
    if a != [] {
      var n := |a| - 1;
      SameLast(a, b, le);
      DropLast(a);
      DropLast(b);
      InitSorted(a, le);
      assert SortedBy(le, b[..n]);
      SortedPermutationUnique(a[..n], b[..n], le);
      SameSnoc(a, b);
    }
  }

  lemma SameSnoc<T>(a: seq<T>, b: seq<T>)
    requires |a| == |b| > 0 && a[..|a| - 1] == b[..|b| - 1] && a[|a| - 1] == b[|b| - 1]
    ensures a == b
  {
    assert a == a[..|a| - 1] + [a[|a| - 1]] && b == b[..|b| - 1] + [b[|b| - 1]];
  }

  lemma InitSorted<T>(s: seq<T>, le: (T, T) -> bool)
    requires SortedBy(le, s) && Decides(le, s) && s != []
    ensures SortedBy(le, s[..|s| - 1]) && Decides(le, s[..|s| - 1])
  {
    var t := s[..|s| - 1];
    forall i, j | 0 <= i < j < |t| && le(t[i], t[j]) && le(t[j], t[i])
      ensures t[i] == t[j]
    {
      assert t[i] == s[i] && t[j] == s[j];
    }
  }

  lemma DropLast<T>(s: seq<T>)
    requires s != []
    ensures multiset(s[..|s| - 1]) == multiset(s) - multiset{s[|s| - 1]}
  {
    assert s == s[..|s| - 1] + [s[|s| - 1]];
  }

  lemma SameLast<T(!new)>(a: seq<T>, b: seq<T>, le: (T, T) -> bool)
    requires SortedBy(le, a) && SortedBy(le, b) && multiset(a) == multiset(b) && Decides(le, a)
    requires |a| == |b| > 0
    ensures a[|a| - 1] == b[|b| - 1]
  {
    var n := |a| - 1;
    PermutationElements(a, b);
    assert a[n] in a && b[n] in b;
    var i :| 0 <= i < |b| && b[i] == a[n];
    var j :| 0 <= j < |a| && a[j] == b[n];
    if i != n && j != n {
      assert le(b[i], b[n]) && le(a[j], a[n]);
    }
  }

  lemma SameLength<T>(a: seq<T>, b: seq<T>)
    requires multiset(a) == multiset(b)
    ensures |a| == |b|
  {
    assert |multiset(a)| == |multiset(b)|;
  }

  /** Lists without repetition and with the same elements are permutations. */
  lemma {:induction false} DistinctPermutation<T>(a: seq<T>, b: seq<T>)
    requires Distinct(a) && Distinct(b) && forall x :: x in a <==> x in b
    ensures multiset(a) == multiset(b)
  {
    forall x
      ensures multiset(a)[x] == multiset(b)[x]
    {
      DistinctCount(a, x);
      DistinctCount(b, x);
    }
  }

  lemma {:induction false} DistinctCount<T>(s: seq<T>, x: T)
    requires Distinct(s)
    ensures multiset(s)[x] == if x in s then 1 else 0
  {
    if s != [] {
      var n := |s| - 1;
      DistinctCount(s[..n], x);
      assert s == s[..n] + [s[n]];
    }
  }

  /** A permutation of a list without repetition has none either. */
  lemma {:induction false} PermutationKeepsDistinct<T>(a: seq<T>, b: seq<T>)
    requires Distinct(a) && multiset(a) == multiset(b)
    ensures Distinct(b)
  {
    forall i, j | 0 <= i < j < |b|
      ensures b[i] != b[j]
    {
      DistinctCount(a, b[j]);
      if b[i] == b[j] {
        TwiceCounts(b, i, j);
      }
    }
  }

  lemma TwiceCounts<T>(s: seq<T>, i: nat, j: nat)
    requires i < j < |s| && s[i] == s[j]
    ensures multiset(s)[s[j]] >= 2
  {
    assert s == s[..j] + [s[j]] + s[j + 1..];
    assert s[..j][i] == s[j];
    assert multiset(s) == multiset(s[..j]) + multiset{s[j]} + multiset(s[j + 1..]);
  }

  lemma PermutationElements<T>(a: seq<T>, b: seq<T>)
    requires multiset(a) == multiset(b)
    ensures forall x :: x in a <==> x in b
  {
    forall x
      ensures x in a <==> x in b
    {
      assert x in a <==> x in multiset(a);
      assert x in b <==> x in multiset(b);
    }
  }
}
