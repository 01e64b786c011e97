/** Sorting by a comparison function: what it means, and that its outcome is unique. */
module Orders {

  ghost predicate Asymmetric<T>(less: (T, T) -> bool, x: T, y: T) {
    less(x, y) ==> !less(y, x)
  }

  ghost predicate Transitive<T>(less: (T, T) -> bool, x: T, y: T, z: T) {
    !less(y, x) && !less(z, y) ==> !less(z, x)
  }

  /** `less` orders `T` up to ties: "not above" is a total preorder. */
  ghost predicate StrictWeakOrder<T(!new)>(less: (T, T) -> bool) {
    && (forall x, y :: Asymmetric(less, x, y))
    && (forall x, y, z :: Transitive(less, x, y, z))
  }

  ghost predicate Comparable<T>(less: (T, T) -> bool, x: T, y: T) {
    x == y || less(x, y) || less(y, x)
  }

  /** No two distinct values tie. */
  ghost predicate NoTies<T(!new)>(less: (T, T) -> bool) {
    forall x, y :: Comparable(less, x, y)
  }

  ghost predicate InOrder<T>(less: (T, T) -> bool, s: seq<T>, i: nat, j: nat)
    requires i < |s| && j < |s|
  {
    !less(s[j], s[i])
  }

  ghost predicate InStrictOrder<T>(less: (T, T) -> bool, s: seq<T>, i: nat, j: nat)
    requires i < |s| && j < |s|
  {
    less(s[i], s[j])
  }

  ghost predicate Sorted<T>(less: (T, T) -> bool, s: seq<T>) {
    forall i, j :: 0 <= i < j < |s| ==> InOrder(less, s, i, j)
  }

  ghost predicate StrictlySorted<T>(less: (T, T) -> bool, s: seq<T>) {
    forall i, j :: 0 <= i < j < |s| ==> InStrictOrder(less, s, i, j)
  }

  ghost predicate NoneBelow<T>(less: (T, T) -> bool, items: multiset<T>, x: T) {
    forall s :: s in items ==> !less(s, x)
  }

  lemma TwiceInMultiset<T>(s: seq<T>, i: nat, j: nat)
    requires i < j < |s| && s[i] == s[j]
    ensures multiset(s)[s[i]] >= 2
  {
    assert s == s[..i] + [s[i]] + s[i + 1..j] + [s[j]] + s[j + 1..];
  }

  lemma SingleOccurrence<T>(out: seq<T>, s: T)
    requires s in out && forall i, j :: 0 <= i < j < |out| ==> out[i] != out[j]
    ensures multiset(out)[s] == 1
  {
    var i :| 0 <= i < |out| && out[i] == s;
    assert out == out[..i] + [s] + out[i + 1..];
    assert s !in out[..i] && s !in out[i + 1..];
  }

  lemma SameElements<T>(a: seq<T>, b: seq<T>)
    requires multiset(a) == multiset(b)
    ensures forall x :: x in a <==> x in b
  {
    forall x ensures x in a <==> x in b {
      assert x in a <==> x in multiset(a);
      assert x in b <==> x in multiset(b);
    }
  }

  lemma PermutationKeepsDistinct<T>(a: seq<T>, b: seq<T>)
    requires multiset(a) == multiset(b) && forall i, j :: 0 <= i < j < |b| ==> b[i] != b[j]
    ensures forall i, j :: 0 <= i < j < |a| ==> a[i] != a[j]
  {
    SameElements(a, b);
    forall i, j | 0 <= i < j < |a| ensures a[i] != a[j] {
      if a[i] == a[j] {
        TwiceInMultiset(a, i, j);
        SingleOccurrence(b, a[i]);
      }
    }
  }

  lemma RemovedOne<T>(s: seq<T>, i: nat)
    requires i < |s|
    ensures multiset(s[..i] + s[i + 1..]) == multiset(s) - multiset{s[i]}
  {
    assert s == s[..i] + [s[i]] + s[i + 1..];
  }

  /** Two arrangements of the same items: the last of one is somewhere in the other. */
  lemma MatchLast<T>(a: seq<T>, b: seq<T>) returns (i: nat)
    requires a != [] && multiset(a) == multiset(b)
    ensures i < |b| && b[i] == a[|a| - 1]
    ensures multiset(a[..|a| - 1]) == multiset(b[..i] + b[i + 1..])
  {
    var n := |a| - 1;
    assert a[n] in multiset(a);
    i :| 0 <= i < |b| && b[i] == a[n];
    RemovedOne(a, n);
    RemovedOne(b, i);
    assert a[..n] + a[n + 1..] == a[..n];
  }

  /** The contract of Go's sort.Slice: some sorted permutation; ties in any order. */
  method Sort<T(!new)>(less: (T, T) -> bool, s: seq<T>) returns (r: seq<T>)
    requires StrictWeakOrder(less)
    ensures Sorted(less, r)
    ensures multiset(r) == multiset(s)
  {
    r := [];
    for i := 0 to |s|
      invariant Sorted(less, r)
      invariant multiset(r) == multiset(s[..i])
    {
      r := InsertSorted(less, r, s[i]);
      assert s[..i + 1] == s[..i] + [s[i]];
    }
    assert s[..|s|] == s;
  }

  method InsertSorted<T(!new)>(less: (T, T) -> bool, s: seq<T>, x: T) returns (r: seq<T>)
    requires StrictWeakOrder(less) && Sorted(less, s)
    ensures Sorted(less, r)
    ensures multiset(r) == multiset(s) + multiset{x}
  {
    var k := |s|;
    while k > 0 && less(x, s[k - 1])
      invariant 0 <= k <= |s|
      invariant forall j :: k <= j < |s| ==> less(x, s[j])
    {
      k := k - 1;
    }
    r := s[..k] + [x] + s[k..];
    assert s == s[..k] + s[k..];
    InsertedIsSorted(less, s, x, k);
  }

  /** Whatever is to be sorted, there is a sorting of it. */
  lemma {:induction false} SortingExists<T(!new)>(less: (T, T) -> bool, s: seq<T>)
    requires StrictWeakOrder(less)
    ensures exists r :: Sorted(less, r) && multiset(r) == multiset(s)
  {
    if s == [] {
      assert Sorted(less, s);
    } else {
      var n := |s| - 1;
      SortingExists(less, s[..n]);
      var r :| Sorted(less, r) && multiset(r) == multiset(s[..n]);
      assert s == s[..n] + [s[n]];
      InsertionExists(less, r, s[n]);
    }
  }

  lemma InsertionExists<T(!new)>(less: (T, T) -> bool, s: seq<T>, x: T)
    requires StrictWeakOrder(less) && Sorted(less, s)
    ensures exists r :: Sorted(less, r) && multiset(r) == multiset(s) + multiset{x}
  {
    hide StrictWeakOrder;
    var k := |s|;
    while k > 0 && less(x, s[k - 1])
      invariant 0 <= k <= |s|
      invariant forall j :: k <= j < |s| ==> less(x, s[j])
    {
      k := k - 1;
    }
    InsertedIsSorted(less, s, x, k);
    assert s == s[..k] + s[k..];
    var r := s[..k] + [x] + s[k..];
    assert Sorted(less, r) && multiset(r) == multiset(s) + multiset{x};
  }

  lemma InsertedIsSorted<T(!new)>(less: (T, T) -> bool, s: seq<T>, x: T, k: nat)
    requires StrictWeakOrder(less) && Sorted(less, s) && k <= |s|
    requires k > 0 ==> !less(x, s[k - 1])
    requires forall j :: k <= j < |s| ==> less(x, s[j])
    ensures Sorted(less, s[..k] + [x] + s[k..])
  {
    var r := s[..k] + [x] + s[k..];
    forall i, j | 0 <= i < j < |r| ensures InOrder(less, r, i, j) {
      if j < k {
        assert InOrder(less, s, i, j);
      } else if j == k {
        assert i < k - 1 ==> InOrder(less, s, i, k - 1);
        assert Transitive(less, s[i], s[k - 1], x);
      } else if i < k {
        assert InOrder(less, s, i, j - 1);
      } else if i == k {
        assert Asymmetric(less, x, s[j - 1]);
      } else {
        assert InOrder(less, s, i - 1, j - 1);
      }
    }
  }

  lemma SortedTail<T>(less: (T, T) -> bool, s: seq<T>)
    requires |s| > 0 && Sorted(less, s)
    ensures Sorted(less, s[1..])
  {
    forall i, j | 0 <= i < j < |s[1..]| ensures InOrder(less, s[1..], i, j) {
      assert InOrder(less, s, i + 1, j + 1);
    }
  }

  lemma StrictlySortedTail<T>(less: (T, T) -> bool, s: seq<T>)
    requires |s| > 0 && StrictlySorted(less, s)
    ensures StrictlySorted(less, s[1..])
    ensures forall x :: x in s[1..] ==> less(s[0], x)
  {
    forall i, j | 0 <= i < j < |s[1..]| ensures InStrictOrder(less, s[1..], i, j) {
      assert InStrictOrder(less, s, i + 1, j + 1);
    }
    forall i | 1 <= i < |s| ensures less(s[0], s[i]) {
      assert InStrictOrder(less, s, 0, i);
    }
  }

  /** A strictly sorted sequence is determined by its set of elements. */
  lemma {:induction false} StrictlySortedUnique<T(!new)>(less: (T, T) -> bool, a: seq<T>, b: seq<T>)
    requires StrictWeakOrder(less) && StrictlySorted(less, a) && StrictlySorted(less, b)
    requires forall x :: x in a <==> x in b
    ensures a == b
  {
    assert a == [] <==> b == [] by {
      if a != [] {
        assert a[0] in b;
      }
      if b != [] {
        assert b[0] in a;
      }
    }
    if a != [] {
      StrictlySortedTail(less, a);
      StrictlySortedTail(less, b);
      assert a[0] in b && b[0] in a;
      assert a == [a[0]] + a[1..] && b == [b[0]] + b[1..];
      assert Asymmetric(less, a[0], b[0]);
      assert a[0] == b[0];
      forall x ensures x in a[1..] <==> x in b[1..] {
        assert Asymmetric(less, a[0], a[0]);
        assert x in a[1..] <==> x in a && x != a[0];
        assert x in b[1..] <==> x in b && x != b[0];
      }
      StrictlySortedUnique(less, a[1..], b[1..]);
    }
  }

  /** Extending a strictly sorted sequence by something above all of it. */
  lemma StrictlySortedAppend<T>(less: (T, T) -> bool, s: seq<T>, x: T)
    requires StrictlySorted(less, s)
    requires forall y :: y in s ==> less(y, x)
    ensures StrictlySorted(less, s + [x])
  {
    var r := s + [x];
    forall i, j | 0 <= i < j < |r| ensures InStrictOrder(less, r, i, j) {
      if j < |s| {
        assert InStrictOrder(less, s, i, j);
      }
    }
  }
}
