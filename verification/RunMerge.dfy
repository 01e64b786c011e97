/**
 * Merging sorted runs with a binary heap of readers whose heads are decoded only
 * when the heap looks at them. Both external sorts of the block builder
 * (symbols and series) are instances.
 */
module RunMerge {
  import opened Wrappers
  import opened Orders

  /** One run file being read, with a one-item look-ahead. */
  class RunReader<T> {
    ghost var rest: seq<T>     // the items not yet returned by Next
    var undecoded: seq<T>      // what the decoder has still to deliver
    var nextValid: bool        // if set, `next` holds the look-ahead
    var next: Option<T>        // None stands for io.EOF

    ghost predicate Valid()
      reads this
    {
      && rest == (if nextValid && next.Some? then [next.value] else []) + undecoded
      && (nextValid && next.None? ==> undecoded == [])
    }

    constructor (file: seq<T>)
      ensures Valid() && rest == file
    {
      undecoded, nextValid, next := file, false, None;
      rest := file;
    }

    method ReadNext() returns (r: Option<T>)
      modifies this`undecoded
      ensures r == Head(old(undecoded))
      ensures undecoded == Tail(old(undecoded))
    {
      if undecoded == [] {
        return None;
      }
      r := Some(undecoded[0]);
      undecoded := undecoded[1..];
    }

    /** Looks at the next item without consuming it. */
    method Peek() returns (r: Option<T>)
      requires Valid()
      modifies this`undecoded, this`nextValid, this`next
      ensures Valid()
      ensures r == Head(rest)
    {
      if nextValid {
        return next;
      }
      nextValid := true;
      next := ReadNext();
      r := next;
    }

    /** Consumes the next item; at the end of the file it reports EOF again and again. */
    method Next() returns (r: Option<T>)
      requires Valid()
      modifies this
      ensures Valid()
      ensures r == Head(old(rest))
      ensures rest == Tail(old(rest))
    {
      if nextValid {
        r := next;
        nextValid, next := false, None;
      } else {
        r := ReadNext();
      }
      rest := Tail(rest);
    }
  }

  function Head<T>(s: seq<T>): Option<T> {
    if s == [] then None else Some(s[0])
  }

  function Tail<T>(s: seq<T>): seq<T> {
    if s == [] then [] else s[1..]
  }

  /** All items of all runs. */
  ghost function Items<T>(runs: seq<seq<T>>): multiset<T> {
    if runs == [] then multiset{} else multiset(runs[0]) + Items(runs[1..])
  }

  lemma {:induction false} ItemsWithout<T>(runs: seq<seq<T>>, i: nat)
    requires i < |runs|
    ensures Items(runs) == multiset(runs[i]) + Items(runs[..i] + runs[i + 1..])
  {
    if i == 0 {
      assert runs[..0] + runs[1..] == runs[1..];
    } else {
      ItemsWithout(runs[1..], i - 1);
      var others := runs[..i] + runs[i + 1..];
      assert others[1..] == runs[1..][..i - 1] + runs[1..][i..];
    }
  }

  /** The order of the runs does not matter. */
  lemma {:induction false} ItemsPermutation<T>(a: seq<seq<T>>, b: seq<seq<T>>)
    requires multiset(a) == multiset(b)
    ensures Items(a) == Items(b)
  {
    if a == [] {
      assert |b| == |multiset(b)| == 0;
    } else {
      assert a[0] in multiset(b);
      var i :| 0 <= i < |b| && b[i] == a[0];
      var others := b[..i] + b[i + 1..];
      assert b == b[..i] + [b[i]] + b[i + 1..];
      assert a == [a[0]] + a[1..];
      ItemsWithout(b, i);
      assert multiset(others) == multiset(b) - multiset{b[i]};
      assert multiset(a[1..]) == multiset(a) - multiset{a[0]};
      ItemsPermutation(a[1..], others);
    }
  }

  /** The next item of every run, as the heap compares them. */
  function NextKeys<T>(runs: seq<seq<T>>, zero: T): (keys: seq<T>)
    ensures |keys| == |runs|
  {
    seq(|runs|, i requires 0 <= i < |runs| => if runs[i] == [] then zero else runs[i][0])
  }

  function Swapped<T>(s: seq<T>, i: nat, j: nat): (r: seq<T>)
    requires i < |s| && j < |s|
    ensures |r| == |s|
  {
    s[i := s[j]][j := s[i]]
  }

  ghost predicate AllSorted<T>(less: (T, T) -> bool, runs: seq<seq<T>>) {
    forall k :: 0 <= k < |runs| ==> Sorted(less, runs[k])
  }

  /** One step of a merge: nothing is taken, or a least item is. */
  ghost predicate Takes<T>(less: (T, T) -> bool, before: multiset<T>, r: Option<T>, after: multiset<T>) {
    if r.None? then after == before
    else r.value in before && NoneBelow(less, before, r.value) && after == before - multiset{r.value}
  }

  function Parent(j: nat): nat
    requires j > 0
  {
    (j - 1) / 2
  }

  /** Among the first `n` keys, none sorts before its parent, for parents from `lo` on. */
  ghost predicate HeapWithin<T>(less: (T, T) -> bool, keys: seq<T>, lo: nat, n: nat)
    requires n <= |keys|
  {
    forall j {:trigger Parent(j)} :: 1 <= j < n && Parent(j) >= lo ==> !less(keys[j], keys[Parent(j)])
  }

  /** As HeapWithin, except that `i` may sort after its children (but `i`'s parent does not). */
  ghost predicate HeapBut<T>(less: (T, T) -> bool, keys: seq<T>, lo: nat, n: nat, i: nat)
    requires n <= |keys|
  {
    && (forall j {:trigger Parent(j)} :: 1 <= j < n && lo <= Parent(j) != i ==> !less(keys[j], keys[Parent(j)]))
    && (i > 0 && Parent(i) >= lo ==>
      forall j {:trigger Parent(j)} :: 1 <= j < n && Parent(j) == i ==> !less(keys[j], keys[Parent(i)]))
  }

  /** `j` is the child of `i` that sinking compares with: the right one only if it sorts before the left. */
  ghost predicate IsLeastChild<T>(less: (T, T) -> bool, keys: seq<T>, n: nat, i: nat, j: nat)
    requires n <= |keys|
  {
    && 2 * i + 1 <= j < n
    && j <= 2 * i + 2
    && (j == 2 * i + 1 && j + 1 < n ==> !less(keys[j + 1], keys[j]))
    && (j == 2 * i + 2 ==> less(keys[j], keys[j - 1]))
  }

  lemma LeastChildIsLeast<T(!new)>(less: (T, T) -> bool, keys: seq<T>, n: nat, i: nat, j: nat, k: nat)
    requires StrictWeakOrder(less)
    requires n <= |keys| && IsLeastChild(less, keys, n, i, j)
    requires 1 <= k < n && Parent(k) == i
    ensures !less(keys[k], keys[j])
  {
    assert k == 2 * i + 1 || k == 2 * i + 2;
    assert Asymmetric(less, keys[k], keys[j]);
  }

  lemma SinkingStarts<T>(less: (T, T) -> bool, keys: seq<T>, lo: nat, n: nat)
    requires n <= |keys| && HeapWithin(less, keys, lo + 1, n)
    ensures HeapBut(less, keys, lo, n, lo)
  {
  }

  lemma RootSwappedAway<T>(less: (T, T) -> bool, keys: seq<T>, n: nat)
    requires |keys| == n + 1 && HeapWithin(less, keys, 1, n + 1)
    ensures n == 0 ==> HeapWithin(less, keys, 0, n)
    ensures HeapWithin(less, Swapped(keys, 0, n), 1, n)
  {
    var swapped := Swapped(keys, 0, n);
    forall j: nat | 1 <= j < n && Parent(j) >= 1 ensures !less(swapped[j], swapped[Parent(j)]) {
      assert !less(keys[j], keys[Parent(j)]);
    }
  }

  lemma LeavesAreHeaps<T>(less: (T, T) -> bool, keys: seq<T>)
    ensures HeapWithin(less, keys, |keys| / 2, |keys|)
  {
  }

  lemma SinkOneLevel<T(!new)>(less: (T, T) -> bool, keys: seq<T>, lo: nat, n: nat, i: nat, j: nat)
    requires StrictWeakOrder(less)
    requires lo <= i && n <= |keys|
    requires HeapBut(less, keys, lo, n, i)
    requires IsLeastChild(less, keys, n, i, j)
    requires less(keys[j], keys[i])
    ensures HeapBut(less, Swapped(keys, i, j), lo, n, j)
  {
    assert Parent(j) == i;
    var sunk := Swapped(keys, i, j);
    forall k | 1 <= k < n && lo <= Parent(k) != j ensures !less(sunk[k], sunk[Parent(k)]) {
      if k == i {
        assert !less(keys[j], keys[Parent(i)]);
      } else if k == j {
        assert Asymmetric(less, keys[j], keys[i]);
      } else if Parent(k) == i {
        LeastChildIsLeast(less, keys, n, i, j, k);
      } else {
        assert !less(keys[k], keys[Parent(k)]);
      }
    }
    forall k | 1 <= k < n && Parent(k) == j ensures !less(sunk[k], sunk[Parent(j)]) {
      assert !less(keys[k], keys[j]);
    }
  }

  /** Sinking may stop where no child sorts before its parent. */
  lemma SinkingDone<T(!new)>(less: (T, T) -> bool, keys: seq<T>, lo: nat, n: nat, i: nat)
    requires StrictWeakOrder(less)
    requires n <= |keys| && HeapBut(less, keys, lo, n, i)
    requires 2 * i + 1 >= n || exists j: nat :: IsLeastChild(less, keys, n, i, j) && !less(keys[j], keys[i])
    ensures HeapWithin(less, keys, lo, n)
  {
    forall k | 1 <= k < n && Parent(k) >= lo ensures !less(keys[k], keys[Parent(k)]) {
      if Parent(k) == i {
        assert 2 * i + 1 <= k;
        var j: nat :| IsLeastChild(less, keys, n, i, j) && !less(keys[j], keys[i]);
        LeastChildIsLeast(less, keys, n, i, j, k);
        assert Transitive(less, keys[i], keys[j], keys[k]);
      }
    }
  }

  /** The root of a heap holds a least key. */
  lemma {:induction false} RootIsLeast<T(!new)>(less: (T, T) -> bool, keys: seq<T>, i: nat)
    requires StrictWeakOrder(less) && i < |keys|
    requires HeapWithin(less, keys, 0, |keys|)
    ensures !less(keys[i], keys[0])
  {
    if i == 0 {
      assert Asymmetric(less, keys[0], keys[0]);
    } else {
      RootIsLeast(less, keys, Parent(i));
      assert Transitive(less, keys[0], keys[Parent(i)], keys[i]);
    }
  }

  lemma SwappedKeys<T>(runs: seq<seq<T>>, zero: T, i: nat, j: nat)
    requires i < |runs| && j < |runs|
    ensures NextKeys(Swapped(runs, i, j), zero) == Swapped(NextKeys(runs, zero), i, j)
  {
  }

  lemma {:induction false} ItemOfSomeRun<T>(runs: seq<seq<T>>, x: T) returns (k: nat)
    requires x in Items(runs)
    ensures k < |runs| && x in runs[k]
  {
    if x in runs[0] {
      k := 0;
    } else {
      k := ItemOfSomeRun(runs[1..], x);
      k := k + 1;
    }
  }

  lemma FirstOfRunIsLeast<T(!new)>(less: (T, T) -> bool, run: seq<T>, x: T)
    requires StrictWeakOrder(less) && Sorted(less, run) && x in run
    ensures !less(x, run[0])
  {
    var i :| 0 <= i < |run| && run[i] == x;
    assert i > 0 ==> InOrder(less, run, 0, i);
    assert Asymmetric(less, x, x);
  }

  lemma FirstOfRootIsLeast<T(!new)>(less: (T, T) -> bool, zero: T, runs: seq<seq<T>>, k: nat)
    requires StrictWeakOrder(less)
    requires HeapWithin(less, NextKeys(runs, zero), 0, |runs|)
    requires k < |runs| && runs[0] != [] && runs[k] != []
    ensures !less(runs[k][0], runs[0][0])
  {
    var keys := NextKeys(runs, zero);
    RootIsLeast(less, keys, k);
    assert keys[0] == runs[0][0] && keys[k] == runs[k][0];
  }

  /** With the heap in order and every run sorted, nothing is less than the root's next item. */
  lemma RootRunHasLeastItem<T(!new)>(less: (T, T) -> bool, zero: T, runs: seq<seq<T>>, x: T)
    requires StrictWeakOrder(less)
    requires HeapWithin(less, NextKeys(runs, zero), 0, |runs|)
    requires AllSorted(less, runs)
    requires |runs| > 0 && runs[0] != []
    requires x in Items(runs)
    ensures !less(x, runs[0][0])
  {
    var k := ItemOfSomeRun(runs, x);
    FirstOfRootIsLeast(less, zero, runs, k);
    FirstOfRunIsLeast(less, runs[k], x);
    assert Transitive(less, runs[0][0], runs[k][0], x);
  }

  lemma SwappedRuns<T>(less: (T, T) -> bool, runs: seq<seq<T>>, i: nat, j: nat)
    requires i < |runs| && j < |runs| && AllSorted(less, runs)
    ensures Items(Swapped(runs, i, j)) == Items(runs)
    ensures AllSorted(less, Swapped(runs, i, j))
  {
    hide Items, Sorted;
    var swapped := Swapped(runs, i, j);
    assert multiset(swapped) == multiset(runs);
    ItemsPermutation(swapped, runs);
  }

  lemma SwappedElements<T>(s: seq<T>, i: nat, j: nat)
    requires i < |s| && j < |s|
    ensures (set x | x in Swapped(s, i, j)) == (set x | x in s)
  {
    var r := Swapped(s, i, j);
    assert multiset(r) == multiset(s);
    assert forall x :: x in r <==> x in multiset(r);
    assert forall x :: x in s <==> x in multiset(s);
  }

  /** Whatever replaces the root's run, the heap below the root stays in order. */
  lemma HeapBelowRoot<T>(less: (T, T) -> bool, zero: T, runs: seq<seq<T>>, run: seq<T>)
    requires |runs| > 0 && HeapWithin(less, NextKeys(runs, zero), 0, |runs|)
    ensures HeapWithin(less, NextKeys(runs[0 := run], zero), 1, |runs|)
  {
  }

  lemma RootTaken<T(!new)>(less: (T, T) -> bool, zero: T, runs: seq<seq<T>>)
    requires StrictWeakOrder(less) && AllSorted(less, runs)
    requires |runs| > 0 && HeapWithin(less, NextKeys(runs, zero), 0, |runs|)
    ensures AllSorted(less, runs[0 := Tail(runs[0])])
    ensures Takes(less, Items(runs), Head(runs[0]), Items(runs[0 := Tail(runs[0])]))
  {
    var taken := runs[0 := Tail(runs[0])];
    if runs[0] == [] {
      assert taken == runs;
    } else {
      SortedTail(less, runs[0]);
      assert runs[0] == [runs[0][0]] + runs[0][1..];
      assert taken[1..] == runs[1..];
      forall x | x in Items(runs) ensures !less(x, runs[0][0]) {
        RootRunHasLeastItem(less, zero, runs, x);
      }
    }
  }

  lemma DroppedRun<T>(less: (T, T) -> bool, zero: T, runs: seq<seq<T>>)
    requires |runs| > 0 && runs[|runs| - 1] == [] && AllSorted(less, runs)
    requires HeapWithin(less, NextKeys(runs, zero), 0, |runs| - 1)
    ensures Items(runs[..|runs| - 1]) == Items(runs)
    ensures AllSorted(less, runs[..|runs| - 1])
    ensures HeapWithin(less, NextKeys(runs[..|runs| - 1], zero), 0, |runs| - 1)
  {
    var n := |runs| - 1;
    ItemsWithout(runs, n);
    assert runs[..n] + runs[n + 1..] == runs[..n];
  }

  lemma AppendedRun<T>(less: (T, T) -> bool, runs: seq<seq<T>>, run: seq<T>)
    ensures Items(runs + [run]) == Items(runs) + multiset(run)
    ensures AllSorted(less, runs) && Sorted(less, run) ==> AllSorted(less, runs + [run])
  {
    ItemsWithout(runs + [run], |runs|);
    assert (runs + [run])[..|runs|] + (runs + [run])[|runs| + 1..] == runs;
  }

  method OpenReaders<T>(files: seq<seq<T>>) returns (readers: seq<RunReader<T>>)
    ensures |readers| == |files|
    ensures forall i :: 0 <= i < |readers| ==> fresh(readers[i]) && readers[i].Valid() && readers[i].rest == files[i]
    ensures forall i, j :: 0 <= i < j < |readers| ==> readers[i] != readers[j]
  {
    readers := [];
    for k := 0 to |files|
      invariant |readers| == k
      invariant forall i :: 0 <= i < k ==> fresh(readers[i]) && readers[i].Valid() && readers[i].rest == files[i]
      invariant forall i, j :: 0 <= i < j < k ==> readers[i] != readers[j]
    {
      var reader := new RunReader(files[k]);
      readers := readers + [reader];
    }
  }

  /** A binary heap of readers, ordered by their next items; exhausted readers come first. */
  class RunHeap<T(!new)> {
    const less: (T, T) -> bool
    const zero: T                // the key an exhausted reader is given
    var heap: seq<RunReader<T>>
    ghost var runs: seq<seq<T>>  // what each reader has still to return
    ghost var items: multiset<T> // all of that

    /** Opens one reader per file and establishes the heap order (heap.Init). */
    constructor (less: (T, T) -> bool, zero: T, files: seq<seq<T>>)
      requires StrictWeakOrder(less) && AllSorted(less, files)
      ensures this.less == less && this.zero == zero
      ensures Valid() && fresh(Readers())
      ensures items == Items(files)
    {
      this.less, this.zero, heap, runs, items := less, zero, [], files, Items(files);
      new;
      hide Items, AllSorted, HeapWithin, HeapBut;
      heap := OpenReaders(files);
      Init();
    }

    ghost function Readers(): set<RunReader<T>>
      reads this`heap
    {
      set r | r in heap
    }

    ghost predicate Readable()
      reads this, heap
    {
      && |runs| == |heap|
      && (forall i :: 0 <= i < |heap| ==> heap[i].Valid() && heap[i].rest == runs[i])
      && (forall i, j :: 0 <= i < j < |heap| ==> heap[i] != heap[j])
    }

    /** Everything but the heap order. */
    ghost predicate Loaded()
      reads this, heap
    {
      Readable() && StrictWeakOrder(less) && AllSorted(less, runs) && items == Items(runs)
    }

    /** The state between two calls of the iterators. */
    ghost predicate Valid()
      reads this, heap
    {
      Loaded() && HeapWithin(less, Keys(), 0, |runs|)
    }

    lemma NoReaders()
      requires Valid() && heap == []
      ensures items == multiset{}
    {
    }

    ghost function Keys(): (keys: seq<T>)
      reads this`runs
    {
      NextKeys(runs, zero)
    }

    method Less(i: nat, j: nat) returns (r: bool)
      requires Readable() && i < |heap| && j < |heap|
      modifies Readers()`undecoded, Readers()`nextValid, Readers()`next
      ensures Readable()
      ensures r == less(Keys()[i], Keys()[j])
    {
      var a := heap[i].Peek();
      var b := heap[j].Peek();
      var x := if a.None? then zero else a.value;
      var y := if b.None? then zero else b.value;
      r := less(x, y);
    }

    method Swap(i: nat, j: nat)
      requires Loaded() && i < |heap| && j < |heap|
      modifies this`heap, this`runs
      ensures Loaded() && Readers() == old(Readers())
      ensures heap == Swapped(old(heap), i, j) && runs == Swapped(old(runs), i, j)
    {
      hide Items, AllSorted, HeapWithin, HeapBut;
      SwappedElements(heap, i, j);
      SwappedRuns(less, runs, i, j);
      heap := heap[i := heap[j]][j := heap[i]];
      runs := runs[i := runs[j]][j := runs[i]];
    }

    method LeastChild(i: nat, n: nat) returns (j: nat)
      requires Readable() && 2 * i + 1 < n <= |heap|
      modifies Readers()`undecoded, Readers()`nextValid, Readers()`next
      ensures Readable()
      ensures IsLeastChild(less, Keys(), n, i, j)
    {
      j := 2 * i + 1;
      if j + 1 < n {
        var rightFirst := Less(j + 1, j);
        if rightFirst {
          j := j + 1;
        }
      }
    }

    /** container/heap's down: sinks position `lo` among the first `n`. */
    method Down(lo: nat, n: nat) returns (moved: bool)
      requires Loaded() && lo < n <= |heap|
      requires HeapWithin(less, Keys(), lo + 1, n)
      modifies this`heap, this`runs, Readers()`undecoded, Readers()`nextValid, Readers()`next
      ensures Loaded() && |heap| == |old(heap)| && Readers() == old(Readers())
      ensures forall k :: n <= k < |heap| ==> runs[k] == old(runs)[k]
      ensures HeapWithin(less, Keys(), lo, n)
    {
      hide Items, AllSorted, HeapWithin, HeapBut, IsLeastChild, NextKeys, StrictWeakOrder;
      SinkingStarts(less, Keys(), lo, n);
      var i := lo;
      while true
        invariant lo <= i < n <= |heap| == |old(heap)|
        invariant Loaded() && Readers() == old(Readers())
        invariant forall k :: n <= k < |heap| ==> runs[k] == old(runs)[k]
        invariant HeapBut(less, Keys(), lo, n, i)
        decreases n - i
      {
        if 2 * i + 1 >= n {
          break;
        }
        var j := LeastChild(i, n);
        var childFirst := Less(j, i);
        if !childFirst {
          break;
        }
        SinkOneLevel(less, Keys(), lo, n, i, j);
        SwappedKeys(runs, zero, i, j);
        Swap(i, j);
        i := j;
      }
      SinkingDone(less, Keys(), lo, n, i);
      moved := i > lo;
    }

    method Init()
      requires Loaded()
      modifies this`heap, this`runs, Readers()`undecoded, Readers()`nextValid, Readers()`next
      ensures Valid() && Readers() == old(Readers())
    {
      hide Items, AllSorted, HeapWithin, HeapBut;
      LeavesAreHeaps(less, Keys());
      var n := |heap|;
      var i := n / 2;
      while i > 0
        invariant 0 <= i <= n == |heap|
        invariant Loaded() && Readers() == old(Readers())
        invariant HeapWithin(less, Keys(), i, n)
      {
        i := i - 1;
        var _ := Down(i, n);
      }
    }

    /** container/heap's Fix at the root; its up-sift returns at once there, as 0 is its own parent. */
    method FixRoot()
      requires Loaded() && |heap| > 0
      requires HeapWithin(less, Keys(), 1, |heap|)
      modifies this`heap, this`runs, Readers()`undecoded, Readers()`nextValid, Readers()`next
      ensures Valid() && |heap| == |old(heap)| && Readers() == old(Readers())
    {
      hide Items, AllSorted, HeapWithin, HeapBut;
      var _ := Down(0, |heap|);
    }

    /** container/heap's Remove at the root: swaps it with the last reader, sinks that one, pops. */
    method RemoveRoot()
      requires Loaded() && |heap| > 0 && runs[0] == []
      requires HeapWithin(less, Keys(), 1, |heap|)
      modifies this`heap, this`runs, Readers()`undecoded, Readers()`nextValid, Readers()`next
      ensures Valid() && |heap| == |old(heap)| - 1 && Readers() <= old(Readers())
    {
      hide Items, AllSorted, HeapWithin, HeapBut;
      var n := |heap| - 1;
      RootSwappedAway(less, Keys(), n);
      if n != 0 {
        SwappedKeys(runs, zero, 0, n);
        Swap(0, n);
        var _ := Down(0, n);
      }
      PopLast();
    }

    method PopLast()
      requires Loaded() && |heap| > 0 && runs[|heap| - 1] == []
      requires HeapWithin(less, Keys(), 0, |heap| - 1)
      modifies this`heap, this`runs
      ensures Valid() && |heap| == |old(heap)| - 1 && Readers() <= old(Readers())
    {
      hide Items, AllSorted, HeapWithin, HeapBut;
      var n := |heap| - 1;
      DroppedRun(less, zero, runs);
      heap, runs := heap[..n], runs[..n];
    }

    /**
     * One turn of the loop in NextSymbol and NextSeries: takes the root's next item and
     * restores the heap, or drops the root's reader if it is at the end of its file.
     */
    method Advance() returns (r: Option<T>)
      requires Valid() && |heap| > 0
      modifies this, Readers()
      ensures Valid() && Readers() <= old(Readers())
      ensures |heap| == |old(heap)| - (if r.None? then 1 else 0)
      ensures Takes(less, old(items), r, items)
    {
      hide Items, AllSorted, HeapWithin, HeapBut, NextKeys, StrictWeakOrder, Takes;
      HeapBelowRoot(less, zero, runs, Tail(runs[0]));
      RootTaken(less, zero, runs);
      r := heap[0].Next();
      runs := runs[0 := Tail(runs[0])];
      items := Items(runs);
      if r.None? {
        RemoveRoot();
      } else {
        FixRoot();
      }
    }
  }
}
