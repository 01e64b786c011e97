/** External sort of label strings, dropping duplicates (pkg/tsdb/symbols_batch.go). */
module SymbolsBatch {
  import opened Wrappers
  import opened Bytes
  import opened Orders
  import opened RunMerge

  ghost function Symbols(files: seq<seq<Str>>): set<Str> {
    set s | s in Items(files)
  }

  /** Buffers symbols and spills them, sorted, to a new file whenever `limit` of them are held. */
  class SymbolsBatcher {
    const limit: int
    var files: seq<seq<Str>>
    var buffer: set<Str>

    ghost predicate Valid()
      reads this
    {
      && AllSorted(Less, files)
      && (|buffer| < limit || buffer == {})
    }

    /** Every symbol added so far. */
    ghost function Added(): set<Str>
      reads this
    {
      buffer + Symbols(files)
    }

    constructor (limit: int)
      ensures Valid() && Added() == {} && this.limit == limit
    {
      this.limit, files, buffer := limit, [], {};
    }

    method AddSymbol(sym: Str)
      requires Valid()
      modifies this
      ensures Valid()
      ensures Added() == old(Added()) + {sym}
    {
      buffer := buffer + {sym};
      FlushSymbols(false);
    }

    method FlushSymbols(force: bool)
      requires AllSorted(Less, files)
      modifies this
      ensures Valid()
      ensures Added() == old(Added())
      ensures force ==> buffer == {}
      ensures !force && |old(buffer)| < limit ==> buffer == old(buffer) && files == old(files)
    {
      if !force && |buffer| < limit {
        return;
      }
      if |buffer| == 0 {
        return;
      }
      LessOrdersStrings();
      var sortedSymbols := Collect(buffer);
      sortedSymbols := Sort(Less, sortedSymbols);
      assert forall s :: s in multiset(sortedSymbols) <==> s in buffer;
      AppendedRun(Less, files, sortedSymbols);
      files := files + [sortedSymbols];
      buffer := {};
    }
  }

  /** Ranging over a Go map: its keys, each once, in no particular order. */
  method Collect<T>(s: set<T>) returns (r: seq<T>)
    ensures multiset(r) == multiset(s)
  {
    r := [];
    var rest := s;
    while rest != {}
      invariant rest <= s
      invariant multiset(r) + multiset(rest) == multiset(s)
      decreases rest
    {
      var x :| x in rest;
      rest := rest - {x};
      r := r + [x];
    }
  }

  /** What is among `items` and has not been returned yet. */
  ghost function Unreturned<T>(items: multiset<T>, last: Option<T>): set<T> {
    set s | s in items && last != Some(s)
  }

  /** `r` is the least element of `before`, and `after` is the rest; None when nothing was left. */
  ghost predicate TakesLeast<T>(less: (T, T) -> bool, before: set<T>, r: Option<T>, after: set<T>) {
    if r.None? then before == {} && after == {}
    else
      && r.value in before
      && (forall s :: s in before && s != r.value ==> less(r.value, s))
      && after == before - {r.value}
  }

  lemma LeastItemTaken<T(!new)>(less: (T, T) -> bool, items: multiset<T>, last: Option<T>, x: T, rest: multiset<T>)
    requires StrictWeakOrder(less) && NoTies(less)
    requires Takes(less, items, Some(x), rest)
    requires last.Some? ==> NoneBelow(less, items, last.value)
    ensures last == Some(x) ==> Unreturned(rest, last) == Unreturned(items, last)
    ensures last != Some(x) ==> TakesLeast(less, Unreturned(items, last), Some(x), Unreturned(rest, Some(x)))
    ensures NoneBelow(less, rest, x)
    ensures |rest| < |items|
  {
    assert last.Some? ==> Comparable(less, last.value, x);
    assert forall s :: s in rest ==> s in items;
    assert forall s :: s in items && s != x ==> s in rest;
    forall s | s in items && s != x ensures less(x, s) {
      assert Comparable(less, s, x);
    }
  }

  lemma NothingUnreturned<T>(last: Option<T>)
    ensures Unreturned(multiset{}, last) == {}
  {
  }

  lemma LeastSymbolTaken(items: multiset<Str>, last: Option<Str>, x: Str, rest: multiset<Str>)
    requires Takes(Less, items, Some(x), rest)
    requires last.Some? ==> NoneBelow(Less, items, last.value)
    ensures last == Some(x) ==> Unreturned(rest, last) == Unreturned(items, last)
    ensures last != Some(x) ==> TakesLeast(Less, Unreturned(items, last), Some(x), Unreturned(rest, Some(x)))
    ensures NoneBelow(Less, rest, x) && |rest| < |items|
  {
    LessOrdersStrings();
    LeastItemTaken(Less, items, last, x, rest);
  }

  class SymbolsIterator {
    const merge: RunHeap<Str>
    var lastReturned: Option<Str>

    ghost predicate Valid()
      reads this, merge, merge.heap
    {
      && merge.Valid() && merge.less == Less
      && (lastReturned.Some? ==> NoneBelow(Less, merge.items, lastReturned.value))
    }

    /** The symbols still to come. */
    ghost function Remaining(): set<Str>
      reads this, merge
    {
      Unreturned(merge.items, lastReturned)
    }

    constructor (files: seq<seq<Str>>)
      requires AllSorted(Less, files)
      ensures Valid() && fresh(merge) && fresh(merge.Readers())
      ensures Remaining() == Symbols(files)
    {
      LessOrdersStrings();
      merge := new RunHeap(Less, [], files);
      lastReturned := None;
    }

    /** The least symbol still to come, or None (io.EOF) if there is none left. */
    method NextSymbol() returns (r: Option<Str>)
      requires Valid()
      modifies this, merge, merge.Readers()
      ensures Valid() && merge.Readers() <= old(merge.Readers())
      ensures TakesLeast(Less, old(Remaining()), r, Remaining())
    {
      hide Items, AllSorted, HeapWithin, Unreturned, NoneBelow;
      while |merge.heap| > 0
        invariant Valid() && merge.Readers() <= old(merge.Readers())
        invariant Remaining() == old(Remaining())
        decreases |merge.items|, |merge.heap|
      {
        ghost var items := merge.items;
        var result := merge.Advance();
        if result.None? {
          continue;
        }
        LeastSymbolTaken(items, lastReturned, result.value, merge.items);
        if lastReturned == result {
          continue;
        }
        lastReturned := result;
        return result;
      }
      merge.NoReaders();
      NothingUnreturned(lastReturned);
      r := None;
    }
  }
}
