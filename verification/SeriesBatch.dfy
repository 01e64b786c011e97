/** External sort of series by labels; two series with the same labels are an error (pkg/tsdb/series_batch.go). */
module SeriesBatch {
  import opened Wrappers
  import opened Orders
  import opened Labels
  import opened SeriesOrder
  import opened RunMerge

  /** Buffers series and spills them, sorted by labels, to a new file whenever `limit` of them are held. */
  class SeriesBatcher {
    const limit: int
    var files: seq<seq<Series>>
    var buffer: seq<Series>

    ghost predicate Valid()
      reads this
    {
      && AllSorted(SeriesBefore, files)
      && (|buffer| < limit || buffer == [])
    }

    /** Every series added so far, with multiplicity. */
    ghost function Added(): multiset<Series>
      reads this
    {
      multiset(buffer) + Items(files)
    }

    constructor (limit: int)
      ensures Valid() && Added() == multiset{} && this.limit == limit
    {
      this.limit, files, buffer := limit, [], [];
    }

    method AddSeries(s: Series)
      requires Valid()
      modifies this
      ensures Valid()
      ensures Added() == old(Added()) + multiset{s}
    {
      buffer := buffer + [s];
      FlushSeries(false);
    }

    method FlushSeries(force: bool)
      requires AllSorted(SeriesBefore, files)
      modifies this
      ensures Valid()
      ensures Added() == old(Added())
      ensures force ==> buffer == []
      ensures !force && |old(buffer)| < limit ==> buffer == old(buffer) && files == old(files)
    {
      if !force && |buffer| < limit {
        return;
      }
      if |buffer| == 0 {
        return;
      }
      SeriesBeforeOrders();
      var sortedSeries := Sort(SeriesBefore, buffer);
      AppendedRun(SeriesBefore, files, sortedSeries);
      files := files + [sortedSeries];
      buffer := [];
    }
  }

  datatype Next = Got(series: Series) | EndOfFiles | Duplicate

  /** One answer of NextSeries, from the unread series and the labels returned last to what is then unread. */
  ghost predicate NextOutcome(before: multiset<Series>, last: LabelSet, r: Next, after: multiset<Series>) {
    match r
    case Got(s) => Takes(SeriesBefore, before, Some(s), after) && Before(last, s.metric)
    case EndOfFiles => before == multiset{} == after
    case Duplicate => exists s :: Takes(SeriesBefore, before, Some(s), after) && !Before(last, s.metric)
  }

  class SeriesIterator {
    const merge: RunHeap<Series>
    var lastReturnedLabels: LabelSet

    ghost predicate Valid()
      reads this, merge, merge.heap
    {
      merge.Valid() && merge.less == SeriesBefore
    }

    constructor (files: seq<seq<Series>>)
      requires AllSorted(SeriesBefore, files)
      ensures Valid() && fresh(merge) && fresh(merge.Readers())
      ensures merge.items == Items(files) && lastReturnedLabels == []
    {
      SeriesBeforeOrders();
      merge := new RunHeap(SeriesBefore, Series([], []), files);
      lastReturnedLabels := [];
    }

    method NextSeries() returns (r: Next)
      requires Valid()
      modifies this, merge, merge.Readers()
      ensures Valid() && merge.Readers() <= old(merge.Readers())
      ensures NextOutcome(old(merge.items), old(lastReturnedLabels), r, merge.items)
      ensures lastReturnedLabels == if r.Got? then r.series.metric else old(lastReturnedLabels)
    {
      hide Items, AllSorted, HeapWithin, NoneBelow;
      while |merge.heap| > 0
        invariant Valid() && merge.Readers() <= old(merge.Readers())
        invariant merge.items == old(merge.items) && lastReturnedLabels == old(lastReturnedLabels)
        decreases |merge.heap|
      {
        var result := merge.Advance();
        if result.None? {
          continue;
        }
        if Compare(lastReturnedLabels, result.value.metric) >= 0 {
          return Duplicate;
        }
        lastReturnedLabels := result.value.metric;
        return Got(result.value);
      }
      merge.NoReaders();
      r := EndOfFiles;
    }
  }

  /** `out` is what has been returned from `all` when `rest` is unread. */
  ghost predicate Drained(all: multiset<Series>, out: seq<Series>, last: LabelSet, rest: multiset<Series>) {
    && all == multiset(out) + rest
    && StrictlySorted(SeriesBefore, out)
    && last == (if out == [] then [] else out[|out| - 1].metric)
    && (forall s :: s in out ==> s.metric != [])
    && (forall s :: s in rest ==> !Before(s.metric, last))
  }

  lemma DrainedAtStart(all: multiset<Series>)
    ensures Drained(all, [], [], all)
  {
  }

  lemma DrainedStep(all: multiset<Series>, out: seq<Series>, last: LabelSet, rest: multiset<Series>,
                    s: Series, after: multiset<Series>)
    requires Drained(all, out, last, rest)
    requires NextOutcome(rest, last, Got(s), after)
    ensures Drained(all, out + [s], s.metric, after)
  {
    forall x | x in out ensures SeriesBefore(x, s) {
      LastIsGreatest(out, x);
      if x.metric != last {
        BeforeTransitive(x.metric, last, s.metric);
      }
    }
    StrictlySortedAppend(SeriesBefore, out, s);
    OnlyEmptyIsNotAboveEmpty(s.metric);
    assert s.metric == [] ==> !Before(last, s.metric);
  }

  /** Reading to the end returns every series once, and happens for distinct series only. */
  lemma DrainedCompletely(all: multiset<Series>, out: seq<Series>, last: LabelSet)
    requires Drained(all, out, last, multiset{})
    ensures Distinct(all) && multiset(out) == all
  {
    SeriesBeforeOrders();
    BeforeOrdersLabelSets();
    forall i, j | 0 <= i < j < |out| ensures out[i].metric != out[j].metric {
      assert InStrictOrder(SeriesBefore, out, i, j);
      assert Asymmetric(Before, out[i].metric, out[i].metric);
    }
    assert forall s :: s in all <==> s in out;
    forall s | s in all ensures all[s] == 1 {
      SingleOccurrence(out, s);
    }
  }

  /** The label set `d` is empty or names two series. */
  ghost predicate Offends(all: multiset<Series>, d: LabelSet) {
    exists s, t :: s in all && t in all && s.metric == d == t.metric && (d == [] || s != t || all[s] > 1)
  }

  /**
   * A duplicate error means the series were not distinct; by then every series whose labels
   * sort before the offending ones has been returned.
   */
  lemma DrainedToDuplicate(all: multiset<Series>, out: seq<Series>, last: LabelSet, rest: multiset<Series>,
                           after: multiset<Series>)
    requires Drained(all, out, last, rest)
    requires NextOutcome(rest, last, Duplicate, after)
    ensures !Distinct(all)
    ensures Offends(all, last)
    ensures forall x :: x in all && Before(x.metric, last) ==> x in out
  {
    BeforeOrdersLabelSets();
    var s :| Takes(SeriesBefore, rest, Some(s), after) && !Before(last, s.metric);
    assert Comparable(Before, s.metric, last);
    assert s.metric == last;
    if last != [] {
      var t := out[|out| - 1];
      assert t in multiset(out) && t.metric == last;
      if s == t {
        assert all[s] > 1;
      } else {
        assert t in all;
      }
    }
    forall x | x in all && Before(x.metric, last) ensures x in out {
      assert x in multiset(out) || x in rest;
    }
  }
}
