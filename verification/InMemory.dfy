/** Series in memory, and when CreateBlock (pkg/tsdb/builder.go) can make a block of them. */
module InMemory {
  import opened Bytes
  import opened Orders
  import opened Labels
  import opened Chunks
  import opened SeriesOrder

  datatype InMemorySeries = InMemorySeries(metric: LabelSet, samples: Stream)

  function MemorySymbols(series: seq<InMemorySeries>): set<Str> {
    if series == [] then {[]} else MemorySymbols(series[..|series| - 1]) + Strings(series[|series| - 1].metric)
  }

  function LoadedSeries(s: InMemorySeries): Series {
    Series(s.metric, ChunksOf(KeptSamples(s.samples.items, 0, 0)))
  }

  function LoadedSeriesOf(series: seq<InMemorySeries>): (r: seq<Series>)
    ensures |r| == |series|
  {
    seq(|series|, i requires 0 <= i < |series| => LoadedSeries(series[i]))
  }

  ghost predicate GoodSamples(stream: Stream) {
    FaultFree(stream.items, |stream.items|, 0, 0) && !stream.err
  }

  /** The label set sorts after the one before, the first one after the empty one; the samples can be cut. */
  ghost predicate InPlace(series: seq<InMemorySeries>, k: nat)
    requires k < |series|
  {
    Before(if k == 0 then [] else series[k - 1].metric, series[k].metric) && GoodSamples(series[k].samples)
  }

  ghost predicate Creatable(series: seq<InMemorySeries>) {
    forall k :: 0 <= k < |series| ==> InPlace(series, k)
  }

  lemma CreatablePrefix(series: seq<InMemorySeries>, n: nat)
    requires n < |series|
    ensures Creatable(series[..n + 1]) <==> Creatable(series[..n]) && InPlace(series, n)
  {
    var shorter, longer := series[..n], series[..n + 1];
    assert InPlace(longer, n) == InPlace(series, n);
    if Creatable(longer) {
      forall k | 0 <= k < n ensures InPlace(shorter, k) {
        assert InPlace(longer, k);
      }
    }
    if Creatable(shorter) && InPlace(series, n) {
      forall k | 0 <= k < n + 1 ensures InPlace(longer, k) {
        assert k < n ==> InPlace(shorter, k);
      }
    }
  }

  lemma LoadedSeriesAppend(series: seq<InMemorySeries>, k: nat)
    requires k < |series|
    ensures LoadedSeriesOf(series[..k + 1]) == LoadedSeriesOf(series[..k]) + [LoadedSeries(series[k])]
  {
  }

  lemma {:induction false} SymbolsOf(series: seq<InMemorySeries>, k: nat)
    requires k < |series|
    ensures Strings(series[k].metric) <= MemorySymbols(series)
  {
    if k < |series| - 1 {
      SymbolsOf(series[..|series| - 1], k);
    }
  }

  lemma {:induction false} CreatedInOrder(series: seq<InMemorySeries>)
    requires Creatable(series)
    ensures StrictlySorted(SeriesBefore, LoadedSeriesOf(series))
  {
    if series != [] {
      var n := |series| - 1;
      var loaded := LoadedSeriesOf(series[..n]);
      assert series[..n + 1] == series;
      CreatablePrefix(series, n);
      CreatedInOrder(series[..n]);
      LoadedSeriesAppend(series, n);
      if n > 0 {
        forall x | x in loaded ensures SeriesBefore(x, LoadedSeries(series[n])) {
          LastIsGreatest(loaded, x);
          if x != loaded[n - 1] {
            BeforeTransitive(x.metric, series[n - 1].metric, series[n].metric);
          }
        }
      }
      StrictlySortedAppend(SeriesBefore, loaded, LoadedSeries(series[n]));
    }
  }
}
