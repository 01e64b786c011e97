/** Building a block directly from sorted series in memory (CreateBlock in pkg/tsdb/builder.go). */
module CreateBlock {
  import opened Wrappers
  import opened Bytes
  import opened Orders
  import opened Labels
  import opened Chunks
  import opened SymbolsBatch
  import opened SeriesOrder
  import opened Blocks
  import opened Views
  import opened InMemory
  import opened IndexFill

  datatype CreateError = NotSorted | BadSamples(e: ChunkError) | NotIndexed

  /** The first series that is out of order or has faulty samples, and what it fails with. */
  ghost predicate FailsAt(series: seq<InMemorySeries>, k: nat, e: CreateError)
    requires k < |series|
  {
    && Creatable(series[..k])
    && if !Before(if k == 0 then [] else series[k - 1].metric, series[k].metric) then e == NotSorted
       else e.BadSamples? && IsOutcome(series[k].samples, 0, 0, Err(e.e))
  }

  method AddSortedInMemorySeriesSymbolsToIndex(w: IndexWriter, series: seq<InMemorySeries>) returns (ok: bool)
    requires w.symbols == []
    modifies w`symbols
    ensures ok && SymbolsWritten(MemorySymbols(series), w.symbols, {})
  {
    var symbolsMap: set<Str> := {[]};
    for k := 0 to |series|
      invariant symbolsMap == MemorySymbols(series[..k]) && w.symbols == []
    {
      assert series[..k + 1][..k] == series[..k];
      for i := 0 to |series[k].metric|
        invariant symbolsMap == MemorySymbols(series[..k]) + Strings(series[k].metric[..i]) && w.symbols == []
      {
        OneMoreLabel(series[k].metric, i);
        symbolsMap := symbolsMap + {series[k].metric[i].name};
        symbolsMap := symbolsMap + {series[k].metric[i].value};
      }
      assert series[k].metric[..|series[k].metric|] == series[k].metric;
    }
    assert series[..|series|] == series;
    ok := AddSortedSymbols(w, symbolsMap);
  }

  method AddSortedSymbols(w: IndexWriter, symbolsMap: set<Str>) returns (ok: bool)
    requires w.symbols == []
    modifies w`symbols
    ensures ok && SymbolsWritten(symbolsMap, w.symbols, {})
  {
    LessOrdersStrings();
    var symbols := Collect(symbolsMap);
    symbols := Sort(Less, symbols);
    SortedSet(symbols, symbolsMap);
    ok := true;
    for k := 0 to |symbols|
      invariant ok && w.symbols == symbols[..k]
    {
      assert k > 0 ==> InStrictOrder(Less, symbols, k - 1, k);
      ok := w.AddSymbol(symbols[k]);
      if !ok {
        return;
      }
    }
    assert symbols[..|symbols|] == symbols;
  }

  /** A set's elements, sorted, are strictly sorted. */
  lemma SortedSet(symbols: seq<Str>, all: set<Str>)
    requires Sorted(Less, symbols) && multiset(symbols) == multiset(all)
    ensures StrictlySorted(Less, symbols) && SymbolsWritten(all, symbols, {})
  {
    LessOrdersStrings();
    forall i, j | 0 <= i < j < |symbols| ensures InStrictOrder(Less, symbols, i, j) {
      assert InOrder(Less, symbols, i, j) && Comparable(Less, symbols[i], symbols[j]);
      assert multiset(all)[symbols[i]] <= 1;
      if symbols[i] == symbols[j] {
        TwiceInMultiset(symbols, i, j);
      }
    }
    assert forall s :: s in symbols <==> s in multiset(symbols);
    assert forall s :: s in all <==> s in multiset(all);
  }

  method AddSortedInMemorySeriesToIndex(w: IndexWriter, cw: ChunkWriter, series: seq<InMemorySeries>)
    returns (r: Result<Totals, CreateError>)
    requires w.entries == [] && cw.chunks == []
    requires forall s :: s in MemorySymbols(series) ==> s in w.symbols
    modifies w`entries, cw
    ensures r.Ok? <==> Creatable(series)
    ensures r.Err? ==> exists k :: 0 <= k < |series| && FailsAt(series, k, r.error)
    ensures r.Ok? ==> SeriesWritten(LoadedSeriesOf(series), w.entries, cw.chunks, r.value)
  {
    hide SeriesWritten, MemorySymbols, GoodSamples, LoadedSeriesOf, ChunksInOrder, CountChunks;
    hide Strings, Placed, Contents;
    var totals := NO_TOTALS;
    var prevLbls: LabelSet := [];
    NoSeriesWritten();
    assert LoadedSeriesOf(series[..0]) == [];
    for k := 0 to |series|
      invariant Creatable(series[..k])
      invariant prevLbls == if k == 0 then [] else series[k - 1].metric
      invariant SeriesWritten(LoadedSeriesOf(series[..k]), w.entries, cw.chunks, totals)
    {
      if Compare(prevLbls, series[k].metric) >= 0 {
        NotCreatable(series, k);
        assert FailsAt(series, k, NotSorted);
        return Err(NotSorted);
      }
      totals := totals.(stats := totals.stats.(numSeries := totals.stats.numSeries + 1));
      var chks := SamplesToChunks(series[k].samples, 0, 0);
      ChunksOfStream(series[k].samples, chks, |cw.chunks|);
      if chks.Err? {
        NotCreatable(series, k);
        assert FailsAt(series, k, CreateError.BadSamples(chks.error));
        return Err(CreateError.BadSamples(chks.error));
      }
      OneMoreInMemory(series, k, w.entries, cw.chunks, totals);
      SymbolsOf(series, k);
      var placed := cw.WriteChunks(chks.value);
      totals := CountAll(totals, chks.value);
      var ok := w.AddSeries(k + 1, series[k].metric, placed);
      if !ok {
        return Err(NotIndexed);
      }
      prevLbls := series[k].metric;
    }
    assert series[..|series|] == series;
    r := Ok(totals);
  }

  /** The counting loop over one series' chunks. */
  method CountAll(totals: Totals, metas: seq<Meta>) returns (t: Totals)
    ensures t == CountChunks(totals, metas)
  {
    t := totals;
    for ix := 0 to |metas|
      invariant t == CountChunks(totals, metas[..ix])
    {
      assert metas[..ix + 1][..ix] == metas[..ix];
      t := CountChunk(t, metas[ix]);
    }
    assert metas[..|metas|] == metas;
  }

  lemma NotCreatable(series: seq<InMemorySeries>, k: nat)
    requires k < |series|
    requires !Before(if k == 0 then [] else series[k - 1].metric, series[k].metric) || !GoodSamples(series[k].samples)
    ensures !Creatable(series)
  {
    assert !InPlace(series, k);
  }

  lemma ChunksOfStream(stream: Stream, r: Result<seq<Meta>, ChunkError>, base: nat)
    requires IsOutcome(stream, 0, 0, r)
    ensures r.Ok? <==> GoodSamples(stream)
    ensures r.Ok? ==> r.value == ChunksOf(KeptSamples(stream.items, 0, 0))
    ensures r.Ok? ==> HasChunks(r.value) && IsLoaded(Series([], r.value)) && ChunksInOrder(Placed(r.value, base))
  {
    if r.Ok? {
      var kept := KeptSamples(stream.items, 0, 0);
      FaultlessStreamIncreases(stream.items, 0, 0);
      ChunksPartitionSamples(kept);
      ChunkRangesIncrease(kept);
    }
  }

  lemma OneMoreInMemory(series: seq<InMemorySeries>, k: nat,
                        entries: seq<Entry>, chunks: seq<seq<Sample>>, counted: Totals)
    requires k < |series| && Creatable(series[..k]) && GoodSamples(series[k].samples)
    requires Before(if k == 0 then [] else series[k - 1].metric, series[k].metric)
    requires counted.stats.numSeries > 0
    requires SeriesWritten(LoadedSeriesOf(series[..k]), entries, chunks,
      counted.(stats := counted.stats.(numSeries := counted.stats.numSeries - 1)))
    ensures Creatable(series[..k + 1])
    ensures entries != [] ==> Before(entries[|entries| - 1].metric, series[k].metric) && entries[|entries| - 1].ref == k
    ensures var chks := ChunksOf(KeptSamples(series[k].samples.items, 0, 0));
      SeriesWritten(LoadedSeriesOf(series[..k + 1]),
        entries + [Entry(k + 1, series[k].metric, Unloaded(Placed(chks, |chunks|)))],
        chunks + Contents(chks), CountChunks(counted, chks))
  {
    var loaded := LoadedSeriesOf(series[..k]);
    hide SeriesWritten, CountChunks, EntriesOf, Placed, Contents, Unloaded, GoodSamples;
    CreatablePrefix(series, k);
    LoadedSeriesAppend(series, k);
    OneMoreSeriesWritten(loaded, entries, chunks,
      counted.(stats := counted.stats.(numSeries := counted.stats.numSeries - 1)), LoadedSeries(series[k]));
  }

  method CreateBlock(series: seq<InMemorySeries>) returns (r: Result<Block, CreateError>)
    ensures r.Ok? <==> Creatable(series)
    ensures r.Err? ==> exists k :: 0 <= k < |series| && FailsAt(series, k, r.error)
    ensures r.Ok? ==> IsBlock(r.value, MemorySymbols(series), multiset(LoadedSeriesOf(series)))
  {
    var w := new IndexWriter();
    var ok := AddSortedInMemorySeriesSymbolsToIndex(w, series);
    var cw := new ChunkWriter();
    var totals := AddSortedInMemorySeriesToIndex(w, cw, series);
    if totals.Err? {
      return Err(totals.error);
    }
    var t := totals.value;
    r := Ok(Block(w.symbols, w.entries, cw.chunks, t.stats, t.minT, ToInt64(t.maxT + 1)));
    CreatedInOrder(series);
    assert r.value == BlockOf(w.symbols, LoadedSeriesOf(series));
  }

  // ---------- A series that ends at the greatest int64 ----------

  function LastPossible(): InMemorySeries {
    InMemorySeries([Label([0x61], [0x62])], Stream(Floats([Sample(1, 0), Sample(MAX_INT64, 0)]), false))
  }

  /** Its block can be made, and has the least int64 for the end of its range, before all its samples. */
  lemma EndWrapsAround()
    ensures Creatable([LastPossible()])
    ensures forall b :: IsBlock(b, MemorySymbols([LastPossible()]), multiset(LoadedSeriesOf([LastPossible()]))) ==>
      b.minTime == 1 && b.maxTime == -0x8000_0000_0000_0000
  {
    hide Less, Compare;
    var s := LastPossible();
    var samples := [Sample(1, 0), Sample(MAX_INT64, 0)];
    assert PositiveIncreasing(samples);
    AllKeptIffPositiveIncreasing(samples);
    OnlyEmptyIsNotAboveEmpty(s.metric);
    assert InPlace([s], 0);
    var loaded := Series(s.metric, ChunksOf(samples));
    assert LoadedSeriesOf([s]) == [loaded];
    TotalsOfLastPossible(loaded, samples);
    forall b | IsBlock(b, MemorySymbols([s]), multiset([loaded]))
      ensures b.minTime == 1 && b.maxTime == -0x8000_0000_0000_0000
    {
      var syms, series :|
        && StrictlySorted(Less, syms) && (forall x :: x in syms <==> x in MemorySymbols([s]))
        && StrictlySorted(SeriesBefore, series) && multiset(series) == multiset([loaded])
        && b == BlockOf(syms, series);
      OneElement(series, loaded);
    }
  }

  method CreateLastPossible() returns (b: Block)
    ensures b.minTime == 1 && b.maxTime == -0x8000_0000_0000_0000
  {
    EndWrapsAround();
    var r := CreateBlock([LastPossible()]);
    b := r.value;
  }

  lemma OneElement<T>(s: seq<T>, x: T)
    requires multiset(s) == multiset([x])
    ensures s == [x]
  {
    assert |s| == |multiset(s)| == 1;
    assert s[0] in multiset(s);
  }

  lemma TotalsOfLastPossible(loaded: Series, samples: seq<Sample>)
    requires samples == [Sample(1, 0), Sample(MAX_INT64, 0)] && loaded.chunks == ChunksOf(samples)
    ensures TotalsOf([loaded]).minT == 1 && TotalsOf([loaded]).maxT == MAX_INT64
  {
    var series := [loaded];
    assert PositiveIncreasing(samples);
    assert AreChunks(ChunksOf(samples));
    ChunksPartitionSamples(samples);
    assert series[..0] == [] && AllChunks(series) == [] + ChunksOf(samples) == ChunksOf(samples);
    assert samples[0] in samples && samples[1] in samples;
    TotalsSpanSamples(series);
  }
}
