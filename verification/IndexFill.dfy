/** Filling a block's index: from sorted run files, and from series held in memory (pkg/tsdb/builder.go). */
module IndexFill {
  import opened Wrappers
  import opened Bytes
  import opened Orders
  import opened Labels
  import opened Chunks
  import opened RunMerge
  import opened SymbolsBatch
  import opened SeriesOrder
  import opened SeriesBatch
  import opened Blocks
  import opened Views

  /** `out` has been written from `all` while `rest` is to come. */
  ghost predicate SymbolsWritten(all: set<Str>, out: seq<Str>, rest: set<Str>) {
    && StrictlySorted(Less, out)
    && (forall s :: s in all <==> s in out || s in rest)
    && (forall a, b :: a in out && b in rest ==> Less(a, b))
  }

  lemma NoSymbolsWritten(all: set<Str>)
    ensures SymbolsWritten(all, [], all)
  {
  }

  lemma SymbolWritten(all: set<Str>, out: seq<Str>, rest: set<Str>, x: Str, after: set<Str>)
    requires SymbolsWritten(all, out, rest) && TakesLeast(Less, rest, Some(x), after)
    ensures out == [] || Less(out[|out| - 1], x)
    ensures SymbolsWritten(all, out + [x], after)
    ensures |after| < |rest|
  {
    assert out != [] ==> out[|out| - 1] in out;
    StrictlySortedAppend(Less, out, x);
  }

  method AddSymbolsToIndexWriter(w: IndexWriter, files: seq<seq<Str>>) returns (ok: bool)
    requires AllSorted(Less, files) && w.symbols == []
    modifies w`symbols
    ensures ok && SymbolsWritten(Symbols(files), w.symbols, {})
  {
    hide SymbolsWritten, Symbols, AllSorted, Unreturned, TakesLeast;
    ghost var all := Symbols(files);
    NoSymbolsWritten(all);
    var si := new SymbolsIterator(files);
    var sym := si.NextSymbol();
    ghost var rest := all;
    while sym.Some?
      invariant si.Valid() && fresh(si) && fresh(si.merge) && fresh(si.merge.Readers())
      invariant SymbolsWritten(all, w.symbols, rest) && TakesLeast(Less, rest, sym, si.Remaining())
      decreases |rest|
    {
      SymbolWritten(all, w.symbols, rest, sym.value, si.Remaining());
      ok := w.AddSymbol(sym.value);
      rest := si.Remaining();
      if !ok {
        return;
      }
      sym := si.NextSymbol();
    }
    NothingTaken(rest, si.Remaining());
    ok := true;
  }

  lemma NothingTaken(rest: set<Str>, after: set<Str>)
    requires TakesLeast(Less, rest, None, after)
    ensures rest == {}
  {
  }

  datatype FinishError = DuplicateSeries | MissingChunk | Rejected

  /** The writers hold exactly these series, one after the other. */
  ghost predicate SeriesWritten(loaded: seq<Series>, entries: seq<Entry>, chunks: seq<seq<Sample>>, totals: Totals) {
    entries == EntriesOf(loaded) && chunks == ChunksIn(loaded) && totals == TotalsOf(loaded)
  }

  /** Loads a series' chunks by reference and counts them, one meta after the other. */
  method LoadAndCount(metas: seq<Meta>, store: seq<seq<Sample>>, totals: Totals)
    returns (ok: bool, loaded: seq<Meta>, t: Totals)
    ensures ok <==> forall i :: 0 <= i < |metas| ==> 1 <= metas[i].ref <= |store|
    ensures ok ==> loaded == LoadChunks(metas, store) && t == CountChunks(totals, loaded)
  {
    loaded, t := metas, totals;
    ghost var all := LoadChunks(metas, store);
    for ix := 0 to |metas|
      invariant |loaded| == |metas|
      invariant forall i :: 0 <= i < ix ==> loaded[i] == all[i]
      invariant forall i :: ix <= i < |metas| ==> loaded[i] == metas[i]
      invariant forall i :: 0 <= i < ix ==> 1 <= metas[i].ref <= |store|
      invariant t == CountChunks(totals, all[..ix])
    {
      if loaded[ix].ref < 1 || loaded[ix].ref > |store| {
        return false, loaded, t;
      }
      loaded := loaded[ix := LoadChunk(loaded[ix], store)];
      t := CountChunk(t, loaded[ix]);
      assert all[..ix + 1][..ix] == all[..ix];
    }
    assert all[..|metas|] == all && loaded == all;
    ok := true;
  }

  lemma NoSeriesWritten()
    ensures SeriesWritten([], [], [], NO_TOTALS)
  {
  }

  lemma OneMoreSeriesWritten(loaded: seq<Series>, entries: seq<Entry>, chunks: seq<seq<Sample>>, totals: Totals,
                             s: Series)
    requires SeriesWritten(loaded, entries, chunks, totals)
    ensures SeriesWritten(loaded + [s],
      entries + [Entry(|loaded| + 1, s.metric, Unloaded(Placed(s.chunks, |chunks|)))],
      chunks + Contents(s.chunks),
      CountChunks(totals.(stats := totals.stats.(numSeries := totals.stats.numSeries + 1)), s.chunks))
    ensures |entries| == |loaded|
    ensures entries != [] ==>
      entries[|entries| - 1].metric == loaded[|loaded| - 1].metric && entries[|entries| - 1].ref == |loaded|
  {
    assert (loaded + [s])[..|loaded|] == loaded;
  }

  lemma ChunksOfSeriesAreInOrder(metas: seq<Meta>, base: nat)
    requires AreChunks(metas)
    ensures HasChunks(metas) && ChunksInOrder(Placed(metas, base))
    ensures metas != [] && IsLoaded(Series([], metas))
  {
    var samples :| samples != [] && PositiveIncreasing(samples) && metas == ChunksOf(samples);
    ChunksPartitionSamples(samples);
    ChunkRangesIncrease(samples);
  }

  lemma MemberIsSound(v: View, s: Series)
    requires Sound(v) && s in multiset(v.series)
    ensures SoundSeries(v, s)
  {
    var i :| 0 <= i < |v.series| && v.series[i] == s;
  }

  lemma LoadAllAppend(ss: seq<Series>, s: Series, store: seq<seq<Sample>>)
    ensures LoadAll(ss + [s], store) == LoadAll(ss, store) + [Load(s, store)]
  {
  }

  lemma LastLoaded(ss: seq<Series>, store: seq<seq<Sample>>)
    ensures ss != [] ==> LoadAll(ss, store)[|ss| - 1].metric == ss[|ss| - 1].metric
  {
  }

  lemma {:induction false} LoadAllPermutation(a: seq<Series>, b: seq<Series>, store: seq<seq<Sample>>)
    requires multiset(a) == multiset(b)
    ensures multiset(LoadAll(a, store)) == multiset(LoadAll(b, store))
  {
    if a == [] {
      assert |b| == |multiset(b)| == 0;
    } else {
      var n := |a| - 1;
      var i := MatchLast(a, b);
      var others := b[..i] + b[i + 1..];
      assert a == a[..n] + [a[n]];
      LoadAllPermutation(a[..n], others, store);
      LoadAllAppend(a[..n], a[n], store);
      assert LoadAll(b, store) == LoadAll(b[..i], store) + [Load(b[i], store)] + LoadAll(b[i + 1..], store);
      assert LoadAll(others, store) == LoadAll(b[..i], store) + LoadAll(b[i + 1..], store);
    }
  }

  /** Loading chunks keeps the labels and so the order. */
  lemma LoadAllKeepsOrder(out: seq<Series>, store: seq<seq<Sample>>)
    requires StrictlySorted(SeriesBefore, out)
    ensures StrictlySorted(SeriesBefore, LoadAll(out, store))
  {
    var loaded := LoadAll(out, store);
    forall i, j | 0 <= i < j < |loaded| ensures InStrictOrder(SeriesBefore, loaded, i, j) {
      assert InStrictOrder(SeriesBefore, out, i, j);
    }
  }

  /** The outcome of writing all series of the run files, in terms of the view they were added to. */
  ghost predicate AllSeriesWritten(v: View, entries: seq<Entry>, chunks: seq<seq<Sample>>, totals: Totals) {
    exists loaded ::
      && StrictlySorted(SeriesBefore, loaded) && multiset(loaded) == Content(v)
      && SeriesWritten(loaded, entries, chunks, totals)
  }

  /** While `rest` is unread, the series read so far have been written. */
  ghost predicate Progress(v: View, out: seq<Series>, last: LabelSet, rest: multiset<Series>,
                           entries: seq<Entry>, chunks: seq<seq<Sample>>, totals: Totals)
  {
    Drained(multiset(v.series), out, last, rest) && SeriesWritten(LoadAll(out, v.store), entries, chunks, totals)
  }

  lemma NoProgress(v: View)
    ensures Progress(v, [], [], multiset(v.series), [], [], NO_TOTALS)
  {
    DrainedAtStart(multiset(v.series));
    NoSeriesWritten();
    assert LoadAll([], v.store) == [];
  }

  lemma AllDrained(v: View, out: seq<Series>, last: LabelSet, rest: multiset<Series>, after: multiset<Series>,
                   entries: seq<Entry>, chunks: seq<seq<Sample>>, totals: Totals)
    requires Progress(v, out, last, rest, entries, chunks, totals) && NextOutcome(rest, last, EndOfFiles, after)
    ensures Distinct(multiset(v.series)) && AllSeriesWritten(v, entries, chunks, totals)
  {
    DrainedCompletely(multiset(v.series), out, last);
    LoadAllKeepsOrder(out, v.store);
    LoadAllPermutation(out, v.series, v.store);
  }

  /** The index accepts the series read next. */
  lemma NextSeriesFits(v: View, out: seq<Series>, last: LabelSet, rest: multiset<Series>, s: Series,
                       after: multiset<Series>, entries: seq<Entry>, chunks: seq<seq<Sample>>, totals: Totals)
    requires Sound(v) && Progress(v, out, last, rest, entries, chunks, totals)
    requires NextOutcome(rest, last, Got(s), after)
    ensures forall i :: 0 <= i < |s.chunks| ==> 1 <= s.chunks[i].ref <= |v.store|
    ensures forall x :: x in Strings(s.metric) ==> x in v.symbols
    ensures HasChunks(Load(s, v.store).chunks) && ChunksInOrder(Placed(Load(s, v.store).chunks, |chunks|))
    ensures entries != [] ==> Before(entries[|entries| - 1].metric, s.metric) && entries[|entries| - 1].ref == |out|
    ensures Progress(v, out + [s], s.metric, after,
      entries + [Entry(|out| + 1, s.metric, Unloaded(Placed(Load(s, v.store).chunks, |chunks|)))],
      chunks + Contents(Load(s, v.store).chunks),
      CountChunks(totals.(stats := totals.stats.(numSeries := totals.stats.numSeries + 1)), Load(s, v.store).chunks))
    ensures after < rest
  {
    hide Sound, SoundSeries, SeriesWritten, Contents, CountChunks, Placed, Unloaded, LoadAll, LoadChunks;
    hide StrictlySorted, AreChunks, HasChunks, ChunksInOrder, Strings;
    DrainedStep(multiset(v.series), out, last, rest, s, after);
    MemberIsSound(v, s);
    SoundRefs(v, s);
    ChunksOfSeriesAreInOrder(Load(s, v.store).chunks, |chunks|);
    LoadAllAppend(out, s, v.store);
    LastLoaded(out, v.store);
    OneMoreSeriesWritten(LoadAll(out, v.store), entries, chunks, totals, Load(s, v.store));
  }

  /** One round of addSeriesToIndex: loads the series' chunks, counts them, writes them and adds the series. */
  method WriteSeries(w: IndexWriter, cw: ChunkWriter, ser: Series, ref: nat,
                     store: seq<seq<Sample>>, before: Totals)
    returns (r: Result<Totals, FinishError>)
    requires forall i :: 0 <= i < |ser.chunks| ==> 1 <= ser.chunks[i].ref <= |store|
    requires HasChunks(LoadChunks(ser.chunks, store))
    requires w.Accepts(ref, ser.metric, Placed(LoadChunks(ser.chunks, store), |cw.chunks|))
    modifies w`entries, cw
    ensures var chunks := LoadChunks(ser.chunks, store);
      && cw.chunks == old(cw.chunks) + Contents(chunks)
      && w.entries == old(w.entries) + [Entry(ref, ser.metric, Unloaded(Placed(chunks, |old(cw.chunks)|)))]
      && r == Ok(CountChunks(before.(stats := before.stats.(numSeries := before.stats.numSeries + 1)), chunks))
  {
    var totals := before.(stats := before.stats.(numSeries := before.stats.numSeries + 1));
    var ok, loaded, t := LoadAndCount(ser.chunks, store, totals);
    if !ok {
      return Err(MissingChunk);
    }
    var placed := cw.WriteChunks(loaded);
    ok := w.AddSeries(ref, ser.metric, placed);
    r := if ok then Ok(t) else Err(Rejected);
  }

  method AddSeriesToIndex(w: IndexWriter, cw: ChunkWriter, files: seq<seq<Series>>,
                          store: seq<seq<Sample>>, ghost v: View)
    returns (r: Result<Totals, FinishError>)
    requires AllSorted(SeriesBefore, files) && Items(files) == multiset(v.series) && store == v.store
    requires Sound(v) && forall s :: s in v.symbols ==> s in w.symbols
    requires w.entries == [] && cw.chunks == []
    modifies w`entries, cw
    ensures r.Ok? <==> Distinct(multiset(v.series))
    ensures r.Err? ==> r.error == DuplicateSeries
    ensures r.Ok? ==> AllSeriesWritten(v, w.entries, cw.chunks, r.value)
  {
    hide Items, AllSorted, Progress, NextOutcome, Distinct, Sound, SoundSeries, SeriesWritten, AllSeriesWritten;
    hide ChunksInOrder;
    hide LoadAll, LoadChunks, Placed, Unloaded, Contents, CountChunks, Strings, Sorted, HasChunks, Before;
    var totals := NO_TOTALS;
    var ref := 0;
    ghost var out: seq<Series> := [];
    NoProgress(v);
    var si := new SeriesIterator(files);
    ghost var rest := multiset(v.series);
    ghost var last := si.lastReturnedLabels;
    var next := si.NextSeries();
    while next.Got?
      invariant si.Valid() && fresh(si) && fresh(si.merge) && fresh(si.merge.Readers())
      invariant Progress(v, out, last, rest, w.entries, cw.chunks, totals)
      invariant NextOutcome(rest, last, next, si.merge.items)
      invariant next.Got? ==> si.lastReturnedLabels == next.series.metric
      invariant ref == |out|
      decreases rest
    {
      var ser := next.series;
      NextSeriesFits(v, out, last, rest, ser, si.merge.items, w.entries, cw.chunks, totals);
      ref := ref + 1;
      r := WriteSeries(w, cw, ser, ref, store, totals);
      if r.Err? {
        return;
      }
      totals := r.value;
      out, last, rest := out + [ser], ser.metric, si.merge.items;
      next := si.NextSeries();
    }
    if next.Duplicate? {
      DuplicateFound(v, out, last, rest, si.merge.items, w.entries, cw.chunks, totals);
      return Err(DuplicateSeries);
    }
    AllDrained(v, out, last, rest, si.merge.items, w.entries, cw.chunks, totals);
    r := Ok(totals);
  }

  lemma DuplicateFound(v: View, out: seq<Series>, last: LabelSet, rest: multiset<Series>, after: multiset<Series>,
                       entries: seq<Entry>, chunks: seq<seq<Sample>>, totals: Totals)
    requires Progress(v, out, last, rest, entries, chunks, totals) && NextOutcome(rest, last, Duplicate, after)
    ensures !Distinct(multiset(v.series))
  {
    DrainedToDuplicate(multiset(v.series), out, last, rest, after);
  }

  lemma SoundRefs(v: View, s: Series)
    requires SoundSeries(v, s)
    ensures forall i :: 0 <= i < |s.chunks| ==> 1 <= s.chunks[i].ref <= |v.store|
    ensures forall x :: x in Strings(s.metric) ==> x in v.symbols
    ensures AreChunks(Load(s, v.store).chunks)
  {
  }
}
