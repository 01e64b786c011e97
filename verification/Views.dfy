/**
 * What a block builder has taken in so far, as a value, and the three steps by which
 * AddSeriesWithSamples changes it. Each step is atomic under its own lock.
 */
module Views {
  import opened Wrappers
  import opened Bytes
  import opened Labels
  import opened Chunks
  import opened SeriesOrder
  import opened Blocks

  /** Symbols added, chunks written, and series accepted, in that order of acceptance. */
  datatype View = View(symbols: set<Str>, store: seq<seq<Sample>>, series: seq<Series>)

  const EMPTY_VIEW := View({[]}, [], [])

  function SymbolsAdded(v: View, metric: LabelSet): View {
    v.(symbols := v.symbols + Strings(metric))
  }

  function ChunksWritten(v: View, metas: seq<Meta>): View {
    v.(store := v.store + Contents(metas))
  }

  function SeriesAdded(v: View, s: Series): View {
    v.(series := v.series + [s])
  }

  ghost predicate RefsResolve(metas: seq<Meta>, store: seq<seq<Sample>>) {
    forall i :: 0 <= i < |metas| ==> 1 <= metas[i].ref <= |store| && metas[i].chunk == None
  }

  /** The chunks are those of some series that could have been added. */
  ghost predicate AreChunks(metas: seq<Meta>) {
    exists samples :: samples != [] && PositiveIncreasing(samples) && metas == ChunksOf(samples)
  }

  ghost predicate SoundSeries(v: View, s: Series) {
    && ValidNames(s.metric)
    && (forall x :: x in Strings(s.metric) ==> x in v.symbols)
    && RefsResolve(s.chunks, v.store)
    && AreChunks(LoadChunks(s.chunks, v.store))
  }

  /** Nothing names a missing symbol or a foreign chunk. */
  ghost predicate Sound(v: View) {
    && [] in v.symbols
    && forall i :: 0 <= i < |v.series| ==> SoundSeries(v, v.series[i])
  }

  /** What the accepted series hold, with their chunks. */
  ghost function Content(v: View): multiset<Series> {
    multiset(LoadAll(v.series, v.store))
  }

  lemma LoadedFromLargerStore(metas: seq<Meta>, store: seq<seq<Sample>>, more: seq<seq<Sample>>)
    requires RefsResolve(metas, store)
    ensures RefsResolve(metas, store + more)
    ensures LoadChunks(metas, store + more) == LoadChunks(metas, store)
  {
  }

  lemma SoundSeriesInLargerView(v: View, w: View, more: seq<seq<Sample>>, s: Series)
    requires SoundSeries(v, s)
    requires v.symbols <= w.symbols && w.store == v.store + more
    ensures SoundSeries(w, s) && Load(s, w.store) == Load(s, v.store)
  {
    LoadedFromLargerStore(s.chunks, v.store, more);
  }

  /** The first two steps change nothing about what is accepted already. */
  lemma GrowingKeepsSeries(v: View, w: View, more: seq<seq<Sample>>)
    requires Sound(v)
    requires v.symbols <= w.symbols && w.store == v.store + more && w.series == v.series
    ensures Sound(w) && LoadAll(w.series, w.store) == LoadAll(v.series, v.store)
  {
    forall i | 0 <= i < |v.series|
      ensures SoundSeries(w, w.series[i]) && Load(w.series[i], w.store) == Load(v.series[i], v.store)
    {
      SoundSeriesInLargerView(v, w, more, v.series[i]);
    }
  }

  lemma SymbolsAddedKeepsSound(v: View, metric: LabelSet)
    requires Sound(v)
    ensures Sound(SymbolsAdded(v, metric)) && Content(SymbolsAdded(v, metric)) == Content(v)
  {
    assert v.store + [] == v.store;
    GrowingKeepsSeries(v, SymbolsAdded(v, metric), []);
  }

  lemma ChunksWrittenKeepsSound(v: View, metas: seq<Meta>)
    requires Sound(v)
    ensures Sound(ChunksWritten(v, metas)) && Content(ChunksWritten(v, metas)) == Content(v)
  {
    GrowingKeepsSeries(v, ChunksWritten(v, metas), Contents(metas));
  }

  lemma SeriesAddedKeepsSound(v: View, s: Series)
    requires Sound(v) && SoundSeries(v, s)
    ensures Sound(SeriesAdded(v, s))
    ensures Content(SeriesAdded(v, s)) == Content(v) + multiset{Load(s, v.store)}
  {
    var w := SeriesAdded(v, s);
    forall i | 0 <= i < |w.series| ensures SoundSeries(w, w.series[i]) {
      SoundSeriesInLargerView(v, w, [], w.series[i]);
    }
    assert LoadAll(w.series, w.store) == LoadAll(v.series, v.store) + [Load(s, v.store)];
  }

  /** Chunks just written resolve, and load back as they were. */
  lemma WrittenChunksResolve(v: View, metas: seq<Meta>)
    requires forall i :: 0 <= i < |metas| ==> metas[i].chunk.Some? && metas[i].ref == 0
    ensures var refs := Unloaded(Placed(metas, |v.store|)); var w := ChunksWritten(v, metas);
      RefsResolve(refs, w.store) && LoadChunks(refs, w.store) == metas
  {
    PlacedChunksLoad(metas, v.store, []);
    assert v.store + Contents(metas) + [] == v.store + Contents(metas);
  }

  // ---------- One call ----------

  datatype AddError = BadSamples(e: ChunkError) | BadLabelNames | NoReference

  /** What one call of AddSeriesWithSamples does to the view, step by step, and answers. */
  ghost predicate AddOutcome(v: View, lbls: LabelSet, samples: Stream, minBlockTime: int, maxBlockTime: int,
                             r: Result<(), AddError>, w: View)
  {
    exists chks ::
      && IsOutcome(samples, minBlockTime, maxBlockTime, chks)
      && match chks
         case Err(e) => r == Err(BadSamples(e)) && w == v
         case Ok(metas) =>
           if metas == [] then r == Ok(()) && w == v
           else
             var u := ChunksWritten(SymbolsAdded(v, lbls), metas);
             if ValidNames(lbls) then
               r == Ok(()) && w == SeriesAdded(u, Series(lbls, Unloaded(Placed(metas, |v.store|))))
             else r == Err(BadLabelNames) && w == u
  }

  // ---------- The time range recorded for a block ----------

  ghost predicate Bounds(m: Meta) {
    m.chunk.Some? && forall x :: x in m.chunk.value ==> m.minTime <= x.ts <= m.maxTime
  }

  lemma {:induction false} ChunksBoundTheirSamples(samples: seq<Sample>)
    requires Increasing(samples)
    ensures forall m :: m in ChunksOf(samples) ==> Bounds(m)
  {
    if samples != [] {
      var n := if |samples| <= SAMPLES_PER_CHUNK then |samples| else SAMPLES_PER_CHUNK;
      var first := samples[..n];
      assert Bounds(MetaOf(first)) by {
        forall x | x in first ensures first[0].ts <= x.ts <= first[n - 1].ts {
          var i :| 0 <= i < n && first[i] == x;
          assert samples[0].ts <= samples[i].ts <= samples[n - 1].ts;
        }
      }
      if n == |samples| {
        assert first == samples;
      } else {
        ChunksBoundTheirSamples(samples[SAMPLES_PER_CHUNK..]);
      }
    }
  }

  lemma {:induction false} SampleOfSomeChunk(metas: seq<Meta>, x: Sample) returns (m: Meta)
    requires x in SamplesIn(metas)
    ensures m in metas && m.chunk.Some? && x in m.chunk.value
  {
    if metas[0].chunk.Some? && x in metas[0].chunk.value {
      m := metas[0];
    } else {
      m := SampleOfSomeChunk(metas[1..], x);
    }
  }

  lemma {:induction false} SampleOfChunkIn(metas: seq<Meta>, m: Meta, x: Sample)
    requires m in metas && m.chunk.Some? && x in m.chunk.value
    ensures x in SamplesIn(metas)
  {
    if metas[0] != m {
      SampleOfChunkIn(metas[1..], m, x);
    }
  }

  ghost predicate WellCut(series: seq<Series>) {
    forall i :: 0 <= i < |series| ==> AreChunks(series[i].chunks)
  }

  lemma {:induction false} AllChunksBound(series: seq<Series>)
    requires WellCut(series)
    ensures forall m :: m in AllChunks(series) ==> Bounds(m) && Describes(m) && m.maxTime > 0
  {
    if series != [] {
      var n := |series| - 1;
      AllChunksBound(series[..n]);
      var samples :| samples != [] && PositiveIncreasing(samples) && series[n].chunks == ChunksOf(samples);
      ChunksBoundTheirSamples(samples);
      ChunksPartitionSamples(samples);
      forall m | m in series[n].chunks ensures m.maxTime > 0 {
        var last := m.chunk.value[|m.chunk.value| - 1];
        SampleOfChunkIn(series[n].chunks, m, last);
      }
    }
  }

  lemma TotalsSpanSamples(series: seq<Series>)
    requires WellCut(series) && series != []
    requires forall x :: x in SamplesIn(AllChunks(series)) ==> x.ts <= MAX_INT64
    ensures Spans(SamplesIn(AllChunks(series)), TotalsOf(series).minT, TotalsOf(series).maxT)
  {
    var t := TotalsOf(series);
    var chunks := AllChunks(series);
    TotalsAreExact(series);
    AllChunksBound(series);
    forall x | x in SamplesIn(chunks) ensures t.minT <= x.ts <= t.maxT {
      var m := SampleOfSomeChunk(chunks, x);
      assert Bounds(m);
    }
    assert series[|series| - 1].chunks[0] in chunks by {
      var samples :| samples != [] && PositiveIncreasing(samples) && series[|series| - 1].chunks == ChunksOf(samples);
    }
    var first, last := Attained(series, t);
  }

  lemma EndOfRange(samples: seq<Sample>, lo: int, hi: int)
    requires Spans(samples, lo, hi) && 0 <= hi <= MAX_INT64
    ensures (forall x :: x in samples ==> x.ts < ToInt64(hi + 1)) <==> hi < MAX_INT64
    ensures hi < MAX_INT64 ==> ToInt64(hi + 1) == hi + 1
  {
    var last :| last in samples && last.ts == hi;
    assert hi == MAX_INT64 ==> ToInt64(hi + 1) < 0;
  }

  /** The block's range begins at the first timestamp and, but for an overflow, ends right after the last, `hi`. */
  ghost predicate RangeRecorded(samples: seq<Sample>, b: Block, hi: int) {
    && Spans(samples, b.minTime, hi)
    && ((forall x :: x in samples ==> x.ts < b.maxTime) <==> hi < MAX_INT64)
    && (hi < MAX_INT64 ==> b.maxTime == hi + 1)
  }

  /**
   * The counts are those of the stored data. The recorded range starts at the first stored
   * timestamp; it ends right after the last one, and so holds all of them, exactly if that
   * is not the greatest int64.
   */
  lemma BlockStatistics(symbols: seq<Str>, series: seq<Series>)
    requires WellCut(series) && series != []
    requires forall x :: x in SamplesIn(AllChunks(series)) ==> x.ts <= MAX_INT64
    ensures BlockOf(symbols, series).stats ==
      Stats(|series|, |AllChunks(series)|, |SamplesIn(AllChunks(series))|)
    ensures exists hi :: RangeRecorded(SamplesIn(AllChunks(series)), BlockOf(symbols, series), hi)
  {
    hide TotalsOf, AllChunks, SamplesIn, WellCut, ToInt64, Spans, EntriesOf, ChunksIn;
    var t := TotalsOf(series);
    TotalsAreExact(series);
    TotalsSpanSamples(series);
    EndOfRange(SamplesIn(AllChunks(series)), t.minT, t.maxT);
    assert RangeRecorded(SamplesIn(AllChunks(series)), BlockOf(symbols, series), t.maxT);
  }

  /** Both bounds are timestamps of stored samples. */
  lemma Attained(series: seq<Series>, t: Totals) returns (first: Sample, last: Sample)
    requires WellCut(series) && t == TotalsOf(series) && AllChunks(series) != []
    requires forall x :: x in SamplesIn(AllChunks(series)) ==> x.ts <= MAX_INT64
    ensures first in SamplesIn(AllChunks(series)) && first.ts == t.minT
    ensures last in SamplesIn(AllChunks(series)) && last.ts == t.maxT
  {
    var chunks := AllChunks(series);
    TotalsAreExact(series);
    AllChunksBound(series);
    var m := chunks[0];
    assert m in chunks && Describes(m);
    SampleOfChunkIn(chunks, m, m.chunk.value[0]);
    if t.minT != MAX_INT64 {
      m :| m in chunks && m.minTime == t.minT;
    }
    assert Describes(m);
    first := m.chunk.value[0];
    SampleOfChunkIn(chunks, m, first);
    assert t.maxT > 0;
    m :| m in chunks && m.maxTime == t.maxT;
    assert Describes(m);
    last := m.chunk.value[|m.chunk.value| - 1];
    SampleOfChunkIn(chunks, m, last);
  }
}
