/**
 * A finished block and the writers it is made with. The chunk and index writers are
 * Prometheus' own; they are modelled by their contracts.
 */
module Blocks {
  import opened Wrappers
  import opened Bytes
  import opened Orders
  import opened Labels
  import opened Chunks
  import opened SeriesOrder

  /** The samples of each chunk. */
  function Contents(metas: seq<Meta>): (r: seq<seq<Sample>>)
    ensures |r| == |metas|
  {
    seq(|metas|, i requires 0 <= i < |metas| => if metas[i].chunk.Some? then metas[i].chunk.value else [])
  }

  /** The metas once their chunks are written after `base` others. */
  function Placed(metas: seq<Meta>, base: nat): (r: seq<Meta>)
    ensures |r| == |metas|
  {
    seq(|metas|, i requires 0 <= i < |metas| => metas[i].(ref := base + i + 1))
  }

  function Unloaded(metas: seq<Meta>): (r: seq<Meta>)
    ensures |r| == |metas|
  {
    seq(|metas|, i requires 0 <= i < |metas| => metas[i].(chunk := None))
  }

  /** A chunk reference resolves to what was written under it. */
  function LoadChunk(m: Meta, store: seq<seq<Sample>>): Meta {
    Meta(0, if 1 <= m.ref <= |store| then Some(store[m.ref - 1]) else None, m.minTime, m.maxTime)
  }

  function LoadChunks(metas: seq<Meta>, store: seq<seq<Sample>>): (r: seq<Meta>)
    ensures |r| == |metas|
  {
    seq(|metas|, i requires 0 <= i < |metas| => LoadChunk(metas[i], store))
  }

  function Load(s: Series, store: seq<seq<Sample>>): Series {
    Series(s.metric, LoadChunks(s.chunks, store))
  }

  function LoadAll(ss: seq<Series>, store: seq<seq<Sample>>): (r: seq<Series>)
    ensures |r| == |ss|
  {
    seq(|ss|, i requires 0 <= i < |ss| => Load(ss[i], store))
  }

  ghost predicate HasChunks(metas: seq<Meta>) {
    forall i :: 0 <= i < |metas| ==> metas[i].chunk.Some?
  }

  /** chunks.Writer: an append-only store; references are never zero. */
  class ChunkWriter {
    var chunks: seq<seq<Sample>>

    constructor ()
      ensures chunks == []
    {
      chunks := [];
    }

    method WriteChunks(metas: seq<Meta>) returns (r: seq<Meta>)
      requires HasChunks(metas)
      modifies this
      ensures chunks == old(chunks) + Contents(metas)
      ensures r == Placed(metas, |old(chunks)|)
    {
      r := Placed(metas, |chunks|);
      chunks := chunks + Contents(metas);
    }
  }

  datatype Entry = Entry(ref: nat, metric: LabelSet, chunks: seq<Meta>)

  ghost predicate ChunksInOrder(metas: seq<Meta>) {
    forall i, j :: 0 <= i < j < |metas| ==> metas[i].ref < metas[j].ref && metas[i].maxTime < metas[j].minTime
  }

  /** index.Writer: takes symbols and then series, each in strictly increasing order. */
  class IndexWriter {
    var symbols: seq<Str>
    var entries: seq<Entry>

    constructor ()
      ensures symbols == [] && entries == []
    {
      symbols, entries := [], [];
    }

    method AddSymbol(sym: Str) returns (ok: bool)
      modifies this`symbols
      ensures ok <==> old(symbols) == [] || Less(old(symbols)[|old(symbols)| - 1], sym)
      ensures symbols == if ok then old(symbols) + [sym] else old(symbols)
    {
      ok := |symbols| == 0 || Less(symbols[|symbols| - 1], sym);
      if ok {
        symbols := symbols + [sym];
      }
    }

    ghost predicate Accepts(ref: nat, metric: LabelSet, metas: seq<Meta>)
      reads this
    {
      && (entries != [] ==> Before(entries[|entries| - 1].metric, metric) && entries[|entries| - 1].ref < ref)
      && (forall s :: s in Strings(metric) ==> s in symbols)
      && ChunksInOrder(metas)
    }

    method AddSeries(ref: nat, metric: LabelSet, metas: seq<Meta>) returns (ok: bool)
      modifies this`entries
      ensures ok <==> old(Accepts(ref, metric, metas))
      ensures entries == if ok then old(entries) + [Entry(ref, metric, Unloaded(metas))] else old(entries)
    {
      ok := entries == [] || (Before(entries[|entries| - 1].metric, metric) && entries[|entries| - 1].ref < ref);
      ok := ok && (forall s | s in Strings(metric) :: s in symbols);
      ok := ok && (forall i, j | 0 <= i < j < |metas| ::
                     metas[i].ref < metas[j].ref && metas[i].maxTime < metas[j].minTime);
      if ok {
        entries := entries + [Entry(ref, metric, Unloaded(metas))];
      }
    }
  }

  datatype Stats = Stats(numSeries: nat, numChunks: nat, numSamples: nat)

  /** int64 arithmetic wraps around. */
  function ToInt64(x: int): int {
    (x + 0x8000_0000_0000_0000) % 0x1_0000_0000_0000_0000 - 0x8000_0000_0000_0000
  }

  datatype Block = Block(
    symbols: seq<Str>,
    entries: seq<Entry>,
    chunks: seq<seq<Sample>>,
    stats: Stats,
    minTime: int,
    maxTime: int)

  /** Running totals over the series written so far. */
  datatype Totals = Totals(stats: Stats, minT: int, maxT: int)

  const NO_TOTALS := Totals(Stats(0, 0, 0), MAX_INT64, 0)

  function CountChunk(t: Totals, m: Meta): Totals {
    Totals(
      t.stats.(numChunks := t.stats.numChunks + 1,
               numSamples := t.stats.numSamples + if m.chunk.Some? then |m.chunk.value| else 0),
      if m.minTime < t.minT then m.minTime else t.minT,
      if m.maxTime > t.maxT then m.maxTime else t.maxT)
  }

  function CountChunks(t: Totals, metas: seq<Meta>): Totals {
    if metas == [] then t else CountChunk(CountChunks(t, metas[..|metas| - 1]), metas[|metas| - 1])
  }

  function TotalsOf(series: seq<Series>): Totals {
    if series == [] then NO_TOTALS
    else
      var t := TotalsOf(series[..|series| - 1]);
      CountChunks(t.(stats := t.stats.(numSeries := t.stats.numSeries + 1)), series[|series| - 1].chunks)
  }

  /** The chunk store after writing the series' chunks one series after the other. */
  function ChunksIn(series: seq<Series>): seq<seq<Sample>> {
    if series == [] then [] else ChunksIn(series[..|series| - 1]) + Contents(series[|series| - 1].chunks)
  }

  function EntriesOf(series: seq<Series>): (r: seq<Entry>)
    ensures |r| == |series|
  {
    if series == [] then []
    else
      var n := |series| - 1;
      EntriesOf(series[..n]) +
      [Entry(n + 1, series[n].metric, Unloaded(Placed(series[n].chunks, |ChunksIn(series[..n])|)))]
  }

  /** Series are numbered from 1, in order. */
  lemma {:induction false} EntryIs(series: seq<Series>, i: nat)
    requires i < |series|
    ensures EntriesOf(series)[i].ref == i + 1 && EntriesOf(series)[i].metric == series[i].metric
  {
    if i < |series| - 1 {
      EntryIs(series[..|series| - 1], i);
    }
  }

  function BlockOf(symbols: seq<Str>, series: seq<Series>): Block {
    var t := TotalsOf(series);
    Block(symbols, EntriesOf(series), ChunksIn(series), t.stats, t.minT, ToInt64(t.maxT + 1))
  }

  /** The block holding exactly these symbols and series, both in order. */
  ghost predicate IsBlock(b: Block, symbols: set<Str>, content: multiset<Series>) {
    exists syms, series ::
      && StrictlySorted(Less, syms) && (forall s :: s in syms <==> s in symbols)
      && StrictlySorted(SeriesBefore, series) && multiset(series) == content
      && b == BlockOf(syms, series)
  }

  lemma BlockIsUnique(a: Block, b: Block, symbols: set<Str>, content: multiset<Series>)
    requires IsBlock(a, symbols, content) && IsBlock(b, symbols, content)
    ensures a == b
  {
    LessOrdersStrings();
    SeriesBeforeOrders();
    var syms, series :|
      && StrictlySorted(Less, syms) && (forall s :: s in syms <==> s in symbols)
      && StrictlySorted(SeriesBefore, series) && multiset(series) == content
      && a == BlockOf(syms, series);
    var syms', series' :|
      && StrictlySorted(Less, syms') && (forall s :: s in syms' <==> s in symbols)
      && StrictlySorted(SeriesBefore, series') && multiset(series') == content
      && b == BlockOf(syms', series');
    StrictlySortedUnique(Less, syms, syms');
    assert forall s :: s in series <==> s in content;
    assert forall s :: s in series' <==> s in content;
    StrictlySortedUnique(SeriesBefore, series, series');
  }

  // ---------- Reading a block back ----------

  function ReadBack(entries: seq<Entry>, chunks: seq<seq<Sample>>): (r: seq<Series>)
    ensures |r| == |entries|
  {
    seq(|entries|, i requires 0 <= i < |entries| => Series(entries[i].metric, LoadChunks(entries[i].chunks, chunks)))
  }

  /** A series as it is before writing: every chunk at hand, no reference yet. */
  ghost predicate IsLoaded(s: Series) {
    forall i :: 0 <= i < |s.chunks| ==> s.chunks[i].chunk.Some? && s.chunks[i].ref == 0
  }

  lemma PlacedChunksLoad(metas: seq<Meta>, before: seq<seq<Sample>>, after: seq<seq<Sample>>)
    requires forall i :: 0 <= i < |metas| ==> metas[i].chunk.Some? && metas[i].ref == 0
    ensures LoadChunks(Unloaded(Placed(metas, |before|)), before + Contents(metas) + after) == metas
  {
    var store := before + Contents(metas) + after;
    var loaded := LoadChunks(Unloaded(Placed(metas, |before|)), store);
    forall i | 0 <= i < |metas| ensures loaded[i] == metas[i] {
      assert store[|before| + i] == Contents(metas)[i];
    }
  }

  lemma ReadBackAppend(entries: seq<Entry>, e: Entry, chunks: seq<seq<Sample>>)
    ensures ReadBack(entries + [e], chunks) ==
      ReadBack(entries, chunks) + [Series(e.metric, LoadChunks(e.chunks, chunks))]
  {
  }

  /** Every chunk reference in the index leads back to the chunk it was made for. */
  lemma {:induction false} BlockReadsBack(series: seq<Series>, more: seq<seq<Sample>>)
    requires forall i :: 0 <= i < |series| ==> IsLoaded(series[i])
    ensures ReadBack(EntriesOf(series), ChunksIn(series) + more) == series
  {
    hide ReadBack, LoadChunks, Placed, Unloaded, Contents;
    if series == [] {
    } else {
      var n := |series| - 1;
      var last := series[n];
      var store := ChunksIn(series) + more;
      var done := ChunksIn(series[..n]);
      assert store == done + (Contents(last.chunks) + more);
      BlockReadsBack(series[..n], Contents(last.chunks) + more);
      PlacedChunksLoad(last.chunks, ChunksIn(series[..n]), more);
      ReadBackAppend(EntriesOf(series[..n]), EntriesOf(series)[n], store);
      assert series == series[..n] + [last];
    }
  }

  // ---------- Statistics ----------

  function AllChunks(series: seq<Series>): seq<Meta> {
    if series == [] then [] else AllChunks(series[..|series| - 1]) + series[|series| - 1].chunks
  }

  lemma {:induction false} CountChunksExactly(t: Totals, metas: seq<Meta>)
    ensures var r := CountChunks(t, metas);
      && r.stats == Stats(t.stats.numSeries, t.stats.numChunks + |metas|, t.stats.numSamples + |SamplesIn(metas)|)
      && r.minT <= t.minT && (forall m :: m in metas ==> r.minT <= m.minTime)
      && (r.minT == t.minT || exists m :: m in metas && m.minTime == r.minT)
      && r.maxT >= t.maxT && (forall m :: m in metas ==> m.maxTime <= r.maxT)
      && (r.maxT == t.maxT || exists m :: m in metas && m.maxTime == r.maxT)
  {
    if metas != [] {
      var n := |metas| - 1;
      CountChunksExactly(t, metas[..n]);
      assert metas == metas[..n] + [metas[n]];
      SamplesInAppend(metas[..n], [metas[n]]);
      assert SamplesIn([metas[n]]) == (if metas[n].chunk.Some? then metas[n].chunk.value else []) + SamplesIn([]);
    }
  }

  lemma {:induction false} SamplesInAppend(a: seq<Meta>, b: seq<Meta>)
    ensures SamplesIn(a + b) == SamplesIn(a) + SamplesIn(b)
  {
    if a == [] {
      assert a + b == b;
    } else {
      assert (a + b)[1..] == a[1..] + b;
      SamplesInAppend(a[1..], b);
    }
  }

  /** The counts are exact; minT and maxT are the tight bounds of the chunk ranges. */
  lemma {:induction false} TotalsAreExact(series: seq<Series>)
    ensures var t := TotalsOf(series); var all := AllChunks(series);
      && t.stats == Stats(|series|, |all|, |SamplesIn(all)|)
      && (forall m :: m in all ==> t.minT <= m.minTime && m.maxTime <= t.maxT)
      && (t.minT == MAX_INT64 || exists m :: m in all && m.minTime == t.minT)
      && (t.maxT == 0 || exists m :: m in all && m.maxTime == t.maxT)
      && t.minT <= MAX_INT64 && t.maxT >= 0
  {
    if series != [] {
      var n := |series| - 1;
      var t := TotalsOf(series[..n]);
      TotalsAreExact(series[..n]);
      CountChunksExactly(t.(stats := t.stats.(numSeries := t.stats.numSeries + 1)), series[n].chunks);
      SamplesInAppend(AllChunks(series[..n]), series[n].chunks);
    }
  }
}
