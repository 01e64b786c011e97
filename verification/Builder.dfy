/** The block builder, fed one series at a time in any order (Builder in pkg/tsdb/builder.go). */
module Builders {
  import opened Wrappers
  import opened Bytes
  import opened Orders
  import opened Labels
  import opened Chunks
  import opened RunMerge
  import opened SymbolsBatch
  import opened SeriesOrder
  import opened SeriesBatch
  import opened Blocks
  import opened Views
  import opened IndexFill

  class Builder {
    const minBlockTime: int    // 0 stands for no bound
    const maxBlockTime: int
    const symbols: SymbolsBatcher
    const series: SeriesBatcher
    const chunksForUnsortedSeries: ChunkWriter
    ghost var accepted: seq<Series>

    ghost predicate Valid()
      reads this, symbols, series, chunksForUnsortedSeries
    {
      && symbols.Valid() && series.Valid()
      && series.Added() == multiset(accepted)
      && Sound(View())
    }

    ghost function View(): View
      reads this, symbols, series, chunksForUnsortedSeries
    {
      Views.View(symbols.Added(), chunksForUnsortedSeries.chunks, accepted)
    }

    /** Both batchers get the symbols' batch size; the series' own is not used. */
    constructor (symbolsBatchSize: int, seriesBatchSize: int, minBlockTime: int, maxBlockTime: int)
      ensures Valid() && View() == EMPTY_VIEW
      ensures fresh(symbols) && fresh(series) && fresh(chunksForUnsortedSeries)
      ensures this.minBlockTime == minBlockTime && this.maxBlockTime == maxBlockTime
      ensures series.limit == symbols.limit == symbolsBatchSize
    {
      this.minBlockTime, this.maxBlockTime := minBlockTime, maxBlockTime;
      symbols := new SymbolsBatcher(symbolsBatchSize);
      series := new SeriesBatcher(symbolsBatchSize);
      chunksForUnsortedSeries := new ChunkWriter();
      accepted := [];
      new;
      symbols.AddSymbol([]);
    }

    method AddSymbols(lbls: LabelSet)
      requires symbols.Valid()
      modifies symbols
      ensures symbols.Valid()
      ensures symbols.Added() == old(symbols.Added()) + Strings(lbls)
    {
      hide Strings;
      NoStrings();
      for i := 0 to |lbls|
        invariant symbols.Valid()
        invariant symbols.Added() == old(symbols.Added()) + Strings(lbls[..i])
      {
        OneMoreLabel(lbls, i);
        symbols.AddSymbol(lbls[i].name);
        symbols.AddSymbol(lbls[i].value);
      }
      assert lbls[..|lbls|] == lbls;
    }

    method AddSeries(lbls: LabelSet, metas: seq<Meta>) returns (r: Result<(), AddError>)
      requires series.Valid()
      modifies series, this`accepted
      ensures series.Valid()
      ensures r == if !ValidNames(lbls) then Err(BadLabelNames)
                   else if exists i :: 0 <= i < |metas| && metas[i].ref == 0 then Err(NoReference)
                   else Ok(())
      ensures r.Ok? ==> series.Added() == old(series.Added()) + multiset{Series(lbls, Unloaded(metas))}
      ensures accepted == if r.Ok? then old(accepted) + [Series(lbls, Unloaded(metas))] else old(accepted)
      ensures r.Err? ==> series.Added() == old(series.Added())
    {
      hide Items, AllSorted;
      var prev: Str := [];
      for i := 0 to |lbls|
        invariant prev == if i == 0 then [] else lbls[i - 1].name
        invariant forall k :: 0 <= k < i ==> NameInPlace(lbls, k)
        invariant series.Valid() && series.Added() == old(series.Added()) && accepted == old(accepted)
      {
        assert NameInPlace(lbls, i) <==> Less(prev, lbls[i].name);
        if !Less(prev, lbls[i].name) {
          return Err(BadLabelNames);
        }
        prev := lbls[i].name;
      }
      var cleared := metas;
      for ix := 0 to |metas|
        invariant |cleared| == |metas|
        invariant cleared[..ix] == Unloaded(metas)[..ix] && cleared[ix..] == metas[ix..]
        invariant forall i :: 0 <= i < ix ==> metas[i].ref != 0
        invariant series.Valid() && series.Added() == old(series.Added()) && accepted == old(accepted)
      {
        assert cleared[ix] == metas[ix];
        if cleared[ix].ref == 0 {
          return Err(NoReference);
        }
        cleared := cleared[ix := cleared[ix].(chunk := None)];
      }
      assert cleared == Unloaded(metas);
      accepted := accepted + [Series(lbls, cleared)];
      series.AddSeries(Series(lbls, cleared));
      r := Ok(());
    }

    method AddSeriesWithSamples(lbls: LabelSet, samples: Stream) returns (r: Result<(), AddError>)
      requires Valid()
      modifies this`accepted, symbols, series, chunksForUnsortedSeries
      ensures Valid()
      ensures AddOutcome(old(View()), lbls, samples, minBlockTime, maxBlockTime, r, View())
    {
      hide Sound, Strings, KeptSamples, ChunksOf, IsOutcome, Contents, Placed, Unloaded, ValidNames, Items;
      var chks := SamplesToChunks(samples, minBlockTime, maxBlockTime);
      if chks.Err? {
        return Err(BadSamples(chks.error));
      }
      var metas := chks.value;
      if |metas| == 0 {
        return Ok(());
      }
      ghost var v := View();
      ghost var v1 := SymbolsAdded(v, lbls);
      ghost var v2 := ChunksWritten(v1, metas);
      AcceptedChunks(v1, samples, minBlockTime, maxBlockTime, metas, lbls);
      AddSymbols(lbls);
      SymbolsAddedKeepsSound(v, lbls);
      metas := chunksForUnsortedSeries.WriteChunks(metas);
      ChunksWrittenKeepsSound(v1, chks.value);
      assert View() == v2;
      r := AddSeries(lbls, metas);
      if r.Ok? {
        SeriesAddedKeepsSound(v2, Series(lbls, Unloaded(metas)));
      }
    }

    /** Succeeds exactly if the accepted series can be told apart by their labels. */
    method FinishBlock() returns (r: Result<Block, FinishError>)
      requires Valid()
      modifies symbols, series
      ensures Valid() && View() == old(View())
      ensures r.Ok? <==> Distinct(multiset(accepted))
      ensures r.Err? ==> r.error == DuplicateSeries
      ensures r.Ok? ==> IsBlock(r.value, View().symbols, Content(View()))
    {
      hide Sound, Symbols, Items, Distinct, Content, SymbolsWritten, AllSeriesWritten, AllSorted, ToInt64;
      symbols.FlushSymbols(true);
      series.FlushSeries(true);
      assert symbols.Added() == Symbols(symbols.files);
      var indexWriter := new IndexWriter();
      var ok := AddSymbolsToIndexWriter(indexWriter, symbols.files);
      AllSymbolsWritten(Symbols(symbols.files), indexWriter.symbols);
      var chunksWriter := new ChunkWriter();
      var totals := AddSeriesToIndex(indexWriter, chunksWriter, series.files,
                                     chunksForUnsortedSeries.chunks, View());
      if totals.Err? {
        return Err(totals.error);
      }
      var t := totals.value;
      r := Ok(Block(indexWriter.symbols, indexWriter.entries, chunksWriter.chunks,
                    t.stats, t.minT, ToInt64(t.maxT + 1)));
      WrittenBlock(View(), r.value, t);
    }
  }

  lemma AllSymbolsWritten(all: set<Str>, out: seq<Str>)
    requires SymbolsWritten(all, out, {})
    ensures forall s :: s in all ==> s in out
  {
  }

  lemma WrittenBlock(v: View, b: Block, t: Totals)
    requires SymbolsWritten(v.symbols, b.symbols, {})
    requires AllSeriesWritten(v, b.entries, b.chunks, t)
    requires b.stats == t.stats && b.minTime == t.minT && b.maxTime == ToInt64(t.maxT + 1)
    ensures IsBlock(b, v.symbols, Content(v))
  {
    var loaded :|
      && StrictlySorted(SeriesBefore, loaded) && multiset(loaded) == Content(v)
      && SeriesWritten(loaded, b.entries, b.chunks, t);
    assert b == BlockOf(b.symbols, loaded);
  }

  lemma AcceptedChunks(v: View, samples: Stream, minBlockTime: int, maxBlockTime: int, metas: seq<Meta>, lbls: LabelSet)
    requires IsOutcome(samples, minBlockTime, maxBlockTime, Ok(metas)) && metas != []
    requires Strings(lbls) <= v.symbols
    ensures HasChunks(metas)
    ensures forall i :: 0 <= i < |Placed(metas, |v.store|)| ==> Placed(metas, |v.store|)[i].ref != 0
    ensures ValidNames(lbls) ==>
      SoundSeries(ChunksWritten(v, metas), Series(lbls, Unloaded(Placed(metas, |v.store|))))
  {
    var kept := KeptSamples(samples.items, minBlockTime, maxBlockTime);
    FaultlessStreamIncreases(samples.items, minBlockTime, maxBlockTime);
    ChunksPartitionSamples(kept);
    assert kept != [] && AreChunks(metas);
    WrittenChunksResolve(v, metas);
  }
}
