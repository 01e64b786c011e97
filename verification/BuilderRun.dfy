/** The builder's own code as runs of the locked sections, and its block against that of CreateBlock. */
module BuilderRun {
  import opened Wrappers
  import opened Bytes
  import opened Orders
  import opened Labels
  import opened Chunks
  import opened SeriesOrder
  import opened Blocks
  import opened Views
  import opened InMemory
  import opened CreateBlock
  import opened Builders
  import opened ConcurrentAdd

  /** What a method call does is a sequence of sections: the converse of UninterruptedCall. */
  lemma CallIsMoves(call: InMemorySeries, minBlockTime: int, maxBlockTime: int, v: View,
                    r: Result<(), AddError>, w: View)
    returns (cut: Stage, v1: View, stored: Stage, v2: View, written: Stage)
    requires AddOutcome(v, call.metric, call.samples, minBlockTime, maxBlockTime, r, w)
    ensures Moves(call, minBlockTime, maxBlockTime, v, Called, v, cut)
    ensures cut.Returned? ==> cut == Returned(r) && w == v
    ensures !cut.Returned? ==>
      && Moves(call, minBlockTime, maxBlockTime, v, cut, v1, stored)
      && Moves(call, minBlockTime, maxBlockTime, v1, stored, v2, written)
      && Moves(call, minBlockTime, maxBlockTime, v2, written, w, Returned(r))
  {
    hide IsOutcome, ValidNames, Contents, Placed, Unloaded, Strings;
    var chks: Result<seq<Meta>, ChunkError> :|
      && IsOutcome(call.samples, minBlockTime, maxBlockTime, chks)
      && match chks
         case Err(e) => r == Err(AddError.BadSamples(e)) && w == v
         case Ok(metas) =>
           if metas == [] then r == Ok(()) && w == v
           else
             var u := ChunksWritten(SymbolsAdded(v, call.metric), metas);
             if ValidNames(call.metric) then
               r == Ok(()) && w == SeriesAdded(u, Series(call.metric, Unloaded(Placed(metas, |v.store|))))
             else r == Err(BadLabelNames) && w == u;
    cut, v1, v2 := AfterCutting(chks), v, v;
    stored, written := cut, cut;
    if cut.Cut? {
      var metas := chks.value;
      v1, stored := SymbolsAdded(v, call.metric), SymbolsStored(metas);
      v2, written := ChunksWritten(v1, metas), ChunksStored(Placed(metas, |v1.store|));
    }
  }

  /** Some run from the empty builder comes to `s`. */
  ghost predicate RunTo(c: Calls, s: State) {
    exists states :: Run(c, states) && states[|states| - 1] == s
  }

  lemma RunFrom(c: Calls, s: State)
    requires Init(c, s)
    ensures RunTo(c, s)
  {
    assert Run(c, [s]);
  }

  lemma RunOn(c: Calls, s: State, t: State, i: nat)
    requires RunTo(c, s) && i < |c.series| && Step(c, s, t, i)
    ensures RunTo(c, t)
  {
    hide Step;
    var states :| Run(c, states) && states[|states| - 1] == s;
    var longer := states + [t];
    assert SomeCallMoves(c, s, t);
    forall k | 0 < k < |longer| ensures SomeCallMoves(c, longer[k - 1], longer[k]) {
      assert k < |states| ==> SomeCallMoves(c, states[k - 1], states[k]);
    }
    assert Run(c, longer);
  }

  /** A method call takes a run from its start to its end. */
  lemma CallRunsOn(c: Calls, s: State, i: nat, r: Result<(), AddError>, w: View)
    requires RunTo(c, s) && |s.stages| == |c.series| && i < |c.series| && s.stages[i] == Called
    requires AddOutcome(s.view, c.series[i].metric, c.series[i].samples, c.minBlockTime, c.maxBlockTime, r, w)
    ensures RunTo(c, State(w, s.stages[i := Returned(r)]))
  {
    hide Moves, AddOutcome, RunTo;
    var cut, v1, stored, v2, written := CallIsMoves(c.series[i], c.minBlockTime, c.maxBlockTime, s.view, r, w);
    var s1 := State(s.view, s.stages[i := cut]);
    RunOn(c, s, s1, i);
    if !cut.Returned? {
      var s2 := State(v1, s.stages[i := stored]);
      var s3 := State(v2, s.stages[i := written]);
      assert s2.stages == s1.stages[i := stored] && s3.stages == s2.stages[i := written];
      assert s.stages[i := Returned(r)] == s3.stages[i := Returned(r)];
      RunOn(c, s1, s2, i);
      RunOn(c, s2, s3, i);
      RunOn(c, s3, State(w, s.stages[i := Returned(r)]), i);
    }
  }

  lemma FailedCallIsRefused(c: Calls, i: nat, v: View, e: AddError, w: View)
    requires i < |c.series|
    requires AddOutcome(v, c.series[i].metric, c.series[i].samples, c.minBlockTime, c.maxBlockTime, Err(e), w)
    ensures !c.Accepts(i)
  {
  }

  /** The block with what some run, every call of which succeeded, has left in the builder. */
  ghost predicate IsBlockOfRun(c: Calls, b: Block) {
    exists s :: RunTo(c, s) && AllSucceeded(s) && IsBlock(b, s.view.symbols, Content(s.view))
  }

  /** The block of exactly these series and the strings in their labels. */
  ghost predicate IsBlockWith(b: Block, series: seq<InMemorySeries>) {
    IsBlock(b, MemorySymbols(series), multiset(LoadedSeriesOf(series)))
  }

  datatype BuildError = NotAdded(e: AddError) | NotFinished

  /** Feeds the builder one series after the other, in any order the caller likes, and finishes the block. */
  method BuildBlock(c: Calls, symbolsBatchSize: int, seriesBatchSize: int) returns (r: Result<Block, BuildError>)
    ensures r.Ok? <==> c.AllAccepted() && DistinctLabels(LoadedSeriesOf(c.AllOwn()))
    ensures r.Ok? ==> IsBlockWith(r.value, c.AllOwn()) && IsBlockOfRun(c, r.value)
    ensures r.Err? ==> (r.error == NotFinished <==> c.AllAccepted())
  {
    hide RunTo, AddOutcome, IsBlock, Content, Distinct, DistinctLabels, Sound, LoadedSeriesOf, MemorySymbols;
    hide Calls.AllOwn, Calls.Accepts, Builder.Valid;
    var builder := new Builder(symbolsBatchSize, seriesBatchSize, c.minBlockTime, c.maxBlockTime);
    ghost var last := State(EMPTY_VIEW, seq(|c.series|, i => Called));
    RunFrom(c, last);
    for k := 0 to |c.series|
      invariant builder.Valid() && builder.View() == last.view
      invariant fresh(builder.symbols) && fresh(builder.series) && fresh(builder.chunksForUnsortedSeries)
      invariant |last.stages| == |c.series| && RunTo(c, last)
      invariant forall i :: 0 <= i < k ==> last.stages[i] == Returned(Ok(()))
      invariant forall i :: k <= i < |c.series| ==> last.stages[i] == Called
    {
      var added := builder.AddSeriesWithSamples(c.series[k].metric, c.series[k].samples);
      CallRunsOn(c, last, k, added, builder.View());
      if added.Err? {
        FailedCallIsRefused(c, k, last.view, added.error, builder.View());
        return Err(NotAdded(added.error));
      }
      last := State(builder.View(), last.stages[k := Returned(added)]);
      assert added.value == ();
    }
    CompletedRun(c, last);
    var block := builder.FinishBlock();
    r := if block.Ok? then Ok(block.value) else Err(NotFinished);
  }

  lemma CompletedRun(c: Calls, s: State)
    requires RunTo(c, s) && AllSucceeded(s)
    ensures c.AllAccepted()
    ensures Distinct(multiset(s.view.series)) <==> DistinctLabels(LoadedSeriesOf(c.AllOwn()))
    ensures Content(s.view) == multiset(LoadedSeriesOf(c.AllOwn()))
    ensures s.view.symbols == MemorySymbols(c.AllOwn())
  {
    hide Distinct, DistinctLabels, Content, LoadedSeriesOf, Init, Inv, AllSucceeded, SomeCallMoves, Calls.Accepts;
    var states :| Run(c, states) && states[|states| - 1] == s;
    RunKeepsInv(c, states, |states| - 1);
    SucceededIsAccepted(c, s);
    CompletedIsDistinctIff(c, s);
    CompletedRunHoldsAll(c, s);
  }

  /**
   * The two ways of making a block: the builder from the series in any order and with any batch
   * size, CreateBlock from the sorted series as far as they lie within the builder's bounds. The
   * blocks are equal. Both ways succeed together, but for what only the builder sees: faults in
   * reading or in samples outside the bounds, and the order of label names.
   */
  method BuildBothWays(c: Calls, sorted: seq<InMemorySeries>, symbolsBatchSize: int, seriesBatchSize: int)
    returns (built: Result<Block, BuildError>, created: Result<Block, CreateError>)
    requires multiset(sorted) == multiset(c.AllOwn()) && Sorted(SeriesBefore, LoadedSeriesOf(sorted))
    ensures built.Ok? && created.Ok? ==> built.value == created.value
    ensures built.Ok? <==> created.Ok? && c.AllAccepted()
  {
    hide IsBlock, Creatable, DistinctLabels, Sorted, LoadedSeriesOf, MemorySymbols;
    hide Calls.OwnOfFirst, Calls.Accepts, GoodSamples, IsBlockOfRun;
    built := BuildBlock(c, symbolsBatchSize, seriesBatchSize);
    created := CreateBlock.CreateBlock(sorted);
    SameSymbols(sorted, c.AllOwn());
    LoadedPermutation(sorted, c.AllOwn());
    if c.AllAccepted() {
      OwnSamplesAreGood(c, sorted);
      SortedIsCreatable(sorted);
      SameDistinctLabels(sorted, c.AllOwn());
    }
    if built.Ok? && created.Ok? {
      BlockIsUnique(built.value, created.value, MemorySymbols(sorted), multiset(LoadedSeriesOf(sorted)));
    }
  }

  // ---------- Series without samples ----------

  /**
   * Without time bounds and given the very same series, the builder leaves out those without
   * samples and CreateBlock does not: the blocks are equal exactly if there is no such series.
   */
  method BuildWholeBothWays(series: seq<InMemorySeries>, sorted: seq<InMemorySeries>,
                            symbolsBatchSize: int, seriesBatchSize: int)
    returns (built: Result<Block, BuildError>, created: Result<Block, CreateError>)
    requires multiset(sorted) == multiset(series)
    ensures var c := Calls(series, 0, 0);
      && (created.Ok? ==> (built.Ok? <==> c.AllAccepted()))
      && (built.Ok? && created.Ok? ==> (built.value == created.value <==> c.AllKeepSamples()))
  {
    hide IsBlock, Creatable, DistinctLabels, LoadedSeriesOf, MemorySymbols;
    hide Calls.OwnOfFirst, Calls.Kept, Calls.Accepts, IsBlockOfRun;
    var c := Calls(series, 0, 0);
    built := BuildBlock(c, symbolsBatchSize, seriesBatchSize);
    created := CreateBlock.CreateBlock(sorted);
    if created.Ok? {
      OwnLabelsStayDistinct(c, sorted);
      if built.Ok? {
        SameBlockIff(c, sorted, built.value, created.value);
      }
    }
  }

  lemma OwnLabelsStayDistinct(c: Calls, sorted: seq<InMemorySeries>)
    requires Creatable(sorted) && multiset(sorted) == multiset(c.series)
    ensures DistinctLabels(LoadedSeriesOf(c.AllOwn()))
  {
    CreatableIsDistinct(sorted);
    SameDistinctLabels(sorted, c.series);
    DistinctOwn(c, |c.series|);
  }

  /** Dropping series keeps distinct labels distinct. */
  lemma {:induction false} DistinctOwn(c: Calls, n: nat)
    requires n <= |c.series| && DistinctLabels(LoadedSeriesOf(c.series))
    ensures DistinctLabels(LoadedSeriesOf(c.OwnOfFirst(n)))
  {
    hide Calls.Kept;
    if n > 0 {
      DistinctOwn(c, n - 1);
      var own, longer := c.OwnOfFirst(n - 1), c.OwnOfFirst(n);
      var all := LoadedSeriesOf(c.series);
      if c.Kept(n - 1) != [] {
        LoadedSeriesConcat(own, [c.Own(n - 1)]);
        forall k | 0 <= k < |own| ensures own[k].metric != c.series[n - 1].metric {
          OwnSeriesAre(c, n - 1, own[k]);
          var i :| 0 <= i < n - 1 && c.Kept(i) != [] && own[k] == c.Own(i);
          assert all[i].metric != all[n - 1].metric;
        }
        assert all[n - 1].metric != [];
        assert LoadedSeriesOf(longer)[|own|].metric == c.series[n - 1].metric;
      } else {
        assert longer == own;
      }
    }
  }

  /** Without time bounds, the own series are as many as the calls if none is dropped, and then hold the same. */
  lemma {:induction false} OwnAreAllIff(c: Calls, n: nat)
    requires c.minBlockTime == 0 && c.maxBlockTime == 0 && n <= |c.series|
    ensures |c.OwnOfFirst(n)| <= n
    ensures |c.OwnOfFirst(n)| == n <==> forall i :: 0 <= i < n ==> c.Kept(i) != []
    ensures |c.OwnOfFirst(n)| == n ==>
      && LoadedSeriesOf(c.OwnOfFirst(n)) == LoadedSeriesOf(c.series[..n])
      && MemorySymbols(c.OwnOfFirst(n)) == MemorySymbols(c.series[..n])
  {
    hide KeptSamples, Strings, ChunksOf, LoadedSeriesOf;
    if n > 0 {
      OwnAreAllIff(c, n - 1);
      if c.Kept(n - 1) != [] {
        var own, first := c.OwnOfFirst(n - 1), c.series[..n - 1];
        AllKeptIffPositiveIncreasing(c.Kept(n - 1));
        LoadedSeriesAppend(c.series, n - 1);
        LoadedSeriesConcat(own, [c.Own(n - 1)]);
        LoadedSingle(c.Own(n - 1));
        assert c.OwnOfFirst(n)[..|own|] == own && c.series[..n][..n - 1] == first;
      }
    }
  }

  lemma SameBlockIff(c: Calls, sorted: seq<InMemorySeries>, built: Block, created: Block)
    requires c.minBlockTime == 0 && c.maxBlockTime == 0 && multiset(sorted) == multiset(c.series)
    requires IsBlockWith(built, c.AllOwn()) && IsBlockWith(created, sorted)
    ensures built == created <==> c.AllKeepSamples()
  {
    hide IsBlock, LoadedSeriesOf, MemorySymbols, Calls.OwnOfFirst, Calls.Kept;
    OwnAreAllIff(c, |c.series|);
    EntryForEachSeries(built, MemorySymbols(c.AllOwn()), multiset(LoadedSeriesOf(c.AllOwn())));
    EntryForEachSeries(created, MemorySymbols(sorted), multiset(LoadedSeriesOf(sorted)));
    assert |sorted| == |multiset(sorted)| == |c.series|;
    if c.AllKeepSamples() {
      assert c.series[..|c.series|] == c.series;
      SameSymbols(sorted, c.series);
      LoadedPermutation(sorted, c.series);
      BlockIsUnique(built, created, MemorySymbols(sorted), multiset(LoadedSeriesOf(sorted)));
    }
  }

  lemma EntryForEachSeries(b: Block, symbols: set<Str>, content: multiset<Series>)
    requires IsBlock(b, symbols, content)
    ensures |b.entries| == |content|
  {
  }
}
