/**
 * Concurrent calls of AddSeriesWithSamples, interleaved in any way at the points where
 * they take and release the builder's locks, against CreateBlock on the sorted series.
 */
module ConcurrentAdd {
  import opened Wrappers
  import opened Bytes
  import opened Orders
  import opened Labels
  import opened Chunks
  import opened SeriesOrder
  import opened Blocks
  import opened Views
  import opened InMemory

  /** Where one call stands. */
  datatype Stage =
    | Called
    | Cut(metas: seq<Meta>)
    | SymbolsStored(metas: seq<Meta>)
    | ChunksStored(metas: seq<Meta>)
    | Returned(r: Result<(), AddError>)

  datatype State = State(view: View, stages: seq<Stage>)

  /** The calls made, each with its labels and samples, and the builder's time bounds. */
  datatype Calls = Calls(series: seq<InMemorySeries>, minBlockTime: int, maxBlockTime: int) {
    function Kept(i: nat): seq<Sample>
      requires i < |series|
    {
      KeptSamples(series[i].samples.items, minBlockTime, maxBlockTime)
    }

    ghost predicate Good(i: nat)
      requires i < |series|
    {
      var samples := series[i].samples;
      FaultFree(samples.items, |samples.items|, minBlockTime, maxBlockTime) && !samples.err
    }

    /** The samples can be cut and, if there are any within the bounds, the label names are in order. */
    ghost predicate Accepts(i: nat)
      requires i < |series|
    {
      Good(i) && (Kept(i) != [] ==> ValidNames(series[i].metric))
    }

    ghost predicate AllAccepted() {
      forall i :: 0 <= i < |series| ==> Accepts(i)
    }

    ghost predicate AllKeepSamples() {
      forall i :: 0 <= i < |series| ==> Kept(i) != []
    }

    /** What call `i` is to contribute: nothing if it keeps no sample. */
    ghost function Contribution(i: nat): multiset<Series>
      requires i < |series|
    {
      if Kept(i) == [] then multiset{} else multiset{Series(series[i].metric, ChunksOf(Kept(i)))}
    }

    /** Call `i`'s series, cut down to the samples within the bounds. */
    function Own(i: nat): InMemorySeries
      requires i < |series|
    {
      InMemorySeries(series[i].metric, Stream(Floats(Kept(i)), false))
    }

    /** The series of the first `n` calls within the bounds, without those that keep no sample. */
    function OwnOfFirst(n: nat): seq<InMemorySeries>
      requires n <= |series|
    {
      if n == 0 then []
      else OwnOfFirst(n - 1) + if Kept(n - 1) == [] then [] else [Own(n - 1)]
    }

    function AllOwn(): seq<InMemorySeries> {
      OwnOfFirst(|series|)
    }
  }

  ghost predicate Init(c: Calls, s: State) {
    s.view == EMPTY_VIEW && |s.stages| == |c.series| && forall i :: 0 <= i < |s.stages| ==> s.stages[i] == Called
  }

  function AfterCutting(chks: Result<seq<Meta>, ChunkError>): Stage {
    if chks.Err? then Returned(Err(AddError.BadSamples(chks.error)))
    else if chks.value == [] then Returned(Ok(()))
    else Cut(chks.value)
  }

  ghost predicate CutsTo(samples: Stream, minBlockTime: int, maxBlockTime: int, to: Stage) {
    exists chks :: IsOutcome(samples, minBlockTime, maxBlockTime, chks) && to == AfterCutting(chks)
  }

  /** The next locked section of one call: its effect on the view and where the call then stands. */
  ghost predicate Moves(call: InMemorySeries, minBlockTime: int, maxBlockTime: int,
                        v: View, from: Stage, w: View, to: Stage)
  {
    match from
    case Called =>
      w == v && CutsTo(call.samples, minBlockTime, maxBlockTime, to)
    case Cut(metas) => w == SymbolsAdded(v, call.metric) && to == SymbolsStored(metas)
    case SymbolsStored(metas) => w == ChunksWritten(v, metas) && to == ChunksStored(Placed(metas, |v.store|))
    case ChunksStored(metas) =>
      if ValidNames(call.metric) then
        w == SeriesAdded(v, Series(call.metric, Unloaded(metas))) && to == Returned(Ok(()))
      else w == v && to == Returned(Err(BadLabelNames))
    case Returned(_) => false
  }

  ghost predicate Step(c: Calls, s: State, s': State, i: nat)
    requires i < |c.series|
  {
    && |s.stages| == |s'.stages| == |c.series|
    && Moves(c.series[i], c.minBlockTime, c.maxBlockTime, s.view, s.stages[i], s'.view, s'.stages[i])
    && s'.stages == s.stages[i := s'.stages[i]]
  }

  /** A call whose sections follow each other directly does what the method's contract says. */
  lemma UninterruptedCall(call: InMemorySeries, minBlockTime: int, maxBlockTime: int, v: View, cut: Stage,
                          v1: View, stored: Stage, v2: View, written: Stage, w: View, done: Stage)
    requires Moves(call, minBlockTime, maxBlockTime, v, Called, v, cut)
    requires cut.Returned? ==> done == cut && w == v
    requires !cut.Returned? ==>
      && Moves(call, minBlockTime, maxBlockTime, v, cut, v1, stored)
      && Moves(call, minBlockTime, maxBlockTime, v1, stored, v2, written)
      && Moves(call, minBlockTime, maxBlockTime, v2, written, w, done)
    ensures done.Returned? && AddOutcome(v, call.metric, call.samples, minBlockTime, maxBlockTime, done.r, w)
  {
    var chks :| IsOutcome(call.samples, minBlockTime, maxBlockTime, chks) && cut == AfterCutting(chks);
  }

  /** A run of any length, one call moving at a time. */
  ghost predicate Run(c: Calls, states: seq<State>) {
    && states != [] && Init(c, states[0])
    && forall k :: 0 < k < |states| ==> SomeCallMoves(c, states[k - 1], states[k])
  }

  ghost predicate SomeCallMoves(c: Calls, s: State, s': State) {
    exists i :: 0 <= i < |c.series| && Step(c, s, s', i)
  }

  // ---------- The invariant ----------

  /** Call `i` holds its own chunks, and what it has stored so far can be found again. */
  ghost predicate StageHolds(c: Calls, v: View, i: nat, stage: Stage)
    requires i < |c.series|
  {
    match stage
    case Called => true
    case Cut(metas) => c.Good(i) && metas != [] && metas == ChunksOf(c.Kept(i))
    case SymbolsStored(metas) =>
      c.Good(i) && metas != [] && metas == ChunksOf(c.Kept(i)) && Strings(c.series[i].metric) <= v.symbols
    case ChunksStored(metas) =>
      && c.Good(i) && c.Kept(i) != [] && Strings(c.series[i].metric) <= v.symbols
      && RefsResolve(Unloaded(metas), v.store) && LoadChunks(Unloaded(metas), v.store) == ChunksOf(c.Kept(i))
    case Returned(r) =>
      r.Ok? ==> c.Good(i) && (c.Kept(i) != [] ==>
        Strings(c.series[i].metric) <= v.symbols && ValidNames(c.series[i].metric))
  }

  /** What the calls that have returned without error contributed. */
  ghost function Accepted(c: Calls, stages: seq<Stage>, n: nat): multiset<Series>
    requires n <= |stages| == |c.series|
  {
    if n == 0 then multiset{}
    else Accepted(c, stages, n - 1) + if stages[n - 1] == Returned(Ok(())) then c.Contribution(n - 1) else multiset{}
  }

  /** Every symbol was asked for: it is "" or occurs in the labels of a call that keeps samples. */
  ghost predicate AskedFor(c: Calls, x: Str) {
    x == [] || exists i :: 0 <= i < |c.series| && c.Good(i) && c.Kept(i) != [] && x in Strings(c.series[i].metric)
  }

  ghost predicate Inv(c: Calls, s: State) {
    && |s.stages| == |c.series|
    && Sound(s.view)
    && (forall i :: 0 <= i < |s.stages| ==> StageHolds(c, s.view, i, s.stages[i]))
    && Content(s.view) == Accepted(c, s.stages, |s.stages|)
    && (forall x :: x in s.view.symbols ==> AskedFor(c, x))
  }

  lemma {:induction false} NobodyReturned(c: Calls, stages: seq<Stage>, n: nat)
    requires n <= |stages| == |c.series| && forall i :: 0 <= i < n ==> stages[i] == Called
    ensures Accepted(c, stages, n) == multiset{}
  {
    if n > 0 {
      NobodyReturned(c, stages, n - 1);
    }
  }

  lemma InitHolds(c: Calls, s: State)
    requires Init(c, s)
    ensures Inv(c, s)
  {
    NobodyReturned(c, s.stages, |s.stages|);
    assert LoadAll([], []) == [];
  }

  /** One call moving on changes the sum by its own term only. */
  lemma {:induction false} AcceptedAfterMove(c: Calls, stages: seq<Stage>, i: nat, to: Stage, n: nat)
    requires n <= |stages| == |c.series| && i < |stages|
    requires stages[i] != Returned(Ok(()))
    ensures Accepted(c, stages[i := to], n) ==
      Accepted(c, stages, n) + if i < n && to == Returned(Ok(())) then c.Contribution(i) else multiset{}
  {
    hide Calls.Contribution, Calls.Kept;
    if n > 0 {
      AcceptedAfterMove(c, stages, i, to, n - 1);
    }
  }

  /** What a call has stored is still there after any other step. */
  lemma StageHoldsInLargerView(c: Calls, v: View, w: View, more: seq<seq<Sample>>, i: nat, stage: Stage)
    requires i < |c.series| && StageHolds(c, v, i, stage)
    requires v.symbols <= w.symbols && w.store == v.store + more
    ensures StageHolds(c, w, i, stage)
  {
    if stage.ChunksStored? {
      LoadedFromLargerStore(Unloaded(stage.metas), v.store, more);
    }
  }

  /** The step itself, for the call that moves. */
  lemma MoveHolds(c: Calls, v: View, w: View, i: nat, from: Stage, to: Stage) returns (more: seq<seq<Sample>>)
    requires i < |c.series| && Sound(v) && StageHolds(c, v, i, from)
    requires Moves(c.series[i], c.minBlockTime, c.maxBlockTime, v, from, w, to)
    ensures Sound(w) && StageHolds(c, w, i, to)
    ensures v.symbols <= w.symbols && w.store == v.store + more
    ensures Content(w) == Content(v) + if to == Returned(Ok(())) then c.Contribution(i) else multiset{}
    ensures forall x :: x in w.symbols ==> x in v.symbols || AskedFor(c, x)
  {
    var call := c.series[i];
    more := [];
    assert v.store + [] == v.store;
    match from
    case Called =>
      OutcomeOfCall(c, i, to);
    case Cut(metas) =>
      SymbolsAddedKeepsSound(v, call.metric);
    case SymbolsStored(metas) =>
      more := Contents(metas);
      ChunksWrittenKeepsSound(v, metas);
      ChunksPartitionSamples(c.Kept(i));
      WrittenChunksResolve(v, metas);
    case ChunksStored(metas) =>
      if ValidNames(call.metric) {
        var s := Series(call.metric, Unloaded(metas));
        FaultlessStreamIncreases(call.samples.items, c.minBlockTime, c.maxBlockTime);
        assert AreChunks(ChunksOf(c.Kept(i)));
        SeriesAddedKeepsSound(v, s);
      }
  }

  lemma OutcomeOfCall(c: Calls, i: nat, to: Stage)
    requires i < |c.series|
    requires CutsTo(c.series[i].samples, c.minBlockTime, c.maxBlockTime, to)
    ensures StageHolds(c, EMPTY_VIEW, i, to) && !to.SymbolsStored? && !to.ChunksStored?
    ensures to == Returned(Ok(())) ==> c.Contribution(i) == multiset{}
  {
  }

  lemma StepKeepsInv(c: Calls, s: State, s': State, i: nat)
    requires Inv(c, s) && i < |c.series| && Step(c, s, s', i)
    ensures Inv(c, s')
  {
    hide Sound, Content, Moves, AskedFor, StageHolds, Accepted;
    var more := MoveHolds(c, s.view, s'.view, i, s.stages[i], s'.stages[i]);
    forall j | 0 <= j < |s'.stages| ensures StageHolds(c, s'.view, j, s'.stages[j]) {
      if j != i {
        StageHoldsInLargerView(c, s.view, s'.view, more, j, s.stages[j]);
      }
    }
    NotReturnedYet(c, s, s', i);
    AcceptedAfterMove(c, s.stages, i, s'.stages[i], |s.stages|);
  }

  lemma NotReturnedYet(c: Calls, s: State, s': State, i: nat)
    requires i < |c.series| && Step(c, s, s', i)
    ensures !s.stages[i].Returned?
  {
  }

  lemma {:induction false} RunKeepsInv(c: Calls, states: seq<State>, k: nat)
    requires Run(c, states) && k < |states|
    ensures Inv(c, states[k])
  {
    if k == 0 {
      InitHolds(c, states[0]);
    } else {
      RunKeepsInv(c, states, k - 1);
      assert SomeCallMoves(c, states[k - 1], states[k]);
      var i :| 0 <= i < |c.series| && Step(c, states[k - 1], states[k], i);
      StepKeepsInv(c, states[k - 1], states[k], i);
    }
  }

  // ---------- Every interleaving leads to the same block as CreateBlock ----------

  ghost predicate AllSucceeded(s: State) {
    forall i :: 0 <= i < |s.stages| ==> s.stages[i] == Returned(Ok(()))
  }

  lemma OwnContribution(c: Calls, i: nat)
    requires i < |c.series| && c.Kept(i) != []
    ensures c.Contribution(i) == multiset{LoadedSeries(c.Own(i))}
  {
    AllKeptIffPositiveIncreasing(c.Kept(i));
  }

  lemma {:induction false} AcceptedAll(c: Calls, stages: seq<Stage>, n: nat)
    requires n <= |stages| == |c.series|
    requires forall i :: 0 <= i < |stages| ==> stages[i] == Returned(Ok(()))
    ensures Accepted(c, stages, n) == multiset(LoadedSeriesOf(c.OwnOfFirst(n)))
  {
    hide LoadedSeriesOf, LoadedSeries, Calls.Kept, Calls.Own;
    if n == 0 {
      assert LoadedSeriesOf([]) == [];
    } else {
      AcceptedAll(c, stages, n - 1);
      if c.Kept(n - 1) == [] {
        assert c.OwnOfFirst(n) == c.OwnOfFirst(n - 1);
      } else {
        LoadedSeriesConcat(c.OwnOfFirst(n - 1), [c.Own(n - 1)]);
        OwnContribution(c, n - 1);
        LoadedSingle(c.Own(n - 1));
      }
    }
  }

  lemma LoadedSingle(s: InMemorySeries)
    ensures LoadedSeriesOf([s]) == [LoadedSeries(s)]
  {
  }

  lemma {:induction false} OwnSeriesAre(c: Calls, n: nat, s: InMemorySeries)
    requires n <= |c.series|
    ensures s in c.OwnOfFirst(n) <==> exists i :: 0 <= i < n && c.Kept(i) != [] && s == c.Own(i)
  {
    hide Calls.Kept, Calls.Own;
    if n > 0 {
      OwnSeriesAre(c, n - 1, s);
    }
  }

  lemma {:induction false} LoadedPermutation(a: seq<InMemorySeries>, b: seq<InMemorySeries>)
    requires multiset(a) == multiset(b)
    ensures multiset(LoadedSeriesOf(a)) == multiset(LoadedSeriesOf(b))
  {
    if a == [] {
      assert |b| == |multiset(b)| == 0;
    } else {
      var n := |a| - 1;
      var i := MatchLast(a, b);
      var others := b[..i] + b[i + 1..];
      LoadedPermutation(a[..n], others);
      assert a[..n + 1] == a;
      LoadedSeriesAppend(a, n);
      LoadedSeriesConcat(b[..i], b[i + 1..]);
      LoadedSeriesConcat(b[..i] + [b[i]], b[i + 1..]);
      LoadedSeriesConcat(b[..i], [b[i]]);
      assert b == b[..i] + [b[i]] + b[i + 1..];
    }
  }

  lemma LoadedSeriesConcat(a: seq<InMemorySeries>, b: seq<InMemorySeries>)
    ensures LoadedSeriesOf(a + b) == LoadedSeriesOf(a) + LoadedSeriesOf(b)
  {
  }

  lemma {:induction false} MemorySymbolsAre(series: seq<InMemorySeries>, x: Str)
    ensures x in MemorySymbols(series) <==> x == [] || exists s :: s in series && x in Strings(s.metric)
  {
    if series != [] {
      var n := |series| - 1;
      MemorySymbolsAre(series[..n], x);
      assert series == series[..n] + [series[n]];
    }
  }

  lemma OwnSymbolsAre(c: Calls, x: Str)
    ensures x in MemorySymbols(c.AllOwn()) <==>
      x == [] || exists i :: 0 <= i < |c.series| && c.Kept(i) != [] && x in Strings(c.series[i].metric)
  {
    hide Strings, MemorySymbols, Calls.Kept, Calls.OwnOfFirst;
    MemorySymbolsAre(c.AllOwn(), x);
    if i :| 0 <= i < |c.series| && c.Kept(i) != [] && x in Strings(c.series[i].metric) {
      OwnSeriesAre(c, |c.series|, c.Own(i));
      assert c.Own(i) in c.AllOwn();
    }
    if s :| s in c.AllOwn() && x in Strings(s.metric) {
      OwnSeriesAre(c, |c.series|, s);
    }
  }

  /** When all calls have returned without error, the view holds exactly their series and symbols. */
  lemma CompletedRunHoldsAll(c: Calls, s: State)
    requires Inv(c, s) && AllSucceeded(s)
    ensures Content(s.view) == multiset(LoadedSeriesOf(c.AllOwn()))
    ensures s.view.symbols == MemorySymbols(c.AllOwn())
  {
    hide Content, LoadedSeriesOf, MemorySymbols, Strings, SoundSeries, Calls.Kept, Calls.OwnOfFirst;
    AcceptedAll(c, s.stages, |s.stages|);
    forall x ensures x in s.view.symbols <==> x in MemorySymbols(c.AllOwn()) {
      OwnSymbolsAre(c, x);
      if i :| 0 <= i < |c.series| && c.Kept(i) != [] && x in Strings(c.series[i].metric) {
        assert StageHolds(c, s.view, i, s.stages[i]);
      }
    }
  }

  lemma SameSymbols(a: seq<InMemorySeries>, b: seq<InMemorySeries>)
    requires multiset(a) == multiset(b)
    ensures MemorySymbols(a) == MemorySymbols(b)
  {
    assert forall s :: s in a <==> s in multiset(a);
    assert forall s :: s in b <==> s in multiset(b);
    forall x ensures x in MemorySymbols(a) <==> x in MemorySymbols(b) {
      MemorySymbolsAre(a, x);
      MemorySymbolsAre(b, x);
    }
  }

  /**
   * However the calls interleave and in whatever order the series were passed, the block that
   * FinishBlock then makes is the one CreateBlock makes from the sorted series, each cut down to
   * the builder's time bounds and those left without samples dropped.
   */
  lemma BuilderRefinesCreateBlock(c: Calls, states: seq<State>, sorted: seq<InMemorySeries>,
                                  built: Block, created: Block)
    requires Run(c, states) && AllSucceeded(states[|states| - 1])
    requires multiset(sorted) == multiset(c.AllOwn())
    requires var v := states[|states| - 1].view; IsBlock(built, v.symbols, Content(v))
    requires IsBlock(created, MemorySymbols(sorted), multiset(LoadedSeriesOf(sorted)))
    ensures built == created
  {
    var last := states[|states| - 1];
    RunKeepsInv(c, states, |states| - 1);
    CompletedRunHoldsAll(c, last);
    SameSymbols(sorted, c.AllOwn());
    LoadedPermutation(sorted, c.AllOwn());
    BlockIsUnique(built, created, last.view.symbols, Content(last.view));
  }

  // ---------- Builder and CreateBlock fail together ----------

  ghost predicate DistinctLabels(ss: seq<Series>) {
    && (forall i :: 0 <= i < |ss| ==> ss[i].metric != [])
    && (forall i, j :: 0 <= i < j < |ss| ==> ss[i].metric != ss[j].metric)
  }

  lemma DistinctMeansDistinctLabels(ss: seq<Series>)
    ensures Distinct(multiset(ss)) <==> DistinctLabels(ss)
  {
    var all := multiset(ss);
    assert forall s :: s in ss <==> s in all;
    if DistinctLabels(ss) {
      forall s | s in all ensures all[s] == 1 {
        SingleOccurrence(ss, s);
      }
    } else if i :| 0 <= i < |ss| && ss[i].metric == [] {
      assert ss[i] in all;
    } else {
      var i, j :| 0 <= i < j < |ss| && ss[i].metric == ss[j].metric;
      assert ss[i] in all && ss[j] in all;
      if ss[i] == ss[j] {
        TwiceInMultiset(ss, i, j);
      }
    }
  }

  lemma CreatableIsDistinct(series: seq<InMemorySeries>)
    requires Creatable(series)
    ensures DistinctLabels(LoadedSeriesOf(series))
  {
    var loaded := LoadedSeriesOf(series);
    CreatedInOrder(series);
    BeforeOrdersLabelSets();
    forall i, j | 0 <= i < j < |loaded| ensures loaded[i].metric != loaded[j].metric {
      assert InStrictOrder(SeriesBefore, loaded, i, j);
      assert Asymmetric(Before, loaded[i].metric, loaded[i].metric);
    }
    forall i | 0 <= i < |loaded| ensures loaded[i].metric != [] {
      assert InPlace(series, i);
      NothingIsBeforeEmpty(if i == 0 then [] else series[i - 1].metric);
    }
  }

  /** Sorted series can be created exactly if their labels are distinct and non-empty. */
  lemma SortedIsCreatable(sorted: seq<InMemorySeries>)
    requires Sorted(SeriesBefore, LoadedSeriesOf(sorted))
    requires forall k :: 0 <= k < |sorted| ==> GoodSamples(sorted[k].samples)
    ensures Creatable(sorted) <==> DistinctLabels(LoadedSeriesOf(sorted))
  {
    hide GoodSamples;
    var loaded := LoadedSeriesOf(sorted);
    SeriesBeforeOrders();
    BeforeOrdersLabelSets();
    if DistinctLabels(loaded) {
      forall k | 0 <= k < |sorted| ensures InPlace(sorted, k) {
        if k > 0 {
          assert InOrder(SeriesBefore, loaded, k - 1, k);
          assert Comparable(Before, sorted[k - 1].metric, sorted[k].metric);
          assert loaded[k - 1].metric != loaded[k].metric;
        } else {
          assert loaded[0].metric != [];
        }
      }
    }
    if Creatable(sorted) {
      CreatableIsDistinct(sorted);
    }
  }

  /** FinishBlock's and CreateBlock's conditions for success are met by the same series. */
  lemma BuilderAndCreateBlockFailTogether(c: Calls, states: seq<State>, sorted: seq<InMemorySeries>)
    requires Run(c, states) && AllSucceeded(states[|states| - 1])
    requires multiset(sorted) == multiset(c.AllOwn())
    requires Sorted(SeriesBefore, LoadedSeriesOf(sorted))
    ensures Distinct(multiset(states[|states| - 1].view.series)) <==> Creatable(sorted)
  {
    hide Distinct, Creatable, Sorted, LoadedSeriesOf, Inv, AllSucceeded, GoodSamples, Calls.OwnOfFirst;
    var last := states[|states| - 1];
    RunKeepsInv(c, states, |states| - 1);
    SucceededIsAccepted(c, last);
    CompletedIsDistinctIff(c, last);
    SameDistinctLabels(sorted, c.AllOwn());
    OwnSamplesAreGood(c, sorted);
    SortedIsCreatable(sorted);
  }

  lemma SucceededIsAccepted(c: Calls, s: State)
    requires Inv(c, s) && AllSucceeded(s)
    ensures c.AllAccepted()
  {
    hide Calls.Kept, Calls.Good, Strings, ValidNames, Sound, Content;
    forall i | 0 <= i < |c.series| ensures c.Accepts(i) {
      assert StageHolds(c, s.view, i, s.stages[i]);
    }
  }

  lemma CompletedIsDistinctIff(c: Calls, s: State)
    requires Inv(c, s) && AllSucceeded(s)
    ensures Distinct(multiset(s.view.series)) <==> DistinctLabels(LoadedSeriesOf(c.AllOwn()))
  {
    hide Distinct, DistinctLabels, LoadAll, LoadedSeriesOf, Sound, AskedFor, StageHolds, Calls.OwnOfFirst;
    CompletedRunHoldsAll(c, s);
    DistinctMeansDistinctLabels(s.view.series);
    DistinctMeansDistinctLabels(LoadAll(s.view.series, s.view.store));
    DistinctMeansDistinctLabels(LoadedSeriesOf(c.AllOwn()));
    LoadingKeepsLabels(s.view.series, s.view.store);
  }

  lemma SameDistinctLabels(a: seq<InMemorySeries>, b: seq<InMemorySeries>)
    requires multiset(a) == multiset(b)
    ensures DistinctLabels(LoadedSeriesOf(a)) <==> DistinctLabels(LoadedSeriesOf(b))
  {
    hide Distinct, DistinctLabels, LoadedSeriesOf;
    LoadedPermutation(a, b);
    DistinctMeansDistinctLabels(LoadedSeriesOf(a));
    DistinctMeansDistinctLabels(LoadedSeriesOf(b));
  }

  lemma OwnSamplesAreGood(c: Calls, sorted: seq<InMemorySeries>)
    requires c.AllAccepted() && multiset(sorted) == multiset(c.AllOwn())
    ensures forall k :: 0 <= k < |sorted| ==> GoodSamples(sorted[k].samples)
  {
    hide Calls.Kept, Calls.OwnOfFirst, ValidNames;
    SameElements(sorted, c.AllOwn());
    forall k | 0 <= k < |sorted| ensures GoodSamples(sorted[k].samples) {
      assert sorted[k] in c.AllOwn();
      OwnSeriesAre(c, |c.series|, sorted[k]);
      var i :| 0 <= i < |c.series| && c.Kept(i) != [] && sorted[k] == c.Own(i);
      assert c.Accepts(i);
      KeptIsGood(c, i);
    }
  }

  lemma KeptIsGood(c: Calls, i: nat)
    requires i < |c.series| && c.Good(i)
    ensures GoodSamples(c.Own(i).samples)
  {
    FaultlessStreamIncreases(c.series[i].samples.items, c.minBlockTime, c.maxBlockTime);
    AllKeptIffPositiveIncreasing(c.Kept(i));
  }

  lemma LoadingKeepsLabels(ss: seq<Series>, store: seq<seq<Sample>>)
    ensures DistinctLabels(LoadAll(ss, store)) <==> DistinctLabels(ss)
  {
    var loaded := LoadAll(ss, store);
    assert forall i :: 0 <= i < |ss| ==> loaded[i].metric == ss[i].metric;
    if DistinctLabels(loaded) {
      forall i, j | 0 <= i < j < |ss| ensures ss[i].metric != ss[j].metric {
        assert loaded[i].metric != loaded[j].metric;
      }
      forall i | 0 <= i < |ss| ensures ss[i].metric != [] {
        assert loaded[i].metric != [];
      }
    }
  }
}
