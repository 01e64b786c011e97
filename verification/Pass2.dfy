/** Pass 2: one day's log becomes a block (whisperconverter/pass2.go). */
module Pass2 {
  import opened Wrappers
  import opened Bytes
  import opened Orders
  import opened Labels
  import opened Names
  import opened MetricsIndex
  import opened CustomLabels
  import opened Chunks
  import opened Cursor
  import opened SeriesOrder
  import opened Blocks
  import opened Views
  import opened ConcurrentAdd
  import opened Builders
  import opened LogFormat
  import opened DayLogs
  import opened IndexFill
  import opened UsTables

  // ---------- Adding one series ----------

  /** The series of a value: none if it has no samples. */
  function ToAdd(ts: TimeSeries): seq<Series> {
    if ts.samples == [] then [] else [Series(ts.labels, ChunksOf(ts.samples))]
  }

  ghost predicate Addable(ts: TimeSeries) {
    ts.samples == [] || (PositiveIncreasing(ts.samples) && ValidNames(ts.labels))
  }

  function AllStrings(ss: seq<Series>): set<Str> {
    if ss == [] then {[]} else AllStrings(ss[..|ss| - 1]) + Strings(ss[|ss| - 1].metric)
  }

  /** The builder's view holds these series and nothing else. */
  ghost predicate Holds(v: View, ss: seq<Series>) {
    Content(v) == multiset(ss) && v.symbols == AllStrings(ss)
  }

  lemma SamplesCut(samples: seq<Sample>, chks: Result<seq<Meta>, ChunkError>)
    requires IsOutcome(Stream(Floats(samples), false), 0, 0, chks)
    ensures chks.Ok? <==> PositiveIncreasing(samples)
    ensures chks.Ok? ==> chks.value == ChunksOf(samples) && (chks.value == [] <==> samples == [])
  {
    AllKeptIffPositiveIncreasing(samples);
  }

  lemma OneMoreAdded(v: View, ss: seq<Series>, ts: TimeSeries, r: Result<(), AddError>, w: View)
    requires Sound(v) && Holds(v, ss)
    requires AddOutcome(v, ts.labels, Stream(Floats(ts.samples), false), 0, 0, r, w)
    ensures r.Ok? <==> Addable(ts)
    ensures r.Ok? ==> Holds(w, ss + ToAdd(ts))
  {
    hide Sound, Content, ValidNames, Strings, PositiveIncreasing, IsOutcome, ChunksOf, Floats;
    hide Placed, Unloaded, Contents;
    var chks: Result<seq<Meta>, ChunkError> :|
      && IsOutcome(Stream(Floats(ts.samples), false), 0, 0, chks)
      && match chks
         case Err(e) => r == Err(BadSamples(e)) && w == v
         case Ok(metas) =>
           if metas == [] then r == Ok(()) && w == v
           else
             var u := ChunksWritten(SymbolsAdded(v, ts.labels), metas);
             if ValidNames(ts.labels) then
               r == Ok(()) && w == SeriesAdded(u, Series(ts.labels, Unloaded(Placed(metas, |v.store|))))
             else r == Err(BadLabelNames) && w == u;
    SamplesCut(ts.samples, chks);
    NoSamplesAreIncreasing();
    if ts.samples == [] {
      assert ss + [] == ss;
    } else if r.Ok? {
      AddedContent(v, ts.labels, ts.samples);
      assert (ss + ToAdd(ts))[..|ss|] == ss;
    }
  }

  lemma NoSamplesAreIncreasing()
    ensures PositiveIncreasing([])
  {
  }

  lemma AddedContent(v: View, lbls: LabelSet, samples: seq<Sample>)
    requires Sound(v) && PositiveIncreasing(samples) && samples != [] && ValidNames(lbls)
    ensures var u := ChunksWritten(SymbolsAdded(v, lbls), ChunksOf(samples));
      var w := SeriesAdded(u, Series(lbls, Unloaded(Placed(ChunksOf(samples), |v.store|))));
      && Content(w) == Content(v) + multiset{Series(lbls, ChunksOf(samples))}
      && w.symbols == v.symbols + Strings(lbls)
  {
    hide Sound, Content, ValidNames, Strings, PositiveIncreasing, ChunksOf;
    var metas := ChunksOf(samples);
    var v1 := SymbolsAdded(v, lbls);
    var u := ChunksWritten(v1, metas);
    var s := Series(lbls, Unloaded(Placed(metas, |v.store|)));
    SymbolsAddedKeepsSound(v, lbls);
    ChunksWrittenKeepsSound(v1, metas);
    ChunksPartitionSamples(samples);
    WrittenChunksResolve(v1, metas);
    NewSeriesIsSound(v, lbls, samples);
    SeriesAddedKeepsSound(u, s);
  }

  lemma NewSeriesIsSound(v: View, lbls: LabelSet, samples: seq<Sample>)
    requires PositiveIncreasing(samples) && samples != [] && ValidNames(lbls)
    ensures var u := ChunksWritten(SymbolsAdded(v, lbls), ChunksOf(samples));
      SoundSeries(u, Series(lbls, Unloaded(Placed(ChunksOf(samples), |v.store|))))
  {
    ChunksPartitionSamples(samples);
    WrittenChunksResolve(SymbolsAdded(v, lbls), ChunksOf(samples));
    assert AreChunks(ChunksOf(samples));
  }

  // ---------- A whole log ----------

  /** Reading each key at its position in the file's index yields its value in `view`, custom labels added. */
  ghost predicate Leads(file: Str, decode: Decoder, custom: LabelSet, view: map<Str, TimeSeries>) {
    && IndexOutcome(file).Indexed?
    && var index := IndexOutcome(file).records;
      && index.Keys == view.Keys
      && forall key :: key in view ==> LeadsTo(file, index[key], decode, custom, view[key])
  }

  ghost predicate LeadsTo(file: Str, pos: nat, decode: Decoder, custom: LabelSet, ts: TimeSeries) {
    var p := ParseAt(file, pos, true, Unmarshals(decode));
    && p.Found? && Decoded(decode, p.record.value).Some?
    && CustomizedSeries(Decoded(decode, p.record.value).value, custom, ts)
  }

  ghost predicate CustomizedSeries(raw: TimeSeries, custom: LabelSet, ts: TimeSeries) {
    ts.samples == raw.samples && IsCustomized(raw.labels, custom, ts.labels)
  }

  lemma CustomizedAlike(raw: TimeSeries, custom: LabelSet, a: TimeSeries, b: TimeSeries)
    requires CustomizedSeries(raw, custom, a) && CustomizedSeries(raw, custom, b)
    ensures Addable(a) <==> Addable(b)
    ensures Addable(a) ==> ToAdd(a) == ToAdd(b)
    ensures Labelled(a) <==> Labelled(b)
  {
    hide ValidNames;
    CustomizedOnce(raw.labels, custom, a.labels, b.labels);
    assert |multiset(a.labels)| == |a.labels| && |multiset(b.labels)| == |b.labels|;
  }

  /** What does not read, or reads as a series that cannot be added, and the error it leads to. */
  ghost predicate Fails(file: Str, pos: nat, decode: Decoder, custom: LabelSet, e: Pass2Error) {
    match ParseAt(file, pos, true, Unmarshals(decode))
    case Stop(stopped) => e == NotRead(stopped)
    case Panics => e == ReaderPanics
    case Found(_, _) => e.NotAdded? && exists ts :: LeadsTo(file, pos, decode, custom, ts) && !Addable(ts)
  }

  /** A record that is read has a value the codec takes, or none. */
  lemma FoundIsDecoded(file: Str, pos: nat, decode: Decoder)
    ensures var p := ParseAt(file, pos, true, Unmarshals(decode)); p.Found? ==> Decoded(decode, p.record.value).Some?
  {
  }

  predicate Labelled(ts: TimeSeries) {
    ts.samples == [] || ts.labels != []
  }

  predicate ToldApart(a: TimeSeries, b: TimeSeries) {
    a.samples == [] || b.samples == [] || a.labels != b.labels
  }

  /** All values can be added, and no two series with samples have the same labels. */
  ghost predicate Convertible(view: map<Str, TimeSeries>) {
    && (forall key :: key in view ==> Addable(view[key]))
    && (forall key :: key in view ==> Labelled(view[key]))
    && (forall a, b :: a in view && b in view && a != b ==> ToldApart(view[a], view[b]))
  }

  function SeriesOf(view: map<Str, TimeSeries>, names: seq<Str>): seq<Series>
    requires forall n :: n in names ==> n in view
  {
    if names == [] then [] else SeriesOf(view, names[..|names| - 1]) + ToAdd(view[names[|names| - 1]])
  }

  ghost predicate Enumerates(names: seq<Str>, keys: set<Str>) {
    && (forall n :: n in names <==> n in keys)
    && (forall i, j :: 0 <= i < j < |names| ==> names[i] != names[j])
  }

  /** The block of exactly the series in the log. */
  ghost predicate IsBlockOfView(b: Block, view: map<Str, TimeSeries>) {
    exists names :: Enumerates(names, view.Keys)
      && IsBlock(b, AllStrings(SeriesOf(view, names)), multiset(SeriesOf(view, names)))
  }

  lemma {:induction false} SeriesOfMembers(view: map<Str, TimeSeries>, names: seq<Str>, s: Series)
    requires forall n :: n in names ==> n in view
    ensures s in SeriesOf(view, names) <==> exists n :: n in names && IsSeriesOf(s, view[n])
  {
    hide IsSeriesOf;
    if names != [] {
      var k := |names| - 1;
      SeriesOfMembers(view, names[..k], s);
      assert names == names[..k] + [names[k]];
      OwnSeries(view[names[k]], s);
    }
  }

  predicate IsSeriesOf(s: Series, ts: TimeSeries) {
    ts.samples != [] && s == Series(ts.labels, ChunksOf(ts.samples))
  }

  lemma OwnSeries(ts: TimeSeries, s: Series)
    ensures s in ToAdd(ts) <==> IsSeriesOf(s, ts)
  {
  }

  ghost predicate DistinctlyLabelled(view: map<Str, TimeSeries>, names: seq<Str>)
    requires forall n :: n in names ==> n in view
  {
    && (forall i :: 0 <= i < |names| ==> Labelled(view[names[i]]))
    && (forall i, j :: 0 <= i < j < |names| ==> ToldApart(view[names[i]], view[names[j]]))
  }

  lemma {:induction false} DistinctSeriesOf(view: map<Str, TimeSeries>, names: seq<Str>)
    requires forall n :: n in names ==> n in view
    ensures DistinctLabels(SeriesOf(view, names)) <==> DistinctlyLabelled(view, names)
  {
    hide ChunksOf, DistinctLabels, DistinctlyLabelled;
    if names == [] {
      NothingToTellApart(view);
    } else {
      var k := |names| - 1;
      var ts := view[names[k]];
      DistinctSeriesOf(view, names[..k]);
      DistinctlyLabelledAppend(view, names);
      if ts.samples == [] {
        assert SeriesOf(view, names) == SeriesOf(view, names[..k]) + [] == SeriesOf(view, names[..k]);
      } else {
        DistinctLabelsAppend(SeriesOf(view, names[..k]), ToAdd(ts)[0]);
        NewLabels(view, names[..k], ts);
      }
    }
  }

  lemma NothingToTellApart(view: map<Str, TimeSeries>)
    ensures DistinctLabels(SeriesOf(view, [])) && DistinctlyLabelled(view, [])
  {
  }

  lemma NewLabels(view: map<Str, TimeSeries>, names: seq<Str>, ts: TimeSeries)
    requires forall n :: n in names ==> n in view
    requires ts.samples != []
    ensures (forall s :: s in SeriesOf(view, names) ==> s.metric != ts.labels) <==>
      forall i :: 0 <= i < |names| ==> ToldApart(view[names[i]], ts)
  {
    hide ChunksOf, SeriesOf;
    if forall i :: 0 <= i < |names| ==> ToldApart(view[names[i]], ts) {
      forall s | s in SeriesOf(view, names) ensures s.metric != ts.labels {
        SeriesOfMembers(view, names, s);
      }
    } else {
      var i :| 0 <= i < |names| && !ToldApart(view[names[i]], ts);
      var s := Series(view[names[i]].labels, ChunksOf(view[names[i]].samples));
      SeriesOfMembers(view, names, s);
      assert names[i] in names && s.metric == ts.labels;
    }
  }

  lemma DistinctLabelsAppend(ss: seq<Series>, s: Series)
    ensures DistinctLabels(ss + [s]) <==>
      DistinctLabels(ss) && s.metric != [] && forall x :: x in ss ==> x.metric != s.metric
  {
    var all := ss + [s];
    if DistinctLabels(all) {
      forall i | 0 <= i < |ss| ensures ss[i].metric != [] && ss[i].metric != s.metric {
        assert all[i].metric != all[|ss|].metric;
      }
      forall i, j | 0 <= i < j < |ss| ensures ss[i].metric != ss[j].metric {
        assert all[i].metric != all[j].metric;
      }
      assert all[|ss|] == s;
    }
  }

  lemma DistinctlyLabelledAppend(view: map<Str, TimeSeries>, names: seq<Str>)
    requires names != [] && forall n :: n in names ==> n in view
    ensures var k := |names| - 1;
      DistinctlyLabelled(view, names) <==>
        && DistinctlyLabelled(view, names[..k])
        && Labelled(view[names[k]])
        && forall i :: 0 <= i < k ==> ToldApart(view[names[..k][i]], view[names[k]])
  {
    var k := |names| - 1;
    var before := names[..k];
    if DistinctlyLabelled(view, names) {
      forall i | 0 <= i < k ensures Labelled(view[before[i]]) && ToldApart(view[before[i]], view[names[k]]) {
        assert before[i] == names[i] && Labelled(view[names[i]]);
      }
      forall i, j | 0 <= i < j < k ensures ToldApart(view[before[i]], view[before[j]]) {
        assert ToldApart(view[names[i]], view[names[j]]);
      }
    }
  }

  lemma ConvertibleEnumerated(view: map<Str, TimeSeries>, names: seq<Str>)
    requires Enumerates(names, view.Keys)
    ensures Convertible(view) <==> DistinctlyLabelled(view, names) && forall n :: n in names ==> Addable(view[n])
  {
    hide Addable;
    if DistinctlyLabelled(view, names) {
      forall a, b | a in view && b in view && a != b ensures ToldApart(view[a], view[b]) {
        assert a in names && b in names;
        var i :| 0 <= i < |names| && names[i] == a;
        var j :| 0 <= j < |names| && names[j] == b;
        assert ToldApart(view[names[if i < j then i else j]], view[names[if i < j then j else i]]);
      }
      forall a | a in view ensures Labelled(view[a]) {
        assert a in names;
        var i :| 0 <= i < |names| && names[i] == a;
        assert Labelled(view[names[i]]);
      }
    }
    if Convertible(view) {
      forall i, j | 0 <= i < j < |names| ensures ToldApart(view[names[i]], view[names[j]]) {
        assert names[i] in names && names[j] in names;
      }
    }
  }

  /** The builder finishes exactly if the labels of what it holds are distinct. */
  lemma FinishesIfDistinct(v: View, ss: seq<Series>)
    requires Holds(v, ss)
    ensures Distinct(multiset(v.series)) <==> DistinctLabels(ss)
  {
    DistinctMeansDistinctLabels(v.series);
    DistinctMeansDistinctLabels(LoadAll(v.series, v.store));
    DistinctMeansDistinctLabels(ss);
    LoadingKeepsLabels(v.series, v.store);
  }

  datatype Pass2Error =
    | NotIndexed(instead: Indexed)
    | NotRead(reading: LogError)
    | ReaderPanics
    | NotAdded(adding: AddError)
    | NotFinished

  /** What one series of the index leads to, `ts`, is read, decoded and passed to the builder. */
  method AddIndexed(i: UsTable, pos: nat, decode: Decoder, custom: LabelSet, builder: Builder, ghost ss: seq<Series>)
    returns (r: Result<(), Pass2Error>, ghost ts: TimeSeries)
    requires i.mode == READ && i.unmarshals == Unmarshals(decode)
    requires builder.Valid() && builder.minBlockTime == 0 == builder.maxBlockTime && Holds(builder.View(), ss)
    modifies i`head, builder`accepted, builder.symbols, builder.series, builder.chunksForUnsortedSeries
    ensures builder.Valid()
    ensures r.Ok? ==>
      && LeadsTo(i.data, pos, decode, custom, ts) && Addable(ts)
      && Holds(builder.View(), ss + ToAdd(ts))
    ensures r.Err? ==> Fails(i.data, pos, decode, custom, r.error)
  {
    hide ParseAt, Holds, Addable, AddOutcome, Sound, Floats, ToAdd, IsCustomized;
    ts := TimeSeries([], []);
    FoundIsDecoded(i.data, pos, decode);
    var value := i.ReadAt(pos);
    match value {
      case Stop(e) => return Err(NotRead(e)), ts;
      case Panics => return Err(ReaderPanics), ts;
      case Found(record, _) =>
        var ms := Decoded(decode, record.value).value;
        ghost var before := builder.View();
        var cursor := new SeriesCursor(ms.samples);
        var items := cursor.Drain();
        var ls := Customize(ms.labels, custom);
        var added := builder.AddSeriesWithSamples(ls, Stream(items, cursor.failed));
        ts := TimeSeries(ls, ms.samples);
        assert LeadsTo(i.data, pos, decode, custom, ts);
        OneMoreAdded(before, ss, ts, added, builder.View());
        r := if added.Ok? then Ok(()) else Err(NotAdded(added.error));
    }
  }

  /** The names of the first entries. */
  function NamesOf(index: seq<UntaggedEntry>): (names: seq<Str>)
    ensures |names| == |index|
  {
    seq(|index|, k requires 0 <= k < |index| => index[k].name)
  }

  lemma CoveringEnumerates(index: seq<UntaggedEntry>, nameIndex: map<Str, nat>)
    requires Covers(index, nameIndex)
    ensures Enumerates(NamesOf(index), nameIndex.Keys)
  {
    forall n ensures n in NamesOf(index) <==> n in nameIndex {
      if n in nameIndex {
        var e :| e in index && e.name == n;
        var k :| 0 <= k < |index| && index[k] == e;
        assert NamesOf(index)[k] == n;
      }
    }
  }

  /** The index's entries lead to the values of their names. */
  ghost predicate IndexLeads(file: Str, index: seq<UntaggedEntry>, decode: Decoder, custom: LabelSet,
                             view: map<Str, TimeSeries>) {
    forall k :: 0 <= k < |index| ==>
      index[k].name in view && LeadsTo(file, index[k].pos, decode, custom, view[index[k].name])
  }

  /** The values of these names could be added, and were. */
  ghost predicate Added(view: map<Str, TimeSeries>, names: seq<Str>, v: View) {
    && (forall n :: n in names ==> n in view && Addable(view[n]))
    && Holds(v, SeriesOf(view, names))
  }

  lemma NothingAdded(view: map<Str, TimeSeries>)
    ensures Added(view, [], EMPTY_VIEW)
  {
    assert LoadAll([], []) == [];
  }

  lemma NextAdded(view: map<Str, TimeSeries>, names: seq<Str>, name: Str, ts: TimeSeries, v: View, w: View)
    requires Added(view, names, v) && name !in names && Addable(ts)
    requires Holds(w, SeriesOf(view, names) + ToAdd(ts))
    ensures Added(view[name := ts], names + [name], w)
  {
    hide Holds, Addable, ToAdd;
    assert (names + [name])[..|names|] == names;
    SeriesOfLarger(view, names, name, ts);
  }

  lemma {:induction false} SeriesOfLarger(view: map<Str, TimeSeries>, names: seq<Str>, name: Str, ts: TimeSeries)
    requires (forall n :: n in names ==> n in view) && name !in names
    ensures SeriesOf(view[name := ts], names) == SeriesOf(view, names)
  {
    if names != [] {
      SeriesOfLarger(view, names[..|names| - 1], name, ts);
    }
  }

  lemma NextName(index: seq<UntaggedEntry>, k: nat)
    requires k < |index| && forall i, j :: 0 <= i < j < |index| ==> index[i].name != index[j].name
    ensures NamesOf(index[..k + 1]) == NamesOf(index[..k]) + [index[k].name]
    ensures index[k].name !in NamesOf(index[..k])
  {
    hide Lists, UntaggedLabels;
  }

  /** The loop over the index; `view` is what its entries lead to, as far as they could be added. */
  method AddAll(i: UsTable, index: seq<UntaggedEntry>, decode: Decoder, custom: LabelSet, builder: Builder)
    returns (r: Result<(), Pass2Error>, ghost view: map<Str, TimeSeries>)
    requires i.mode == READ && i.unmarshals == Unmarshals(decode)
    requires builder.Valid() && builder.View() == EMPTY_VIEW && builder.minBlockTime == 0 == builder.maxBlockTime
    requires forall j, k :: 0 <= j < k < |index| ==> index[j].name != index[k].name
    modifies i`head, builder`accepted, builder.symbols, builder.series, builder.chunksForUnsortedSeries
    ensures builder.Valid()
    ensures r.Ok? ==>
      && IndexLeads(i.data, index, decode, custom, view) && view.Keys == (set n | n in NamesOf(index))
      && Added(view, NamesOf(index), builder.View())
    ensures r.Err? ==> exists k :: 0 <= k < |index| && Fails(i.data, index[k].pos, decode, custom, r.error)
  {
    hide LeadsTo, Fails, Added, Addable, SeriesOf, ToAdd, Lists, NamesOf, Holds, Sound, UntaggedLabels;
    view := map[];
    NothingAdded(view);
    NoNames(index);
    assert index[..0] == [];
    for k := 0 to |index|
      invariant builder.Valid()
      invariant IndexLeads(i.data, index[..k], decode, custom, view)
      invariant view.Keys == (set n | n in NamesOf(index[..k]))
      invariant Added(view, NamesOf(index[..k]), builder.View())
    {
      AddedHolds(view, NamesOf(index[..k]), builder.View());
      ghost var before := builder.View();
      ghost var ts;
      r, ts := AddIndexed(i, index[k].pos, decode, custom, builder, SeriesOf(view, NamesOf(index[..k])));
      if r.Err? {
        return;
      }
      NextName(index, k);
      NextAdded(view, NamesOf(index[..k]), index[k].name, ts, before, builder.View());
      NextLeads(i.data, index, k, decode, custom, view, ts);
      view := view[index[k].name := ts];
    }
    assert index[..|index|] == index;
    r := Ok(());
  }

  lemma NextLeads(file: Str, index: seq<UntaggedEntry>, k: nat, decode: Decoder, custom: LabelSet,
                  view: map<Str, TimeSeries>, ts: TimeSeries)
    requires k < |index| && forall i, j :: 0 <= i < j < |index| ==> index[i].name != index[j].name
    requires IndexLeads(file, index[..k], decode, custom, view) && LeadsTo(file, index[k].pos, decode, custom, ts)
    ensures IndexLeads(file, index[..k + 1], decode, custom, view[index[k].name := ts])
  {
    hide LeadsTo, Lists, UntaggedLabels;
    var longer := index[..k + 1];
    forall j | 0 <= j < k + 1
      ensures LeadsTo(file, longer[j].pos, decode, custom, view[index[k].name := ts][longer[j].name])
    {
      assert j < k ==> longer[j] == index[..k][j];
    }
  }

  lemma NoNames(index: seq<UntaggedEntry>)
    ensures NamesOf(index[..0]) == []
  {
  }

  lemma AddedHolds(view: map<Str, TimeSeries>, names: seq<Str>, v: View)
    requires Added(view, names, v)
    ensures forall n :: n in names ==> n in view
    ensures Holds(v, SeriesOf(view, names))
  {
  }

  /**
   * One day's log to one block. It succeeds exactly if every indexed series can be read and added
   * and all are told apart by their labels, whichever way ties among labels are sorted.
   */
  method CreateOneBlock(file: Str, decode: Decoder, custom: LabelSet, symbolsBatchSize: int, seriesBatchSize: int)
    returns (r: Result<Option<Block>, Pass2Error>)
    ensures r.Ok? <==> exists view :: Leads(file, decode, custom, view) && Convertible(view)
    ensures forall view :: Leads(file, decode, custom, view) ==> MadeOf(r, view)
    ensures r.Err? ==> IsReason(file, decode, custom, r.error)
  {
    hide IndexOutcome, LeadsTo, Holds, Addable, Added, SeriesOf, Convertible, IsBlockOfView, IsBlock, Fails;
    hide Sorted, Lists, UntaggedLabels, NamesOf, Enumerates, DistinctlyLabelled, DistinctLabels;
    hide MadeOf, IsReason, AllAddable;
    hide Distinct, Content, Sound, Leads, IndexLeads, Covers, IndexFrom, SkipEnds;
    var i := new UsTable.ForRead(file, Unmarshals(decode));
    var indexed := i.Index();
    if !indexed.value.Indexed? {
      OnlyIndexedLeads(file, decode, custom);
      return Err(NotIndexed(indexed.value));
    }
    var index := indexed.value.records;
    if |index| == 0 {
      NothingToConvert(file, decode, custom);
      return Ok(None);
    }
    var builder := new Builder(symbolsBatchSize, seriesBatchSize, 0, 0);
    var metricsIndex := BuildMetricsIndex(index);
    EachNameOnce(metricsIndex, index);
    var added;
    ghost var view;
    added, view := AddAll(i, metricsIndex, decode, custom, builder);
    if added.Err? {
      assert i.data == file;
      ghost var k :| 0 <= k < |metricsIndex| && Fails(file, metricsIndex[k].pos, decode, custom, added.error);
      NoneConvertible(file, decode, custom, index, metricsIndex, k, added.error);
      return Err(added.error);
    }
    ghost var v := builder.View();
    var block := builder.FinishBlock();
    CoveringEnumerates(metricsIndex, index);
    IndexedLeads(file, decode, custom, index, metricsIndex, view);
    FinishedBlock(v, block, view, metricsIndex);
    r := if block.Ok? then Ok(Some(block.value)) else Err(NotFinished);
    FinishedIsMade(file, decode, custom, block, r, view, index);
    MadeOfAll(file, decode, custom, view, r);
  }

  lemma FinishedIsMade(file: Str, decode: Decoder, custom: LabelSet, block: Result<Block, FinishError>,
                       r: Result<Option<Block>, Pass2Error>, view: map<Str, TimeSeries>, index: map<Str, nat>)
    requires block.Ok? <==> Convertible(view)
    requires block.Ok? ==> IsBlockOfView(block.value, view)
    requires r == if block.Ok? then Ok(Some(block.value)) else Err(NotFinished)
    requires view.Keys == index.Keys && |index| > 0
    requires Leads(file, decode, custom, view) && AllAddable(view)
    ensures MadeOf(r, view) && (r.Err? ==> IsReason(file, decode, custom, r.error))
  {
    hide Convertible, IsBlockOfView, Leads, AllAddable, IndexOutcome;
    assert |index.Keys| == |index| > 0;
    var key :| key in index.Keys;
    assert key in view;
  }

  /** The file cannot be indexed, or this entry of its index fails, or series have the same labels. */
  ghost predicate IsReason(file: Str, decode: Decoder, custom: LabelSet, e: Pass2Error) {
    var indexed := IndexOutcome(file);
    match e
    case NotIndexed(instead) => instead == indexed && !indexed.Indexed?
    case NotFinished => exists view :: Leads(file, decode, custom, view) && AllAddable(view) && !Convertible(view)
    case _ =>
      indexed.Indexed? &&
      exists key :: key in indexed.records && Fails(file, indexed.records[key], decode, custom, e)
  }

  ghost predicate AllAddable(view: map<Str, TimeSeries>) {
    forall key :: key in view ==> Addable(view[key])
  }

  lemma EachNameOnce(metricsIndex: seq<UntaggedEntry>, index: map<Str, nat>)
    requires Covers(metricsIndex, index)
    ensures forall j, k :: 0 <= j < k < |metricsIndex| ==> metricsIndex[j].name != metricsIndex[k].name
  {
  }

  lemma OnlyIndexedLeads(file: Str, decode: Decoder, custom: LabelSet)
    ensures forall view :: Leads(file, decode, custom, view) ==> IndexOutcome(file).Indexed?
    ensures !IndexOutcome(file).Indexed? ==> IsReason(file, decode, custom, NotIndexed(IndexOutcome(file)))
  {
  }

  /** The outcome for a log that leads to these series. */
  ghost predicate MadeOf(r: Result<Option<Block>, Pass2Error>, view: map<Str, TimeSeries>) {
    && (r.Ok? <==> Convertible(view))
    && (r.Ok? ==> (r.value == None <==> view == map[]))
    && (r.Ok? && r.value.Some? ==> IsBlockOfView(r.value.value, view))
  }

  // ---------- Whichever way ties are sorted ----------

  /** Two ways of reading a series, which differ at most in the order of labels of the same name. */
  ghost predicate Alike(a: TimeSeries, b: TimeSeries) {
    && a.samples == b.samples && (Labelled(a) <==> Labelled(b))
    && (Addable(a) <==> Addable(b)) && (Addable(a) ==> ToAdd(a) == ToAdd(b))
  }

  lemma LeadToAlike(file: Str, pos: nat, decode: Decoder, custom: LabelSet, a: TimeSeries, b: TimeSeries)
    requires LeadsTo(file, pos, decode, custom, a) && LeadsTo(file, pos, decode, custom, b)
    ensures Alike(a, b)
  {
    hide ParseAt, Addable, ToAdd, Labelled, IsCustomized;
    var raw := Decoded(decode, ParseAt(file, pos, true, Unmarshals(decode)).record.value).value;
    CustomizedAlike(raw, custom, a, b);
  }

  ghost predicate ViewsAlike(v: map<Str, TimeSeries>, w: map<Str, TimeSeries>) {
    v.Keys == w.Keys && forall key :: key in v ==> Alike(v[key], w[key])
  }

  lemma LeadingViewsAlike(file: Str, decode: Decoder, custom: LabelSet, v: map<Str, TimeSeries>,
                          w: map<Str, TimeSeries>)
    requires Leads(file, decode, custom, v) && Leads(file, decode, custom, w)
    ensures ViewsAlike(v, w)
  {
    hide LeadsTo, Alike;
    forall key | key in v ensures Alike(v[key], w[key]) {
      LeadToAlike(file, IndexOutcome(file).records[key], decode, custom, v[key], w[key]);
    }
  }

  lemma ConvertibleAlike(v: map<Str, TimeSeries>, w: map<Str, TimeSeries>)
    requires ViewsAlike(v, w) && Convertible(v)
    ensures Convertible(w)
  {
    hide Addable;
    forall key | key in w ensures Addable(w[key]) && Labelled(w[key]) {
      assert Alike(v[key], w[key]) && Addable(v[key]) && Labelled(v[key]);
    }
    forall a, b | a in w && b in w && a != b ensures ToldApart(w[a], w[b]) {
      assert Alike(v[a], w[a]) && Alike(v[b], w[b]) && Addable(v[a]) && Addable(v[b]) && ToldApart(v[a], v[b]);
    }
  }

  lemma {:induction false} SeriesAlike(v: map<Str, TimeSeries>, w: map<Str, TimeSeries>, names: seq<Str>)
    requires ViewsAlike(v, w) && Convertible(v) && forall n :: n in names ==> n in v
    ensures SeriesOf(v, names) == SeriesOf(w, names)
  {
    hide Addable, ToAdd, Labelled, ToldApart;
    if names != [] {
      var n := |names| - 1;
      SeriesAlike(v, w, names[..n]);
      assert Alike(v[names[n]], w[names[n]]) && Addable(v[names[n]]);
    }
  }

  lemma MadeOfAlike(r: Result<Option<Block>, Pass2Error>, v: map<Str, TimeSeries>, w: map<Str, TimeSeries>)
    requires ViewsAlike(v, w) && MadeOf(r, v)
    ensures MadeOf(r, w)
  {
    hide Convertible, Alike, IsBlock, SeriesOf, AllStrings;
    if Convertible(v) {
      ConvertibleAlike(v, w);
    }
    if Convertible(w) {
      AlikeBack(v, w);
      ConvertibleAlike(w, v);
    }
    if r.Ok? && r.value.Some? {
      var names :| Enumerates(names, v.Keys) &&
        IsBlock(r.value.value, AllStrings(SeriesOf(v, names)), multiset(SeriesOf(v, names)));
      SeriesAlike(v, w, names);
    }
    assert v == map[] <==> v.Keys == {};
    assert w == map[] <==> w.Keys == {};
  }

  lemma AlikeBack(v: map<Str, TimeSeries>, w: map<Str, TimeSeries>)
    requires ViewsAlike(v, w)
    ensures ViewsAlike(w, v)
  {
    hide Addable, ToAdd, Labelled;
    forall key | key in w ensures Alike(w[key], v[key]) {
      assert Alike(v[key], w[key]);
    }
  }

  /** What is so of one view the log leads to is so of all. */
  lemma MadeOfAll(file: Str, decode: Decoder, custom: LabelSet, view: map<Str, TimeSeries>,
                  r: Result<Option<Block>, Pass2Error>)
    requires Leads(file, decode, custom, view) && MadeOf(r, view)
    ensures r.Ok? <==> exists w :: Leads(file, decode, custom, w) && Convertible(w)
    ensures forall w :: Leads(file, decode, custom, w) ==> MadeOf(r, w)
  {
    hide Leads, Convertible, IsBlockOfView, ViewsAlike;
    forall w | Leads(file, decode, custom, w) ensures MadeOf(r, w) {
      LeadingViewsAlike(file, decode, custom, view, w);
      MadeOfAlike(r, view, w);
    }
  }

  /** An entry that fails: the log leads to nothing, or to something that cannot be added. */
  lemma NoneConvertible(file: Str, decode: Decoder, custom: LabelSet, index: map<Str, nat>,
                        metricsIndex: seq<UntaggedEntry>, k: nat, e: Pass2Error)
    requires IndexOutcome(file).Indexed? && index == IndexOutcome(file).records && Covers(metricsIndex, index)
    requires k < |metricsIndex| && Fails(file, metricsIndex[k].pos, decode, custom, e)
    ensures forall view :: Leads(file, decode, custom, view) ==> !Convertible(view)
    ensures forall view :: Leads(file, decode, custom, view) ==> MadeOf(Err(e), view)
    ensures IsReason(file, decode, custom, e)
  {
    hide ParseAt, Addable, IndexOutcome, Lists, Alike, IsCustomized, CustomizedSeries;
    var entry := metricsIndex[k];
    assert entry in metricsIndex && Fails(file, index[entry.name], decode, custom, e);
    forall view | Leads(file, decode, custom, view) ensures !Convertible(view) {
      assert LeadsTo(file, index[entry.name], decode, custom, view[entry.name]);
      var ts :| LeadsTo(file, entry.pos, decode, custom, ts) && !Addable(ts);
      LeadToAlike(file, entry.pos, decode, custom, ts, view[entry.name]);
      AlikeAddable(ts, view[entry.name]);
    }
  }

  lemma AlikeAddable(a: TimeSeries, b: TimeSeries)
    requires Alike(a, b)
    ensures Addable(a) <==> Addable(b)
  {
  }

  lemma IndexedLeads(file: Str, decode: Decoder, custom: LabelSet, index: map<Str, nat>,
                     metricsIndex: seq<UntaggedEntry>, view: map<Str, TimeSeries>)
    requires IndexOutcome(file).Indexed? && index == IndexOutcome(file).records && Covers(metricsIndex, index)
    requires IndexLeads(file, metricsIndex, decode, custom, view)
    requires Enumerates(NamesOf(metricsIndex), index.Keys)
    requires view.Keys == (set n | n in NamesOf(metricsIndex))
    ensures Leads(file, decode, custom, view) && view.Keys == index.Keys
    ensures Enumerates(NamesOf(metricsIndex), view.Keys)
  {
    hide LeadsTo, Lists, NamesOf, IndexOutcome;
    assert view.Keys == index.Keys;
    forall key | key in view ensures LeadsTo(file, index[key], decode, custom, view[key]) {
      var e :| e in metricsIndex && e.name == key;
      var k :| 0 <= k < |metricsIndex| && metricsIndex[k] == e;
    }
  }

  lemma FinishedBlock(v: View, block: Result<Block, FinishError>, view: map<Str, TimeSeries>, index: seq<UntaggedEntry>)
    requires Enumerates(NamesOf(index), view.Keys) && Added(view, NamesOf(index), v)
    requires block.Ok? <==> Distinct(multiset(v.series))
    requires block.Ok? ==> IsBlock(block.value, v.symbols, Content(v))
    ensures block.Ok? <==> Convertible(view)
    ensures block.Ok? ==> IsBlockOfView(block.value, view)
    ensures AllAddable(view)
  {
    hide SeriesOf, Distinct, DistinctLabels, DistinctlyLabelled, Convertible, IsBlock, Content, NamesOf, Addable;
    var names := NamesOf(index);
    FinishesIfDistinct(v, SeriesOf(view, names));
    DistinctSeriesOf(view, names);
    ConvertibleEnumerated(view, names);
  }

  lemma NothingToConvert(file: Str, decode: Decoder, custom: LabelSet)
    requires IndexOutcome(file).Indexed? && |IndexOutcome(file).records| == 0
    ensures Leads(file, decode, custom, map[]) && Convertible(map[])
    ensures forall view :: Leads(file, decode, custom, view) ==> MadeOf(Ok(None), view)
  {
    hide IndexOutcome, LeadsTo;
    forall view | Leads(file, decode, custom, view) ensures view == map[] {
    }
  }
}
