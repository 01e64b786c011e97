/** From Whisper files to blocks: both passes together lose, duplicate and reorder nothing. */
module Pipeline {
  import opened Wrappers
  import opened Bytes
  import opened Orders
  import opened Labels
  import opened Names
  import opened Chunks
  import opened Whisper
  import opened Days
  import opened SeriesOrder
  import opened Blocks
  import opened Views
  import opened LogFormat
  import opened LogRecovery
  import opened Pass1
  import opened Convert
  import opened Pass1Files
  import opened DayLogs
  import opened CustomLabels
  import opened Pass2

  // ---------- The log between the passes ----------

  /** A day's log as pass 2 sees it. */
  ghost function ViewOf(log: seq<LogEntry>, custom: LabelSet): map<Str, TimeSeries> {
    map name | name in LastEntries(log) :: CustomizedValue(LastEntries(log)[name], custom)
  }

  ghost function CustomizedValue(e: LogEntry, custom: LabelSet): TimeSeries {
    TimeSeries(Customized(e.labels, custom), e.samples)
  }

  lemma {:induction false} LastValuesOfLog(log: seq<LogEntry>, encode: TimeSeries -> Str)
    ensures LastValues(RecordsOf(log, encode)).Keys == LastEntries(log).Keys
    ensures forall name :: name in LastEntries(log) ==>
      LastValues(RecordsOf(log, encode))[name] == encode(ValueOf(LastEntries(log)[name]))
  {
    if log != [] {
      var n := |log| - 1;
      LastValuesOfLog(log[..n], encode);
      assert RecordsOf(log, encode)[..n] == RecordsOf(log[..n], encode);
    }
  }

  /** The bytes of a closed log lead each name to its last value, whatever stale bytes follow the sentinel. */
  lemma ClosedLogLeads(log: seq<LogEntry>, stale: Str, encode: TimeSeries -> Str, decode: Decoder, custom: LabelSet)
    requires IsCodec(encode, decode) && AllStorable(RecordsOf(log, encode))
    ensures Leads(LogBytes(RecordsOf(log, encode)) + Sentinel() + stale, decode, custom, ViewOf(log, custom))
  {
    hide ParseAt, LogBytes, Sentinel, IndexOutcome, LastEntries, LastValues, IndexOf, IsCustomized;
    var rs := RecordsOf(log, encode);
    var file := LogBytes(rs) + Sentinel() + stale;
    assert LogBytes(rs) + (Sentinel() + stale) == file;
    EncodedIsLegible(log, encode, decode);
    ClosedLogIndex(rs, stale);
    IndexLeadsToLastValues(rs, Sentinel() + stale, Unmarshals(decode));
    LastValuesOfLog(log, encode);
    forall key | key in ViewOf(log, custom)
      ensures LeadsTo(file, IndexOf(rs)[key], decode, custom, ViewOf(log, custom)[key])
    {
      var e := LastEntries(log)[key];
      assert key in IndexOf(rs) && key in LastEntries(log);
      assert Decoded(decode, encode(ValueOf(e))) == Some(ValueOf(e));
    }
  }

  // ---------- Both passes ----------

  /** The series `s` is the metric's, cut into full chunks of its samples of that day. */
  ghost predicate IsDayOf(s: Series, m: Metric, points: seq<Point>, day: int, custom: LabelSet) {
    var samples := OfDay(ToSamples(points), day);
    samples != [] && s.metric == Customized(m.labels, custom) && IsChunking(s.chunks, samples)
  }

  lemma IsDayOfIff(s: Series, m: Metric, points: seq<Point>, day: int, custom: LabelSet)
    ensures IsDayOf(s, m, points, day, custom) <==>
      var samples := OfDay(ToSamples(points), day);
      samples != [] && s == Series(Customized(m.labels, custom), ChunksOf(samples))
  {
    hide IsChunking, OfDay, ToSamples, ChunksOf, IsCustomized;
    var samples := OfDay(ToSamples(points), day);
    ChunksPartitionSamples(samples);
    if IsDayOf(s, m, points, day, custom) {
      ChunkingIsUnique(s.chunks, samples);
    }
  }

  /** What the view should have under the metric's name. */
  ghost function DaySeries(m: Metric, points: seq<Point>, day: int, custom: LabelSet): TimeSeries {
    TimeSeries(Customized(m.labels, custom), OfDay(ToSamples(points), day))
  }

  /** A name's view entry is the day's samples of its metric. */
  ghost predicate ViewIsDay(metrics: seq<Metric>, points: seq<seq<Point>>, day: int, custom: LabelSet,
                            view: map<Str, TimeSeries>)
    requires |metrics| == |points|
  {
    && (forall i :: 0 <= i < |metrics| && OfDay(ToSamples(points[i]), day) != [] ==>
          metrics[i].name in view && view[metrics[i].name] == DaySeries(metrics[i], points[i], day, custom))
    && (forall name :: name in view ==> exists i :: 0 <= i < |metrics| && EntryIsDay(metrics[i], points[i], day, name))
  }

  ghost predicate EntryIsDay(m: Metric, points: seq<Point>, day: int, name: Str) {
    m.name == name && OfDay(ToSamples(points), day) != []
  }

  lemma LogIsDay(files: seq<WhisperFile>, job: Job, points: seq<seq<Point>>, day: int, custom: LabelSet,
                 log: seq<LogEntry>)
    requires AllConverted(files, job.metrics, points) && HoldsDay(job, day, LastEntries(log))
    ensures ViewIsDay(job.metrics, points, day, custom, ViewOf(log, custom))
  {
    hide WellConverted, OfDay, ToSamples, LastEntries, HasDay, IsCustomized;
    forall i | 0 <= i < |files| && OfDay(ToSamples(points[i]), day) != []
      ensures job.metrics[i].name in ViewOf(log, custom)
      ensures ViewOf(log, custom)[job.metrics[i].name] == DaySeries(job.metrics[i], points[i], day, custom)
    {
      BlocksAreDays(files[i], job.metrics[i], points[i], day);
      var block :| HasDay(job.metrics[i], day, block);
      assert job.metrics[i] in job.metrics;
    }
    forall name | name in ViewOf(log, custom)
      ensures exists i :: 0 <= i < |files| && EntryIsDay(job.metrics[i], points[i], day, name)
    {
      var m, block :| m in job.metrics && HasDay(m, day, block) && m.name == name;
      var i :| 0 <= i < |files| && job.metrics[i] == m;
      BlocksAreDays(files[i], m, points[i], day);
      assert EntryIsDay(job.metrics[i], points[i], day, name);
    }
  }

  lemma UntaggedLabelsAreValid(name: Str, ls: LabelSet)
    requires Lists(ls, UntaggedLabels(name))
    ensures ValidNames(ls) && ls != []
  {
    NameComesLast(Split(name), ls);
    forall k | 0 <= k < |ls| ensures NameInPlace(ls, k) {
      if k > 0 {
        assert InStrictOrder(ByName, ls, k - 1, k);
      } else if ls[0].name != NAME {
        var i := LabelOfNode(Split(name), ls, ls[0]);
      }
    }
  }

  /** The custom labels go with those of every metric that has samples on the day. */
  ghost predicate CustomFitsDay(metrics: seq<Metric>, points: seq<seq<Point>>, day: int, custom: LabelSet)
    requires |metrics| == |points|
  {
    forall i :: 0 <= i < |metrics| && OfDay(ToSamples(points[i]), day) != [] ==> CustomFits(metrics[i].labels, custom)
  }

  /** Metrics of different names that both have samples on the day differ in more than empty nodes at the end. */
  ghost predicate NodesTellApart(metrics: seq<Metric>, points: seq<seq<Point>>, day: int)
    requires |metrics| == |points|
  {
    forall i, j :: 0 <= i < |metrics| && 0 <= j < |metrics| && BothOnDay(metrics, points, i, j, day) ==>
      !SameNodes(metrics[i].name, metrics[j].name)
  }

  ghost predicate BothOnDay(metrics: seq<Metric>, points: seq<seq<Point>>, i: nat, j: nat, day: int)
    requires |metrics| == |points| && i < |metrics| && j < |metrics|
  {
    && metrics[i].name != metrics[j].name
    && OfDay(ToSamples(points[i]), day) != [] && OfDay(ToSamples(points[j]), day) != []
  }

  predicate SameNodes(a: Str, b: Str) {
    Trim(Split(a)) == Trim(Split(b))
  }

  /** One metric's samples and labels make the builder fail only if the custom labels do not fit. */
  lemma DayIsAddable(f: WhisperFile, m: Metric, points: seq<Point>, day: int, custom: LabelSet)
    requires WellConverted(f, m, points) && OfDay(ToSamples(points), day) != []
    ensures Addable(DaySeries(m, points, day, custom)) <==> CustomFits(m.labels, custom)
    ensures Labelled(DaySeries(m, points, day, custom)) && ValidNames(m.labels)
  {
    hide PositiveIncreasing, ValidNames, OfDay, ToSamples, Lists, Wellformed, IsDaySplit, IsCustomized, CustomFits;
    PointsRise(f, m, points);
    OfDayIncreases(ToSamples(points), day);
    UntaggedLabelsAreValid(f.name, m.labels);
    CustomizedIsValidIff(m.labels, custom);
  }

  /** A day's series can all be added, and told apart, exactly under these two conditions. */
  lemma DayIsConvertible(files: seq<WhisperFile>, job: Job, points: seq<seq<Point>>, day: int, custom: LabelSet,
                         view: map<Str, TimeSeries>)
    requires AllConverted(files, job.metrics, points) && ViewIsDay(job.metrics, points, day, custom, view)
    ensures Convertible(view) <==>
      CustomFitsDay(job.metrics, points, day, custom) && NodesTellApart(job.metrics, points, day)
  {
    hide OfDay, ToSamples, AllConverted, CustomFits, Addable, DaySeries, SameNodes, ToldApart, BothOnDay, Labelled;
    hide ViewIsDay;
    var metrics := job.metrics;
    SameCounts(files, metrics, points);
    forall i | 0 <= i < |metrics| && OfDay(ToSamples(points[i]), day) != []
      ensures metrics[i].name in view && (Addable(view[metrics[i].name]) <==> CustomFits(metrics[i].labels, custom))
    {
      EntryIsAddable(files, metrics, points, i, day, custom, view);
    }
    forall i, j | 0 <= i < |metrics| && 0 <= j < |metrics| && BothOnDay(metrics, points, i, j, day)
      ensures metrics[i].name in view && metrics[j].name in view && metrics[i].name != metrics[j].name
      ensures ToldApart(view[metrics[i].name], view[metrics[j].name]) <==> !SameNodes(metrics[i].name, metrics[j].name)
    {
      EntriesToldApartIff(files, metrics, points, i, j, day, custom, view);
    }
    forall key | key in view ensures exists i :: 0 <= i < |metrics| && EntryIsDay(metrics[i], points[i], day, key) {
      EntryOfMetric(metrics, points, day, custom, view, key);
    }
    forall key | key in view ensures Labelled(view[key]) {
      var i :| 0 <= i < |metrics| && EntryIsDay(metrics[i], points[i], day, key);
      EntryIsAddable(files, metrics, points, i, day, custom, view);
    }
    if NodesTellApart(metrics, points, day) {
      forall a, b | a in view && b in view && a != b ensures ToldApart(view[a], view[b]) {
        var i :| 0 <= i < |metrics| && EntryIsDay(metrics[i], points[i], day, a);
        var j :| 0 <= j < |metrics| && EntryIsDay(metrics[j], points[j], day, b);
        BothEntries(metrics, points, i, j, day, a, b);
      }
    }
  }

  lemma EntryOfMetric(metrics: seq<Metric>, points: seq<seq<Point>>, day: int, custom: LabelSet,
                      view: map<Str, TimeSeries>, key: Str)
    requires |metrics| == |points| && ViewIsDay(metrics, points, day, custom, view) && key in view
    ensures exists i :: 0 <= i < |metrics| && EntryIsDay(metrics[i], points[i], day, key)
  {
  }

  lemma BothEntries(metrics: seq<Metric>, points: seq<seq<Point>>, i: nat, j: nat, day: int, a: Str, b: Str)
    requires |metrics| == |points| && i < |metrics| && j < |metrics| && a != b
    requires EntryIsDay(metrics[i], points[i], day, a) && EntryIsDay(metrics[j], points[j], day, b)
    ensures BothOnDay(metrics, points, i, j, day)
  {
  }

  lemma EntryIsAddable(files: seq<WhisperFile>, metrics: seq<Metric>, points: seq<seq<Point>>, i: nat, day: int,
                       custom: LabelSet, view: map<Str, TimeSeries>)
    requires AllConverted(files, metrics, points) && ViewIsDay(metrics, points, day, custom, view)
    requires i < |metrics| && OfDay(ToSamples(points[i]), day) != []
    ensures metrics[i].name in view && Labelled(view[metrics[i].name])
    ensures Addable(view[metrics[i].name]) <==> CustomFits(metrics[i].labels, custom)
  {
    hide OfDay, ToSamples, WellConverted, CustomFits, Addable, DaySeries, Labelled;
    DayIsAddable(files[i], metrics[i], points[i], day, custom);
  }

  lemma EntriesToldApartIff(files: seq<WhisperFile>, metrics: seq<Metric>, points: seq<seq<Point>>, i: nat, j: nat,
                            day: int, custom: LabelSet, view: map<Str, TimeSeries>)
    requires AllConverted(files, metrics, points) && ViewIsDay(metrics, points, day, custom, view)
    requires i < |metrics| && j < |metrics| && BothOnDay(metrics, points, i, j, day)
    ensures metrics[i].name in view && metrics[j].name in view && metrics[i].name != metrics[j].name
    ensures ToldApart(view[metrics[i].name], view[metrics[j].name]) <==> !SameNodes(metrics[i].name, metrics[j].name)
  {
    hide OfDay, ToSamples, WellConverted, DaySeries, ToldApart, SameNodes;
    LabelsTellApartIff(files[i], files[j], metrics[i], metrics[j], points[i], points[j], day, custom);
  }

  lemma LabelsTellApartIff(f: WhisperFile, g: WhisperFile, m: Metric, n: Metric, points: seq<Point>,
                           others: seq<Point>, day: int, custom: LabelSet)
    requires WellConverted(f, m, points) && WellConverted(g, n, others)
    requires OfDay(ToSamples(points), day) != [] && OfDay(ToSamples(others), day) != []
    ensures ToldApart(DaySeries(m, points, day, custom), DaySeries(n, others, day, custom)) <==>
      !SameNodes(m.name, n.name)
  {
    hide OfDay, Lists, IsRead, IsDaySplit, ValidNames, IsCustomized;
    CustomizedEqualIff(f, g, m, n, points, others, custom);
  }

  /** Two metrics share their labels, custom ones or not, exactly if they share their nodes. */
  lemma CustomizedEqualIff(f: WhisperFile, g: WhisperFile, m: Metric, n: Metric, points: seq<Point>,
                           others: seq<Point>, custom: LabelSet)
    requires WellConverted(f, m, points) && WellConverted(g, n, others)
    ensures Customized(m.labels, custom) == Customized(n.labels, custom) <==> SameNodes(m.name, n.name)
  {
    hide Lists, IsRead, IsDaySplit, ValidNames, IsCustomized;
    SameLabelsIff(f.name, g.name, m.labels, n.labels);
    UntaggedLabelsAreValid(f.name, m.labels);
    UntaggedLabelsAreValid(g.name, n.labels);
    if m.labels != n.labels {
      CustomizedStaysDistinct(m.labels, n.labels, custom);
    }
  }

  /** The series of some value with samples. */
  ghost predicate InView(s: Series, view: map<Str, TimeSeries>) {
    exists n :: n in view && IsSeriesOf(s, view[n])
  }

  /** Reading a view's block back gives the series of its values, by labels. */
  lemma BlockOfViewReadsBack(b: Block, view: map<Str, TimeSeries>)
    requires IsBlockOfView(b, view)
    ensures StrictlySorted(SeriesBefore, ReadBack(b.entries, b.chunks))
    ensures forall s :: s in ReadBack(b.entries, b.chunks) <==> InView(s, view)
  {
    hide SeriesOf, AllStrings, IsSeriesOf, ReadBack, StrictlySorted;
    var names :| Enumerates(names, view.Keys)
      && IsBlock(b, AllStrings(SeriesOf(view, names)), multiset(SeriesOf(view, names)));
    var ss := SeriesOf(view, names);
    var series := SeriesInBlock(b, AllStrings(ss), ss);
    SameElements(series, ss);
    forall s ensures s in ss <==> InView(s, view) {
      SeriesOfMembers(view, names, s);
    }
    forall i | 0 <= i < |series| ensures IsLoaded(series[i]) {
      assert series[i] in series && InView(series[i], view);
      var n :| n in view && IsSeriesOf(series[i], view[n]);
      SeriesOfIsLoaded(series[i], view[n]);
    }
    BlockReadsBack(series, []);
    assert ChunksIn(series) + [] == ChunksIn(series);
  }

  lemma SeriesInBlock(b: Block, symbols: set<Str>, ss: seq<Series>) returns (series: seq<Series>)
    requires IsBlock(b, symbols, multiset(ss))
    ensures StrictlySorted(SeriesBefore, series) && multiset(series) == multiset(ss)
    ensures b.entries == EntriesOf(series) && b.chunks == ChunksIn(series)
  {
    hide StrictlySorted, EntriesOf, ChunksIn;
    var syms: seq<Str>, found: seq<Series> :|
      && StrictlySorted(Less, syms) && (forall s :: s in syms <==> s in symbols)
      && StrictlySorted(SeriesBefore, found) && multiset(found) == multiset(ss)
      && b == BlockOf(syms, found);
    series := found;
  }

  lemma SeriesOfIsLoaded(s: Series, ts: TimeSeries)
    requires IsSeriesOf(s, ts)
    ensures IsLoaded(s)
  {
    ChunksPartitionSamples(ts.samples);
  }

  ghost predicate IsDayOfSome(s: Series, metrics: seq<Metric>, points: seq<seq<Point>>, day: int, custom: LabelSet)
    requires |metrics| == |points|
  {
    exists i :: 0 <= i < |metrics| && IsDayOf(s, metrics[i], points[i], day, custom)
  }

  /** The block of a day: strictly by labels, exactly the day's samples of every metric that has any. */
  ghost predicate HoldsExactlyDay(b: Block, metrics: seq<Metric>, points: seq<seq<Point>>, day: int, custom: LabelSet)
    requires |metrics| == |points|
  {
    var back := ReadBack(b.entries, b.chunks);
    && StrictlySorted(SeriesBefore, back)
    && forall s :: s in back <==> IsDayOfSome(s, metrics, points, day, custom)
  }

  lemma BlockHoldsExactlyDay(metrics: seq<Metric>, points: seq<seq<Point>>, day: int, custom: LabelSet,
                             view: map<Str, TimeSeries>, b: Block)
    requires |metrics| == |points| && ViewIsDay(metrics, points, day, custom, view) && IsBlockOfView(b, view)
    ensures HoldsExactlyDay(b, metrics, points, day, custom)
  {
    hide ReadBack, IsBlockOfView, StrictlySorted, OfDay, ToSamples, IsDayOf, ChunksOf, IsCustomized;
    BlockOfViewReadsBack(b, view);
    forall s ensures InView(s, view) <==> IsDayOfSome(s, metrics, points, day, custom) {
      if n :| n in view && IsSeriesOf(s, view[n]) {
        var i :| 0 <= i < |metrics| && EntryIsDay(metrics[i], points[i], day, n);
        IsDayOfIff(s, metrics[i], points[i], day, custom);
      }
      if i :| 0 <= i < |metrics| && IsDayOf(s, metrics[i], points[i], day, custom) {
        IsDayOfIff(s, metrics[i], points[i], day, custom);
        assert IsSeriesOf(s, view[metrics[i].name]);
      }
    }
  }

  // ---------- Where a day's block begins ----------

  lemma {:induction false} SampleOfSomeSeries(series: seq<Series>, x: Sample)
    requires x in SamplesIn(AllChunks(series))
    ensures exists s :: s in series && x in SamplesIn(s.chunks)
  {
    var n := |series| - 1;
    SamplesInAppend(AllChunks(series[..n]), series[n].chunks);
    if x in SamplesIn(AllChunks(series[..n])) {
      SampleOfSomeSeries(series[..n], x);
    }
  }

  /** A series of the view has the samples of some metric on the day. */
  lemma SeriesIsOfDay(metrics: seq<Metric>, points: seq<seq<Point>>, day: int, custom: LabelSet,
                      view: map<Str, TimeSeries>, names: seq<Str>, s: Series)
    requires |metrics| == |points| && ViewIsDay(metrics, points, day, custom, view) && AllAddable(view)
    requires Enumerates(names, view.Keys) && s in SeriesOf(view, names)
    ensures AreChunks(s.chunks)
    ensures forall x :: x in SamplesIn(s.chunks) ==> DayOf(x.ts) == day && x.ts <= MAX_INT64
  {
    hide PositiveIncreasing, ChunksOf, DayOf, IsCustomized, SeriesOf;
    SeriesOfMembers(view, names, s);
    var name :| name in names && IsSeriesOf(s, view[name]);
    EntryOfMetric(metrics, points, day, custom, view, name);
    var i :| 0 <= i < |metrics| && EntryIsDay(metrics[i], points[i], day, name);
    assert Addable(view[name]) && view[name].samples == OfDay(ToSamples(points[i]), day);
    ChunksPartitionSamples(view[name].samples);
    forall x | x in SamplesIn(s.chunks) ensures DayOf(x.ts) == day && x.ts <= MAX_INT64 {
      OfDayMembers(ToSamples(points[i]), day, x);
    }
  }

  lemma {:induction false} OfDayMembers(samples: seq<Sample>, day: int, x: Sample)
    requires x in OfDay(samples, day)
    ensures x in samples && DayOf(x.ts) == day
  {
    var n := |samples| - 1;
    if x in OfDay(samples[..n], day) {
      OfDayMembers(samples[..n], day, x);
    }
  }

  /** A block of a day's series begins on that day, by which a later run knows the day as finished. */
  lemma BlockBeginsOnDay(metrics: seq<Metric>, points: seq<seq<Point>>, day: int, custom: LabelSet,
                         view: map<Str, TimeSeries>, b: Block)
    requires |metrics| == |points| && ViewIsDay(metrics, points, day, custom, view)
    requires Convertible(view) && IsBlockOfView(b, view) && view != map[]
    ensures DayOf(b.minTime) == day
  {
    hide OfDay, ToSamples, DayOf, AreChunks, SamplesIn, AllChunks, TotalsOf, SeriesOf, StrictlySorted, ToInt64;
    hide ViewIsDay, Addable, AllStrings, EntriesOf, ChunksIn;
    var names :| Enumerates(names, view.Keys) &&
      IsBlock(b, AllStrings(SeriesOf(view, names)), multiset(SeriesOf(view, names)));
    var syms, series :|
      && StrictlySorted(Less, syms) && (forall x :: x in syms <==> x in AllStrings(SeriesOf(view, names)))
      && StrictlySorted(SeriesBefore, series) && multiset(series) == multiset(SeriesOf(view, names))
      && b == BlockOf(syms, series);
    SameElements(series, SeriesOf(view, names));
    forall s: Series | s in series
      ensures AreChunks(s.chunks)
      ensures forall x :: x in SamplesIn(s.chunks) ==> DayOf(x.ts) == day && x.ts <= MAX_INT64
    {
      SeriesIsOfDay(metrics, points, day, custom, view, names, s);
    }
    forall x | x in SamplesIn(AllChunks(series)) ensures DayOf(x.ts) == day && x.ts <= MAX_INT64 {
      SampleOfSomeSeries(series, x);
    }
    SomeSeries(metrics, points, day, custom, view, names);
    TotalsSpanSamples(series);
    var first :| first in SamplesIn(AllChunks(series)) && first.ts == TotalsOf(series).minT;
  }

  lemma SomeSeries(metrics: seq<Metric>, points: seq<seq<Point>>, day: int, custom: LabelSet,
                   view: map<Str, TimeSeries>, names: seq<Str>)
    requires |metrics| == |points| && ViewIsDay(metrics, points, day, custom, view)
    requires Enumerates(names, view.Keys) && view != map[]
    ensures SeriesOf(view, names) != []
  {
    hide OfDay, ToSamples, ChunksOf, IsCustomized, SeriesOf;
    var name :| name in view;
    EntryOfMetric(metrics, points, day, custom, view, name);
    var s := Series(view[name].labels, ChunksOf(view[name].samples));
    assert IsSeriesOf(s, view[name]) && name in names;
    SeriesOfMembers(view, names, s);
  }

  /**
   * Pass 2 on a day's log, however pass 1 got there: it fails exactly if custom labels clash or
   * two names differ in empty nodes at the end only, makes a block exactly if some metric has
   * samples that day, and the block then holds exactly those.
   */
  method ConvertDay(file: Str, ghost encode: TimeSeries -> Str, decode: Decoder, custom: LabelSet,
                    symbolsBatchSize: int, seriesBatchSize: int,
                    ghost files: seq<WhisperFile>, ghost job: Job, ghost points: seq<seq<Point>>,
                    ghost run: seq<State>, ghost day: int, ghost stale: Str)
    returns (r: Result<Option<Block>, Pass2Error>)
    requires AllConverted(files, job.metrics, points) && NamesAgree(job) && day in job.dates
    requires Run(job, run) && Completed(run[|run| - 1]) && day in run[|run| - 1].logs
    requires var rs := RecordsOf(run[|run| - 1].logs[day], encode);
      IsCodec(encode, decode) && AllStorable(rs) && file == LogBytes(rs) + Sentinel() + stale
    ensures r.Ok? <==> CustomFitsDay(job.metrics, points, day, custom) && NodesTellApart(job.metrics, points, day)
    ensures r.Ok? ==> (r.value.Some? <==> exists i :: 0 <= i < |points| && OfDay(ToSamples(points[i]), day) != [])
    ensures r.Ok? && r.value.Some? ==> HoldsExactlyDay(r.value.value, job.metrics, points, day, custom)
    ensures r.Ok? && r.value.Some? ==> DayOf(r.value.value.minTime) == day
  {
    hide LogBytes, AllConverted, NamesAgree, OneBlockADay, Convertible, IsBlockOfView, HoldsExactlyDay;
    hide Step, Init, Completed, HoldsDay, AllStorable, IsCodec, LastEntries, OfDay, ToSamples, ViewOf, Sentinel;
    hide CustomFitsDay, NodesTellApart, IsCustomized;
    ghost var log := run[|run| - 1].logs[day];
    ghost var view := ViewOf(log, custom);
    ConvertedOneBlockADay(files, job.metrics, points);
    CompletedRunHoldsDays(job, run, day);
    SameCounts(files, job.metrics, points);
    LogIsDay(files, job, points, day, custom, log);
    DayIsConvertible(files, job, points, day, custom, view);
    ClosedLogLeads(log, stale, encode, decode, custom);
    r := CreateOneBlock(file, decode, custom, symbolsBatchSize, seriesBatchSize);
    if r.Ok? && r.value.Some? {
      BlockHoldsExactlyDay(job.metrics, points, day, custom, view, r.value.value);
      BlockBeginsOnDay(job.metrics, points, day, custom, view, r.value.value);
    }
  }

  lemma SameCounts(files: seq<WhisperFile>, metrics: seq<Metric>, points: seq<seq<Point>>)
    requires AllConverted(files, metrics, points)
    ensures |files| == |metrics| == |points|
  {
  }

  // ---------- From the files' bytes to blocks ----------

  /** Pass 2 on a day's log as any completed run of pass 1 on files left and closed it. */
  method ConvertClosedDay(file: Str, ghost x: Setting, decode: Decoder, custom: LabelSet,
                          symbolsBatchSize: int, seriesBatchSize: int,
                          ghost files: seq<WhisperFile>, ghost points: seq<seq<Point>>,
                          ghost fs: seq<FileState>, ghost day: int)
    returns (r: Result<Option<Block>, Pass2Error>)
    requires AllConverted(files, x.job.metrics, points) && NamesAgree(x.job) && day in x.job.dates
    requires CanStore(x) && x.decode == decode
    requires CleanRun(x, fs) && day in fs[|fs| - 1].files
    requires var f := fs[|fs| - 1];
      && f.queue == [] && (forall w :: 0 <= w < |f.workers| ==> f.workers[w] == Idle)
      && file == WriteAt(f.files[day].data, f.files[day].head, Sentinel())
    ensures r.Ok? <==>
      CustomFitsDay(x.job.metrics, points, day, custom) && NodesTellApart(x.job.metrics, points, day)
    ensures r.Ok? ==> (r.value.Some? <==> exists i :: 0 <= i < |points| && OfDay(ToSamples(points[i]), day) != [])
    ensures r.Ok? && r.value.Some? ==> HoldsExactlyDay(r.value.value, x.job.metrics, points, day, custom)
    ensures r.Ok? && r.value.Some? ==> DayOf(r.value.value.minTime) == day
  {
    hide CleanRun, NamesAgree, Run, Completed, LogBytes, Sentinel, WriteAt, AllStorable;
    hide OfDay, ToSamples, WellConverted;
    hide HoldsExactlyDay, CustomFitsDay, NodesTellApart;
    ghost var run, stale := ClosedDayLog(x, fs, day);
    CodecOf(x);
    r := ConvertDay(file, x.encode, decode, custom, symbolsBatchSize, seriesBatchSize,
                    files, x.job, points, run, day, stale);
  }

  lemma CodecOf(x: Setting)
    requires CanStore(x)
    ensures IsCodec(x.encode, x.decode)
  {
  }
}
