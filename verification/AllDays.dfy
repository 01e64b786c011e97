/** The blocks of all days together. */
module AllDays {
  import opened Wrappers
  import opened Orders
  import opened Labels
  import opened Names
  import opened Chunks
  import opened Whisper
  import opened WhisperFacts
  import opened Days
  import opened SeriesOrder
  import opened Blocks
  import opened Pass1
  import opened Convert
  import opened CustomLabels
  import opened Pipeline
  import DateRange

  /** What the series with these labels hold. */
  function SamplesLabelled(back: seq<Series>, ls: LabelSet): seq<Sample> {
    if back == [] then []
    else
      var n := |back| - 1;
      SamplesLabelled(back[..n], ls) + if back[n].metric == ls then SamplesIn(back[n].chunks) else []
  }

  function InBlock(b: Option<Block>, ls: LabelSet): seq<Sample> {
    if b.None? then [] else SamplesLabelled(ReadBack(b.value.entries, b.value.chunks), ls)
  }

  /** Block after block, the samples stored under the labels. */
  function AcrossBlocks(blocks: seq<Option<Block>>, ls: LabelSet): seq<Sample> {
    if blocks == [] then [] else AcrossBlocks(blocks[..|blocks| - 1], ls) + InBlock(blocks[|blocks| - 1], ls)
  }

  /** What converting a day gives: see Pipeline.ConvertDay. */
  ghost predicate IsBlockOfDay(b: Option<Block>, metrics: seq<Metric>, points: seq<seq<Point>>, day: int,
                               custom: LabelSet)
    requires |metrics| == |points|
  {
    && (b.Some? <==> exists i :: 0 <= i < |points| && OfDay(ToSamples(points[i]), day) != [])
    && (b.Some? ==> HoldsExactlyDay(b.value, metrics, points, day, custom))
  }

  lemma {:induction false} NoneLabelled(back: seq<Series>, ls: LabelSet)
    requires forall s :: s in back ==> s.metric != ls
    ensures SamplesLabelled(back, ls) == []
  {
    if back != [] {
      assert back[|back| - 1] in back;
      NoneLabelled(back[..|back| - 1], ls);
    }
  }

  lemma {:induction false} OneLabelled(back: seq<Series>, k: nat)
    requires k < |back| && forall j :: 0 <= j < |back| && j != k ==> back[j].metric != back[k].metric
    ensures SamplesLabelled(back, back[k].metric) == SamplesIn(back[k].chunks)
  {
    var n := |back| - 1;
    if k == n {
      NoneLabelled(back[..n], back[k].metric);
    } else {
      OneLabelled(back[..n], k);
    }
  }

  lemma SortedLabelledOnce(back: seq<Series>, k: nat)
    requires StrictlySorted(SeriesBefore, back) && k < |back|
    ensures forall j :: 0 <= j < |back| && j != k ==> back[j].metric != back[k].metric
  {
    BeforeOrdersLabelSets();
    assert Asymmetric(Before, back[k].metric, back[k].metric);
    forall j | 0 <= j < |back| && j != k ensures back[j].metric != back[k].metric {
      assert InStrictOrder(SeriesBefore, back, if j < k then j else k, if j < k then k else j);
    }
  }

  /** Whatever else is stored under the labels on that day is the same. */
  ghost predicate LabelsTell(metrics: seq<Metric>, points: seq<seq<Point>>, i: nat, day: int, custom: LabelSet)
    requires |metrics| == |points| && i < |metrics|
  {
    forall j :: 0 <= j < |metrics| && SharesLabels(metrics, points, i, j, day, custom) ==>
      OfDay(ToSamples(points[j]), day) == OfDay(ToSamples(points[i]), day)
  }

  ghost predicate SharesLabels(metrics: seq<Metric>, points: seq<seq<Point>>, i: nat, j: nat, day: int,
                               custom: LabelSet)
    requires |metrics| == |points| && i < |metrics| && j < |metrics|
  {
    && OfDay(ToSamples(points[j]), day) != []
    && Customized(metrics[j].labels, custom) == Customized(metrics[i].labels, custom)
  }

  /** No other converted file's name differs from that of file `i` in empty nodes at the end only. */
  ghost predicate OwnNodes(metrics: seq<Metric>, points: seq<seq<Point>>, i: nat)
    requires |metrics| == |points| && i < |metrics|
  {
    forall j :: 0 <= j < |metrics| && points[j] != [] && metrics[j].name != metrics[i].name ==>
      !SameNodes(metrics[j].name, metrics[i].name)
  }

  /** Files of one name have the same samples on every asked-for day. */
  lemma SameNameSameDay(files: seq<WhisperFile>, job: Job, points: seq<seq<Point>>, i: nat, j: nat, day: int)
    requires AllConverted(files, job.metrics, points) && NamesAgree(job) && day in job.dates
    requires i < |job.metrics| && j < |job.metrics| && job.metrics[i].name == job.metrics[j].name && points[i] != []
    requires OfDay(ToSamples(points[j]), day) != []
    ensures OfDay(ToSamples(points[j]), day) == OfDay(ToSamples(points[i]), day)
  {
    hide OfDay, ToSamples, Wellformed, IsRead, IsDaySplit, Lists;
    var m, n := job.metrics[i], job.metrics[j];
    assert WellConverted(files[i], m, points[i]) && WellConverted(files[j], n, points[j]);
    BlocksAreDays(files[i], m, points[i], day);
    BlocksAreDays(files[j], n, points[j], day);
    var block :| HasDay(n, day, block);
    assert m in job.metrics && n in job.metrics && SameName(n, m) && HasBlock(n, block);
    assert HasEntry(m, EntryFor(n, block));
    assert HasDay(m, day, block);
  }

  lemma NodesTell(files: seq<WhisperFile>, job: Job, points: seq<seq<Point>>, i: nat, day: int, custom: LabelSet)
    requires AllConverted(files, job.metrics, points) && NamesAgree(job) && day in job.dates
    requires i < |job.metrics| && points[i] != [] && OwnNodes(job.metrics, points, i)
    ensures LabelsTell(job.metrics, points, i, day, custom)
  {
    hide OfDay, ToSamples, WellConverted, IsCustomized, NamesAgree, SameNodes;
    var metrics := job.metrics;
    forall j | 0 <= j < |metrics| && SharesLabels(metrics, points, i, j, day, custom)
      ensures OfDay(ToSamples(points[j]), day) == OfDay(ToSamples(points[i]), day)
    {
      NothingOfDay(day);
      CustomizedEqualIff(files[j], files[i], metrics[j], metrics[i], points[j], points[i], custom);
      SameNameSameDay(files, job, points, i, j, day);
    }
  }

  /** A day's block gives a metric's samples of that day back. */
  lemma BlockGivesDay(b: Option<Block>, metrics: seq<Metric>, points: seq<seq<Point>>, day: int, custom: LabelSet,
                      i: nat)
    requires |metrics| == |points| && i < |metrics| && LabelsTell(metrics, points, i, day, custom)
    requires IsBlockOfDay(b, metrics, points, day, custom)
    ensures InBlock(b, Customized(metrics[i].labels, custom)) == OfDay(ToSamples(points[i]), day)
  {
    hide OfDay, ToSamples, IsCustomized, ReadBack, SamplesLabelled, StrictlySorted;
    var ls := Customized(metrics[i].labels, custom);
    var samples := OfDay(ToSamples(points[i]), day);
    if b.Some? {
      var back := ReadBack(b.value.entries, b.value.chunks);
      forall s | s in back && s.metric == ls ensures IsDayOf(s, metrics[i], points[i], day, custom) {
        assert IsDayOfSome(s, metrics, points, day, custom);
        var j :| 0 <= j < |metrics| && IsDayOf(s, metrics[j], points[j], day, custom);
        assert SharesLabels(metrics, points, i, j, day, custom);
      }
      if samples == [] {
        NoneLabelled(back, ls);
      } else {
        ChunksPartitionSamples(samples);
        var s := Series(ls, ChunksOf(samples));
        assert IsDayOf(s, metrics[i], points[i], day, custom) && IsDayOfSome(s, metrics, points, day, custom);
        var k :| 0 <= k < |back| && back[k] == s;
        SortedLabelledOnce(back, k);
        OneLabelled(back, k);
      }
    }
  }

  lemma {:induction false} BlocksGiveDays(blocks: seq<Option<Block>>, metrics: seq<Metric>, points: seq<seq<Point>>,
                                          dates: seq<int>, custom: LabelSet, i: nat)
    requires |metrics| == |points| && i < |metrics| && |blocks| == |dates|
    requires forall k :: 0 <= k < |dates| ==>
      IsBlockOfDay(blocks[k], metrics, points, dates[k], custom) && LabelsTell(metrics, points, i, dates[k], custom)
    ensures AcrossBlocks(blocks, Customized(metrics[i].labels, custom)) ==
      DateRange.DayByDay(ToSamples(points[i]), dates)
  {
    hide IsBlockOfDay, LabelsTell, InBlock, OfDay, ToSamples, IsCustomized;
    if blocks != [] {
      var n := |blocks| - 1;
      BlocksGiveDays(blocks[..n], metrics, points, dates[..n], custom, i);
      BlockGivesDay(blocks[n], metrics, points, dates[n], custom, i);
    }
  }

  /** The blocks of the job's days, one for each date of the list. */
  ghost predicate AreBlocksOfDays(blocks: seq<Option<Block>>, job: Job, points: seq<seq<Point>>, dates: seq<int>,
                                  custom: LabelSet)
    requires |job.metrics| == |points|
  {
    && |blocks| == |dates|
    && forall k :: 0 <= k < |dates| ==>
         dates[k] in job.dates && IsBlockOfDay(blocks[k], job.metrics, points, dates[k], custom)
  }

  lemma BlocksMakeUpDays(files: seq<WhisperFile>, job: Job, points: seq<seq<Point>>,
                         dates: seq<int>, blocks: seq<Option<Block>>, custom: LabelSet, i: nat)
    requires AllConverted(files, job.metrics, points) && NamesAgree(job)
    requires AreBlocksOfDays(blocks, job, points, dates, custom)
    requires i < |job.metrics| && points[i] != [] && OwnNodes(job.metrics, points, i)
    ensures AcrossBlocks(blocks, Customized(job.metrics[i].labels, custom)) ==
      DateRange.DayByDay(ToSamples(points[i]), dates)
  {
    hide IsBlockOfDay, OfDay, ToSamples, IsCustomized, NamesAgree, WellConverted, OwnNodes, LabelsTell;
    forall k | 0 <= k < |dates| ensures LabelsTell(job.metrics, points, i, dates[k], custom) {
      NodesTell(files, job, points, i, dates[k], custom);
    }
    BlocksGiveDays(blocks, job.metrics, points, dates, custom, i);
  }

  /**
   * Over consecutive dates that cover a converted file, the chunks stored under its labels in
   * the blocks of these days, one after the other, are exactly its converted points.
   */
  lemma BlocksMakeUpPoints(files: seq<WhisperFile>, job: Job, points: seq<seq<Point>>,
                           dates: seq<int>, blocks: seq<Option<Block>>, custom: LabelSet, i: nat)
    requires AllConverted(files, job.metrics, points) && NamesAgree(job)
    requires AreBlocksOfDays(blocks, job, points, dates, custom)
    requires i < |job.metrics| && points[i] != [] && OwnNodes(job.metrics, points, i)
    requires DateRange.Consecutive(dates) && forall x :: x in ToSamples(points[i]) ==> DayOf(x.ts) in dates
    ensures ArePoints(AcrossBlocks(blocks, Customized(job.metrics[i].labels, custom)), points[i])
  {
    hide OfDay, ToSamples, IsCustomized, NamesAgree, WellConverted, DayOf, OwnNodes, AreBlocksOfDays;
    hide DateRange.Consecutive;
    BlocksMakeUpDays(files, job, points, dates, blocks, custom, i);
    assert WellConverted(files[i], job.metrics[i], points[i]);
    PointsRise(files[i], job.metrics[i], points[i]);
    DateRange.DaysMakeUpSamples(ToSamples(points[i]), dates);
    SamplesArePoints(ToSamples(points[i]), points[i]);
  }

  /** What the workers of the daterange command read; nothing from files that cannot be converted. */
  function SamplesRead(points: seq<seq<Point>>): (r: seq<seq<Sample>>)
    ensures |r| == |points|
  {
    seq(|points|, i requires 0 <= i < |points| => ToSamples(points[i]))
  }

  /** Times in milliseconds from 32-bit seconds are int64. */
  lemma ReadTimesFit(points: seq<seq<Point>>)
    ensures DateRange.InInt64(SamplesRead(points))
  {
    forall ts | DateRange.IsTime(SamplesRead(points), ts)
      ensures -0x8000_0000_0000_0000 <= ts <= 0x7FFF_FFFF_FFFF_FFFF
    {
      var i, x :| 0 <= i < |points| && x in SamplesRead(points)[i] && x.ts == ts;
    }
  }

  /**
   * From one end to the other: the daterange command on the files, both passes over the dates
   * it suggests, and the blocks of these dates give every file's converted points back.
   */
  lemma SuggestedBlocksMakeUpPoints(files: seq<WhisperFile>, job: Job, points: seq<seq<Point>>,
                                    scan: seq<DateRange.State>, dates: seq<int>, blocks: seq<Option<Block>>,
                                    custom: LabelSet, i: nat)
    requires AllConverted(files, job.metrics, points) && NamesAgree(job)
    requires DateRange.Run(SamplesRead(points), scan) && DateRange.AllSent(scan[|scan| - 1])
    requires DateRange.IsDateList(dates, scan[|scan| - 1].seen) && job.dates == (set d | d in dates)
    requires |blocks| == |dates|
    requires forall k :: 0 <= k < |dates| ==> IsBlockOfDay(blocks[k], job.metrics, points, dates[k], custom)
    requires i < |job.metrics| && points[i] != [] && OwnNodes(job.metrics, points, i)
    ensures ArePoints(AcrossBlocks(blocks, Customized(job.metrics[i].labels, custom)), points[i])
  {
    hide OfDay, ToSamples, IsCustomized, NamesAgree, WellConverted, OwnNodes, IsBlockOfDay;
    hide DateRange.Run, DateRange.InInt64, DateRange.AllSent, DateRange.IsDateList, Increasing;
    assert WellConverted(files[i], job.metrics[i], points[i]);
    PointsRise(files[i], job.metrics[i], points[i]);
    ReadTimesFit(points);
    BlocksMakeUpDays(files, job, points, dates, blocks, custom, i);
    DateRange.SuggestedDaysCover(SamplesRead(points), scan, i, dates);
    SamplesArePoints(ToSamples(points[i]), points[i]);
  }

  /**
   * And from the archives of the Whisper file: the blocks hold, in the order of time, exactly what
   * lies within each archive's own part of the past, with its value, at its time in milliseconds.
   */
  lemma SuggestedBlocksHoldArchives(files: seq<WhisperFile>, job: Job, points: seq<seq<Point>>,
                                    scan: seq<DateRange.State>, dates: seq<int>, blocks: seq<Option<Block>>,
                                    custom: LabelSet, i: nat, j: nat, x: Sample)
    requires AllConverted(files, job.metrics, points) && NamesAgree(job)
    requires DateRange.Run(SamplesRead(points), scan) && DateRange.AllSent(scan[|scan| - 1])
    requires DateRange.IsDateList(dates, scan[|scan| - 1].seen) && job.dates == (set d | d in dates)
    requires |blocks| == |dates|
    requires forall k :: 0 <= k < |dates| ==> IsBlockOfDay(blocks[k], job.metrics, points, dates[k], custom)
    requires i < |job.metrics| && points[i] != [] && OwnNodes(job.metrics, points, i)
    requires Readable(files[i].archives) && FirstWithPoints(files[i].archives, j)
    ensures PositiveIncreasing(AcrossBlocks(blocks, Customized(job.metrics[i].labels, custom)))
    ensures x in AcrossBlocks(blocks, Customized(job.metrics[i].labels, custom)) <==>
      exists p: Point :: x == Sample(1000 * p.timestamp, p.value) && IsWithin(files[i].archives, j, p)
  {
    hide OfDay, IsCustomized, NamesAgree, OwnNodes, IsBlockOfDay, IsDaySplit, IsMerge, Rising, Readable, Lists;
    hide DateRange.Run, DateRange.AllSent, DateRange.IsDateList, ToSamples, FirstWithPoints, IsWithin;
    SuggestedBlocksMakeUpPoints(files, job, points, scan, dates, blocks, custom, i);
    var held := AcrossBlocks(blocks, Customized(job.metrics[i].labels, custom));
    SamplesArePoints(held, points[i]);
    assert WellConverted(files[i], job.metrics[i], points[i]);
    PointsRise(files[i], job.metrics[i], points[i]);
    ConvertedIsRead(files[i], job.metrics[i], points[i]);
    ReadIs(files[i].archives, j, points[i]);
    HeldAreWithin(held, points[i], files[i].archives, j, x);
  }

  lemma HeldAreWithin(held: seq<Sample>, points: seq<Point>, archives: seq<Archive>, j: nat, x: Sample)
    requires ArePoints(held, points) && FirstWithPoints(archives, j)
    requires forall p :: p in points <==> IsWithin(archives, j, p)
    ensures x in held <==> exists p: Point :: x == Sample(1000 * p.timestamp, p.value) && IsWithin(archives, j, p)
  {
    hide IsWithin, FirstWithPoints;
    if x in held {
      var k :| 0 <= k < |held| && held[k] == x;
      assert points[k] in points && IsWithin(archives, j, points[k]);
    }
    if p: Point :| x == Sample(1000 * p.timestamp, p.value) && IsWithin(archives, j, p) {
      var k :| 0 <= k < |points| && points[k] == p;
      assert held[k] == x;
    }
  }

  lemma ConvertedIsRead(f: WhisperFile, m: Metric, points: seq<Point>)
    requires WellConverted(f, m, points) && points != []
    ensures IsRead(f.archives, Ok(points))
  {
  }
}
