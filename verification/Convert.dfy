/** What pass 1 makes of one Whisper file (createIntermediateFromChan in whisperconverter/pass1.go). */
module Convert {
  import opened Wrappers
  import opened Bytes
  import opened Orders
  import opened Names
  import opened Chunks
  import opened Whisper
  import opened WhisperFacts
  import opened Days
  import opened Pass1

  datatype WhisperFile = WhisperFile(name: Str, archives: seq<Archive>)

  /** What pass 1 makes of a file, whose merged points are `points`. */
  ghost predicate IsConverted(f: WhisperFile, m: Metric, points: seq<Point>) {
    && m.name == f.name && Lists(m.labels, UntaggedLabels(f.name))
    && if m.blocks.None? then points == [] && NothingRead(f.archives) else
         && points != [] && IsRead(f.archives, Ok(points))
         && IsDaySplit(ToSamples(points), m.blocks.value)
  }

  /** Reading fails or yields no points. */
  ghost predicate NothingRead(archives: seq<Archive>) {
    exists r :: IsRead(archives, r) && (r.Err? || r.value == [])
  }

  method ConvertFile(f: WhisperFile) returns (m: Metric, ghost points: seq<Point>)
    ensures IsConverted(f, m, points)
    ensures m.name == f.name && Lists(m.labels, UntaggedLabels(f.name))
  {
    hide IsRead, Lists, IsDaySplit, ToSamples;
    points := [];
    var read := ReadPoints(f.archives);
    var labelsBuilder := new LabelsBuilder();
    var ls := LabelsFromUntaggedName(f.name, labelsBuilder);
    if read.Err? {
      return Metric(f.name, ls, None), [];
    }
    var samples := ToMimirSamples(read.value);
    if samples.Err? {
      return Metric(f.name, ls, None), [];
    }
    var blocks := SplitSamplesByDays(samples.value);
    m, points := Metric(f.name, ls, Some(blocks)), read.value;
  }

  /** Retentions grow and an archive has one point per timestamp; asked only of files that pass 1 does convert. */
  ghost predicate Wellformed(f: WhisperFile) {
    && RetentionsGrow(f.archives)
    && (forall i :: 0 <= i < |f.archives| && f.archives[i].dump.Some? ==> DistinctTimestamps(f.archives[i].dump.value))
  }

  ghost predicate WellConverted(f: WhisperFile, m: Metric, points: seq<Point>) {
    IsConverted(f, m, points) && (m.blocks.Some? ==> Wellformed(f))
  }

  ghost predicate AllConverted(files: seq<WhisperFile>, metrics: seq<Metric>, points: seq<seq<Point>>) {
    && |files| == |metrics| == |points|
    && forall i :: 0 <= i < |files| ==> WellConverted(files[i], metrics[i], points[i])
  }

  lemma PointsRise(f: WhisperFile, m: Metric, points: seq<Point>)
    requires WellConverted(f, m, points)
    ensures PositiveIncreasing(ToSamples(points))
  {
    hide PositiveIncreasing, Rising, ToSamples, IsDaySplit, Lists, IsMerge, RetentionsGrow, DistinctTimestamps;
    if m.blocks.Some? {
      var n := FindNewest(f.archives, 0, 0).value;
      MergeMeetsWindows(f.archives, Now(n), 0, points);
    } else {
      NoPointsRise();
    }
    RisingPointsGiveIncreasingSamples(points);
  }

  lemma NoPointsRise()
    ensures Rising([])
  {
  }

  /** A converted file's block of a day, if there is one, holds exactly the day's samples. */
  lemma BlocksAreDays(f: WhisperFile, m: Metric, points: seq<Point>, day: int)
    requires WellConverted(f, m, points)
    ensures OfDay(ToSamples(points), day) != [] <==> exists block :: HasDay(m, day, block)
    ensures forall block :: HasDay(m, day, block) ==> block == OfDay(ToSamples(points), day)
  {
    hide OfDay, BlockDay, Wellformed, ToSamples, DayBlocks, Increasing;
    PointsRise(f, m, points);
    if m.blocks.Some? {
      var blocks := m.blocks.value;
      BlockDaysIncrease(ToSamples(points), blocks);
      forall block | HasDay(m, day, block) ensures block == OfDay(ToSamples(points), day) && block != [] {
        var k :| 0 <= k < |blocks| && blocks[k] == block;
        BlockHoldsDay(blocks, k);
        BlockNotEmpty(blocks, k);
      }
      if forall k :: 0 <= k < |blocks| ==> BlockDay(blocks[k]) != day {
        NoBlockNoSamples(blocks, day);
      } else {
        var k :| 0 <= k < |blocks| && BlockDay(blocks[k]) == day;
        assert HasDay(m, day, blocks[k]);
      }
    } else {
      NothingOfDay(day);
    }
  }

  lemma BlockNotEmpty(blocks: seq<seq<Sample>>, k: nat)
    requires DayBlocks(blocks) && k < |blocks|
    ensures blocks[k] != []
  {
  }

  lemma NothingOfDay(day: int)
    ensures OfDay(ToSamples([]), day) == []
  {
  }

  /** Blocks of one metric are told apart by their day. */
  lemma ConvertedOneBlockADay(files: seq<WhisperFile>, metrics: seq<Metric>, points: seq<seq<Point>>)
    requires AllConverted(files, metrics, points)
    ensures OneBlockADay(metrics)
  {
    hide WellConverted, OfDay, ToSamples;
    forall m, a, b | m in metrics && HasBlock(m, a) && HasBlock(m, b) && BlockDay(a) == BlockDay(b) ensures a == b {
      var i :| 0 <= i < |metrics| && metrics[i] == m;
      BlocksAreDays(files[i], m, points[i], BlockDay(a));
      assert HasDay(m, BlockDay(a), a) && HasDay(m, BlockDay(a), b);
    }
  }

  // ---------- Converting again gives the same ----------

  lemma {:induction false} RisingIsUnique(a: seq<Point>, b: seq<Point>)
    requires Rising(a) && Rising(b) && forall p :: p in a <==> p in b
    ensures a == b
  {
    EarlierOrders();
    forall i, j | 0 <= i < j < |a| ensures InStrictOrder(Earlier, a, i, j) {
    }
    forall i, j | 0 <= i < j < |b| ensures InStrictOrder(Earlier, b, i, j) {
    }
    StrictlySortedUnique(Earlier, a, b);
  }

  /** The last block begins where the last sample's day does. */
  lemma LastBlockIsLongest(samples: seq<Sample>, blocks: seq<seq<Sample>>, other: seq<Sample>)
    requires IsDaySplit(samples, blocks) && blocks != []
    requires other != [] && |other| <= |samples| && samples[|samples| - |other|..] == other
    requires OneDay(other, BlockDay(other))
    ensures |other| <= |blocks[|blocks| - 1]|
  {
    var n := |blocks| - 1;
    var last := blocks[n];
    assert OneDay(last, BlockDay(last));
    assert samples == Join(blocks[..n]) + last;
    var from := |samples| - |other|;
    forall p | from <= p < |samples| ensures DayOf(samples[p].ts) == BlockDay(other) {
      assert other[p - from] == samples[p];
    }
    if n > 0 {
      var k := |samples| - |last|;
      assert blocks[..n][..n - 1] == blocks[..n - 1];
      assert OneDay(blocks[n - 1], BlockDay(blocks[n - 1]));
      assert samples[k - 1] == blocks[n - 1][|blocks[n - 1]| - 1] && samples[k] == last[0];
      assert DayOf(samples[k - 1].ts) != DayOf(samples[k].ts);
    }
  }

  lemma {:induction false} DaySplitIsUnique(samples: seq<Sample>, a: seq<seq<Sample>>, b: seq<seq<Sample>>)
    requires IsDaySplit(samples, a) && IsDaySplit(samples, b)
    ensures a == b
    decreases |a|
  {
    assert a != [] ==> OneDay(a[|a| - 1], BlockDay(a[|a| - 1]));
    assert b != [] ==> OneDay(b[|b| - 1], BlockDay(b[|b| - 1]));
    if a != [] && b != [] {
      var m, n := |a| - 1, |b| - 1;
      assert samples == Join(a[..m]) + a[m] && samples == Join(b[..n]) + b[n];
      LastBlockIsLongest(samples, a, b[n]);
      LastBlockIsLongest(samples, b, a[m]);
      assert samples[..|samples| - |a[m]|] == Join(a[..m]) == Join(b[..n]);
      ShorterSplit(samples, a);
      ShorterSplit(samples, b);
      DaySplitIsUnique(Join(a[..m]), a[..m], b[..n]);
      assert a == a[..m] + [a[m]] && b == b[..n] + [b[n]];
    }
  }

  lemma ShorterSplit(samples: seq<Sample>, blocks: seq<seq<Sample>>)
    requires IsDaySplit(samples, blocks) && blocks != []
    ensures IsDaySplit(Join(blocks[..|blocks| - 1]), blocks[..|blocks| - 1])
  {
    var shorter := blocks[..|blocks| - 1];
    forall k | 0 < k < |shorter| ensures BlockDay(shorter[k - 1]) != BlockDay(shorter[k]) {
      assert BlockDay(blocks[k - 1]) != BlockDay(blocks[k]);
    }
  }

  /** For such archives reading has one outcome, up to the error. */
  lemma ReadIsUnique(f: WhisperFile, points: seq<Point>, r: Result<seq<Point>, WhisperError>)
    requires Wellformed(f) && IsRead(f.archives, Ok(points)) && IsRead(f.archives, r)
    ensures r == Ok(points)
  {
    hide Rising, IsMerge, RetentionsGrow, DistinctTimestamps, TakenFrom;
    var n := FindNewest(f.archives, 0, 0).value;
    if Now(n) != 0 {
      MergeMeetsWindows(f.archives, Now(n), 0, points);
      MergeMeetsWindows(f.archives, Now(n), 0, r.value);
      RisingIsUnique(points, r.value);
    }
  }

  lemma {:induction false} SameMergeSize(archives: seq<Archive>, now: uint32, i: nat, a: seq<Point>, b: seq<Point>)
    requires i <= |archives| && IsMerge(archives, now, i, a) && IsMerge(archives, now, i, b)
    ensures |a| == |b|
    decreases |archives| - i
  {
    if i < |archives| {
      var older: seq<Point>, own: seq<Point> :|
        a == older + own && IsMerge(archives, now, i + 1, older) && IsSelection(archives, now, i, own);
      var older': seq<Point>, own': seq<Point> :|
        b == older' + own' && IsMerge(archives, now, i + 1, older') && IsSelection(archives, now, i, own');
      SameMergeSize(archives, now, i + 1, older, older');
      SameSize(own, own');
    }
  }

  /** Whether there is anything to read does not depend on how ties are sorted. */
  lemma NothingToRead(archives: seq<Archive>, points: seq<Point>)
    requires NothingRead(archives) && IsRead(archives, Ok(points))
    ensures points == []
  {
    hide IsMerge;
    var r :| IsRead(archives, r) && (r.Err? || r.value == []);
    var n := FindNewest(archives, 0, 0).value;
    if Now(n) != 0 {
      SameMergeSize(archives, Now(n), 0, points, r.value);
    }
  }

  /** So a worker makes the same of a file in every run. */
  lemma ConversionIsUnique(f: WhisperFile, m: Metric, points: seq<Point>, n: Metric, others: seq<Point>)
    requires WellConverted(f, m, points) && IsConverted(f, n, others)
    ensures m == n && points == others
  {
    hide Lists, IsRead, IsDaySplit, Wellformed, ToSamples, NothingRead;
    ListsUnique(m.labels, n.labels, UntaggedLabels(f.name));
    if m.blocks.Some? && n.blocks.Some? {
      ReadIsUnique(f, points, Ok(others));
      DaySplitIsUnique(ToSamples(points), m.blocks.value, n.blocks.value);
    } else if m.blocks.Some? {
      NothingToRead(f.archives, points);
    } else if n.blocks.Some? {
      NothingToRead(f.archives, others);
    }
  }
}
