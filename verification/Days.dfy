/** Converting points to samples and splitting them at midnight UTC (whisperconverter/whisper.go). */
module Days {
  import opened Wrappers
  import opened Chunks
  import opened Whisper
  import opened WhisperFacts

  const MS_PER_DAY := 86_400_000

  /** The UTC day of a time in milliseconds. */
  function DayOf(ms: int): int {
    ms / MS_PER_DAY
  }

  /** Day 0 begins with 1970, and every day has 86,400,000 milliseconds. */
  lemma DayOfIs(ms: int, day: int)
    ensures DayOf(ms) == day <==> day * 86_400_000 <= ms < (day + 1) * 86_400_000
  {
  }

  /** Both times lie between the same two midnights. */
  ghost predicate SameDay(a: int, b: int) {
    exists day :: Between(day, a) && Between(day, b)
  }

  predicate Between(day: int, ms: int) {
    day * 86_400_000 <= ms < (day + 1) * 86_400_000
  }

  lemma SameDayIff(a: int, b: int)
    ensures SameDay(a, b) <==> DayOf(a) == DayOf(b)
  {
    assert Between(DayOf(a), a) && Between(DayOf(b), b);
  }

  function ToSample(p: Point): Sample {
    Sample(p.timestamp * 1000, p.value)
  }

  function ToSamples(points: seq<Point>): (r: seq<Sample>)
    ensures |r| == |points|
  {
    seq(|points|, i requires 0 <= i < |points| => ToSample(points[i]))
  }

  method ToMimirSamples(points: seq<Point>) returns (r: Result<seq<Sample>, WhisperError>)
    ensures r == if points == [] then Err(NoPoints) else Ok(ToSamples(points))
    ensures r.Ok? ==> ArePoints(r.value, points)
  {
    if |points| == 0 {
      return Err(NoPoints);
    }
    var samples: seq<Sample> := [];
    for k := 0 to |points|
      invariant samples == ToSamples(points)[..k]
    {
      samples := samples + [Sample(points[k].timestamp * 1000, points[k].value)];
    }
    assert ToSamples(points)[..|points|] == ToSamples(points);
    r := Ok(samples);
  }

  /** The samples are the points, one for one: the same values, and the times in milliseconds. */
  ghost predicate ArePoints(samples: seq<Sample>, points: seq<Point>) {
    && |samples| == |points|
    && forall k :: 0 <= k < |points| ==>
         samples[k].ts == 1000 * points[k].timestamp && samples[k].value == points[k].value
  }

  lemma SamplesArePoints(samples: seq<Sample>, points: seq<Point>)
    ensures ArePoints(samples, points) <==> samples == ToSamples(points)
  {
    if ArePoints(samples, points) {
      assert forall k :: 0 <= k < |points| ==> samples[k] == ToSamples(points)[k];
    }
  }

  lemma RisingPointsGiveIncreasingSamples(points: seq<Point>)
    requires Rising(points)
    ensures PositiveIncreasing(ToSamples(points))
  {
  }

  function Join(blocks: seq<seq<Sample>>): seq<Sample> {
    if blocks == [] then [] else Join(blocks[..|blocks| - 1]) + blocks[|blocks| - 1]
  }

  ghost predicate OneDay(block: seq<Sample>, day: int) {
    block != [] && forall i :: 0 <= i < |block| ==> DayOf(block[i].ts) == day
  }

  function BlockDay(block: seq<Sample>): int {
    if block == [] then 0 else DayOf(block[0].ts)
  }

  ghost predicate DayBlocks(blocks: seq<seq<Sample>>) {
    forall k :: 0 <= k < |blocks| ==> OneDay(blocks[k], BlockDay(blocks[k]))
  }

  /** Cut exactly where the day changes. */
  ghost predicate IsDaySplit(samples: seq<Sample>, blocks: seq<seq<Sample>>) {
    && Join(blocks) == samples
    && DayBlocks(blocks)
    && (forall k :: 0 < k < |blocks| ==> BlockDay(blocks[k - 1]) != BlockDay(blocks[k]))
  }

  method SplitSamplesByDays(samples: seq<Sample>) returns (blocks: seq<seq<Sample>>)
    ensures IsDaySplit(samples, blocks)
    ensures Join(blocks) == samples && SplitAtMidnight(blocks)
  {
    hide IsDaySplit, SplitAtMidnight, DayOf;
    blocks := [];
    NoBlocks();
    if |samples| == 0 {
      DaySplitIsAtMidnight(samples, blocks);
      return;
    }
    var blockStartIdx := 0;
    var blockDay := DayOf(samples[0].ts);
    var idx := 0;
    while idx < |samples|
      invariant 0 <= blockStartIdx <= idx <= |samples| && (idx > 0 ==> blockStartIdx < idx)
      invariant forall i :: blockStartIdx <= i < idx ==> DayOf(samples[i].ts) == blockDay
      invariant idx == 0 ==> blockDay == DayOf(samples[0].ts)
      invariant IsDaySplit(samples[..blockStartIdx], blocks)
      invariant blocks != [] ==> BlockDay(blocks[|blocks| - 1]) != blockDay
    {
      var sampleDay := DayOf(samples[idx].ts);
      if sampleDay != blockDay {
        OneMoreBlock(samples, blocks, blockStartIdx, idx, blockDay);
        blocks := blocks + [samples[blockStartIdx..idx]];
        blockStartIdx, blockDay := idx, sampleDay;
      }
      idx := idx + 1;
    }
    OneMoreBlock(samples, blocks, blockStartIdx, |samples|, blockDay);
    assert samples[blockStartIdx..] == samples[blockStartIdx..|samples|] && samples[..|samples|] == samples;
    blocks := blocks + [samples[blockStartIdx..]];
    DaySplitIsAtMidnight(samples, blocks);
  }

  /** Between two samples next to each other there is a midnight exactly if they are in different blocks. */
  ghost predicate SplitAtMidnight(blocks: seq<seq<Sample>>) {
    && (forall k :: 0 <= k < |blocks| ==> blocks[k] != [])
    && (forall k, i, j :: 0 <= k < |blocks| && 0 <= i < j < |blocks[k]| ==> SameDay(blocks[k][i].ts, blocks[k][j].ts))
    && (forall k :: 0 < k < |blocks| ==> !SameDay(blocks[k - 1][|blocks[k - 1]| - 1].ts, blocks[k][0].ts))
  }

  lemma DaySplitIsAtMidnight(samples: seq<Sample>, blocks: seq<seq<Sample>>)
    requires IsDaySplit(samples, blocks)
    ensures Join(blocks) == samples && SplitAtMidnight(blocks)
  {
    hide DayOf, SameDay, Join;
    forall k | 0 <= k < |blocks| ensures blocks[k] != [] {
      assert OneDay(blocks[k], BlockDay(blocks[k]));
    }
    forall k, i, j | 0 <= k < |blocks| && 0 <= i < j < |blocks[k]| ensures SameDay(blocks[k][i].ts, blocks[k][j].ts) {
      assert OneDay(blocks[k], BlockDay(blocks[k]));
      SameDayIff(blocks[k][i].ts, blocks[k][j].ts);
    }
    forall k | 0 < k < |blocks| ensures !SameDay(blocks[k - 1][|blocks[k - 1]| - 1].ts, blocks[k][0].ts) {
      assert OneDay(blocks[k - 1], BlockDay(blocks[k - 1]));
      SameDayIff(blocks[k - 1][|blocks[k - 1]| - 1].ts, blocks[k][0].ts);
    }
  }

  lemma NoBlocks()
    ensures IsDaySplit([], [])
  {
  }

  lemma OneMoreBlock(samples: seq<Sample>, blocks: seq<seq<Sample>>, from: nat, to: nat, day: int)
    requires from < to <= |samples|
    requires IsDaySplit(samples[..from], blocks)
    requires forall i :: from <= i < to ==> DayOf(samples[i].ts) == day
    requires blocks != [] ==> BlockDay(blocks[|blocks| - 1]) != day
    ensures IsDaySplit(samples[..to], blocks + [samples[from..to]])
    ensures BlockDay(samples[from..to]) == day
  {
    var longer := blocks + [samples[from..to]];
    assert longer[..|blocks|] == blocks;
    assert samples[..to] == samples[..from] + samples[from..to];
    assert OneDay(samples[from..to], day);
  }

  /** The samples of one day. */
  function OfDay(samples: seq<Sample>, day: int): seq<Sample> {
    if samples == [] then []
    else
      var n := |samples| - 1;
      OfDay(samples[..n], day) + if DayOf(samples[n].ts) == day then [samples[n]] else []
  }

  lemma {:induction false} OfDayConcat(a: seq<Sample>, b: seq<Sample>, day: int)
    ensures OfDay(a + b, day) == OfDay(a, day) + OfDay(b, day)
  {
    if b == [] {
      assert a + b == a;
    } else {
      var n := |b| - 1;
      assert (a + b)[..|a + b| - 1] == a + b[..n];
      OfDayConcat(a, b[..n], day);
    }
  }

  lemma {:induction false} OfDayOfOneDay(block: seq<Sample>, blockDay: int, day: int)
    requires forall i :: 0 <= i < |block| ==> DayOf(block[i].ts) == blockDay
    ensures OfDay(block, day) == if blockDay == day then block else []
  {
    if block != [] {
      var n := |block| - 1;
      OfDayOfOneDay(block[..n], blockDay, day);
      assert block == block[..n] + [block[n]];
    }
  }

  /** Later samples are never on an earlier day. */
  lemma DaysFollowTime(a: int, b: int)
    requires a <= b
    ensures DayOf(a) <= DayOf(b)
  {
  }

  /** For increasing samples the blocks' days increase: there is one block per day. */
  lemma {:induction false} BlockDaysIncrease(samples: seq<Sample>, blocks: seq<seq<Sample>>)
    requires Increasing(samples) && IsDaySplit(samples, blocks)
    ensures forall i, j :: 0 <= i < j < |blocks| ==> BlockDay(blocks[i]) < BlockDay(blocks[j])
  {
    if |blocks| > 1 {
      var n := |blocks| - 1;
      var before := Join(blocks[..n]);
      assert samples == before + blocks[n];
      assert before == Join(blocks[..n - 1]) + blocks[n - 1] by {
        assert blocks[..n][..n - 1] == blocks[..n - 1];
      }
      forall k | 0 < k < n ensures BlockDay(blocks[..n][k - 1]) != BlockDay(blocks[..n][k]) {
        assert BlockDay(blocks[k - 1]) != BlockDay(blocks[k]);
      }
      IncreasingPrefix(samples, |before|);
      assert samples[..|before|] == before;
      BlockDaysIncrease(before, blocks[..n]);
      var m := |before| - 1;
      assert OneDay(blocks[n - 1], BlockDay(blocks[n - 1]));
      assert samples[m] == blocks[n - 1][|blocks[n - 1]| - 1] && samples[m + 1] == blocks[n][0];
      DaysFollowTime(samples[m].ts, samples[m + 1].ts);
      assert BlockDay(blocks[n - 1]) != BlockDay(blocks[n]);
      forall i, j | 0 <= i < j < |blocks| ensures BlockDay(blocks[i]) < BlockDay(blocks[j]) {
        if j < n {
          assert BlockDay(blocks[..n][i]) < BlockDay(blocks[..n][j]);
        } else if i < n - 1 {
          assert BlockDay(blocks[..n][i]) < BlockDay(blocks[..n][n - 1]);
        }
      }
    }
  }

  lemma IncreasingPrefix(samples: seq<Sample>, n: nat)
    requires Increasing(samples) && n <= |samples|
    ensures Increasing(samples[..n])
  {
  }

  /** Days without a block have no samples. */
  lemma {:induction false} NoBlockNoSamples(blocks: seq<seq<Sample>>, day: int)
    requires DayBlocks(blocks) && forall k :: 0 <= k < |blocks| ==> BlockDay(blocks[k]) != day
    ensures OfDay(Join(blocks), day) == []
  {
    if blocks != [] {
      var n := |blocks| - 1;
      NoBlockNoSamples(blocks[..n], day);
      OfDayConcat(Join(blocks[..n]), blocks[n], day);
      OfDayOfOneDay(blocks[n], BlockDay(blocks[n]), day);
    }
  }

  /** The block of a day holds exactly that day's samples, in order. */
  lemma {:induction false} BlockHoldsDay(blocks: seq<seq<Sample>>, k: nat)
    requires DayBlocks(blocks) && k < |blocks|
    requires forall i, j :: 0 <= i < j < |blocks| ==> BlockDay(blocks[i]) < BlockDay(blocks[j])
    ensures OfDay(Join(blocks), BlockDay(blocks[k])) == blocks[k]
  {
    hide OfDay, BlockDay, OneDay;
    var n := |blocks| - 1;
    var day := BlockDay(blocks[k]);
    OfDayConcat(Join(blocks[..n]), blocks[n], day);
    BlockOfDays(blocks, n);
    OfDayOfOneDay(blocks[n], BlockDay(blocks[n]), day);
    if k == n {
      NoBlockNoSamples(blocks[..n], day);
    } else {
      BlockHoldsDay(blocks[..n], k);
    }
  }

  lemma BlockOfDays(blocks: seq<seq<Sample>>, k: nat)
    requires DayBlocks(blocks) && k < |blocks|
    ensures forall i :: 0 <= i < |blocks[k]| ==> DayOf(blocks[k][i].ts) == BlockDay(blocks[k])
  {
  }

  lemma {:induction false} OfDayIncreases(samples: seq<Sample>, day: int)
    requires PositiveIncreasing(samples)
    ensures PositiveIncreasing(OfDay(samples, day))
    ensures forall x :: x in OfDay(samples, day) <==> x in samples && DayOf(x.ts) == day
  {
    if samples != [] {
      var n := |samples| - 1;
      assert samples == samples[..n] + [samples[n]];
      PositiveIncreasingAppend(samples[..n], samples[n]);
      OfDayIncreases(samples[..n], day);
      var kept := OfDay(samples[..n], day);
      if kept != [] {
        assert kept[|kept| - 1] in samples[..n];
        var i :| 0 <= i < n && samples[i] == kept[|kept| - 1];
        assert samples[i].ts < samples[n].ts;
      }
      PositiveIncreasingAppend(kept, samples[n]);
    }
  }

  /** A day's samples are those points that lie between its two midnights. */
  lemma DayHoldsPoints(points: seq<Point>, day: int, x: Sample)
    requires Rising(points)
    ensures x in OfDay(ToSamples(points), day) <==>
      exists k :: 0 <= k < |points| && x.ts == 1000 * points[k].timestamp && x.value == points[k].value &&
        day * 86_400_000 <= 1000 * points[k].timestamp < (day + 1) * 86_400_000
  {
    RisingPointsGiveIncreasingSamples(points);
    OfDayIncreases(ToSamples(points), day);
    SamplesArePoints(ToSamples(points), points);
    DayOfIs(x.ts, day);
    if k :| 0 <= k < |points| && x.ts == 1000 * points[k].timestamp && x.value == points[k].value {
      assert ToSamples(points)[k] == x;
    }
  }
}
