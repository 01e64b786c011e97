/** Cutting a series' samples into chunks (samplesToChunks in pkg/tsdb/builder.go). */
module Chunks {
  import opened Wrappers

  /** A float64 by its bit pattern; values are only ever copied. */
  type Float64 = x: int | 0 <= x < 0x1_0000_0000_0000_0000

  datatype Sample = Sample(ts: int, value: Float64)

  /** What a chunk iterator may yield. */
  datatype Item = Float(sample: Sample) | Histogram

  /** A chunk iterator: what it yields in turn, and whether it then reports an error. */
  datatype Stream = Stream(items: seq<Item>, err: bool)

  /** chunks.Meta: `ref` is 0 and `chunk` None where the source leaves them unset. */
  datatype Meta = Meta(ref: nat, chunk: Option<seq<Sample>>, minTime: int, maxTime: int)

  datatype ChunkError = NotFloat | NotIncreasing | IteratorFailed

  const SAMPLES_PER_CHUNK := 120

  predicate InRange(ts: int, minBlockTime: int, maxBlockTime: int) {
    && (minBlockTime == 0 || minBlockTime <= ts)
    && (maxBlockTime == 0 || ts < maxBlockTime)
  }

  /** The float samples inside the block's time range, in order. */
  function KeptSamples(items: seq<Item>, minBlockTime: int, maxBlockTime: int): seq<Sample> {
    if items == [] then []
    else
      var last := items[|items| - 1];
      KeptSamples(items[..|items| - 1], minBlockTime, maxBlockTime) +
      if last.Float? && InRange(last.sample.ts, minBlockTime, maxBlockTime) then [last.sample] else []
  }

  /** The timestamp the next sample has to exceed. */
  function LastTimestamp(samples: seq<Sample>): int {
    if samples == [] then 0 else samples[|samples| - 1].ts
  }

  /** What is wrong with item `k`, if anything: a skipped sample must exceed the last kept one too. */
  function Fault(items: seq<Item>, k: nat, minBlockTime: int, maxBlockTime: int): Option<ChunkError>
    requires k < |items|
  {
    if items[k].Histogram? then Some(NotFloat)
    else if items[k].sample.ts <= LastTimestamp(KeptSamples(items[..k], minBlockTime, maxBlockTime)) then
      Some(NotIncreasing)
    else None
  }

  ghost predicate FaultFree(items: seq<Item>, n: nat, minBlockTime: int, maxBlockTime: int)
    requires n <= |items|
  {
    forall j :: 0 <= j < n ==> Fault(items, j, minBlockTime, maxBlockTime) == None
  }

  ghost predicate FirstFault(items: seq<Item>, k: nat, minBlockTime: int, maxBlockTime: int, e: ChunkError) {
    && k < |items| && FaultFree(items, k, minBlockTime, maxBlockTime)
    && Fault(items, k, minBlockTime, maxBlockTime) == Some(e)
  }

  /** The first fault decides; without one, all that is in range is cut into chunks. */
  ghost predicate IsOutcome(stream: Stream, minBlockTime: int, maxBlockTime: int, r: Result<seq<Meta>, ChunkError>) {
    if FaultFree(stream.items, |stream.items|, minBlockTime, maxBlockTime) then
      r == if stream.err then Err(IteratorFailed)
           else Ok(ChunksOf(KeptSamples(stream.items, minBlockTime, maxBlockTime)))
    else
      r.Err? && exists k :: FirstFault(stream.items, k, minBlockTime, maxBlockTime, r.error)
  }

  function MetaOf(samples: seq<Sample>): Meta
    requires samples != []
  {
    Meta(0, Some(samples), samples[0].ts, samples[|samples| - 1].ts)
  }

  /** Reference: chunks of 120 samples from the front, the last one taking what is left. */
  function ChunksOf(samples: seq<Sample>): seq<Meta> {
    if samples == [] then []
    else if |samples| <= SAMPLES_PER_CHUNK then [MetaOf(samples)]
    else [MetaOf(samples[..SAMPLES_PER_CHUNK])] + ChunksOf(samples[SAMPLES_PER_CHUNK..])
  }

  lemma NothingKept(items: seq<Item>, minBlockTime: int, maxBlockTime: int)
    ensures FaultFree(items, 0, minBlockTime, maxBlockTime)
    ensures KeptSamples(items[..0], minBlockTime, maxBlockTime) == [] && ChunksOf([]) == []
  {
  }

  lemma NextItem(items: seq<Item>, k: nat, minBlockTime: int, maxBlockTime: int)
    requires k < |items|
    ensures KeptSamples(items[..k + 1], minBlockTime, maxBlockTime) ==
      KeptSamples(items[..k], minBlockTime, maxBlockTime) +
      if items[k].Float? && InRange(items[k].sample.ts, minBlockTime, maxBlockTime) then [items[k].sample] else []
    ensures FaultFree(items, k + 1, minBlockTime, maxBlockTime) <==>
      FaultFree(items, k, minBlockTime, maxBlockTime) && Fault(items, k, minBlockTime, maxBlockTime) == None
  {
    assert items[..k + 1][..k] == items[..k];
  }

  lemma FaultDecides(stream: Stream, k: nat, minBlockTime: int, maxBlockTime: int, e: ChunkError)
    requires FirstFault(stream.items, k, minBlockTime, maxBlockTime, e)
    ensures IsOutcome(stream, minBlockTime, maxBlockTime, Err(e))
  {
    assert Fault(stream.items, k, minBlockTime, maxBlockTime) != None;
  }

  // ---------- What is kept, what is at fault, and how it is cut, in plain numbers ----------

  /** Item `i` is a float at or after the lower bound and before the upper one; a bound of 0 is none. */
  predicate InBounds(items: seq<Item>, i: nat, minBlockTime: int, maxBlockTime: int)
    requires i < |items|
  {
    && items[i].Float?
    && (minBlockTime == 0 || items[i].sample.ts >= minBlockTime)
    && (maxBlockTime == 0 || items[i].sample.ts < maxBlockTime)
  }

  lemma {:induction false} KeptAre(items: seq<Item>, minBlockTime: int, maxBlockTime: int, x: Sample)
    ensures x in KeptSamples(items, minBlockTime, maxBlockTime) <==>
      exists i :: 0 <= i < |items| && InBounds(items, i, minBlockTime, maxBlockTime) && items[i].sample == x
  {
    if items != [] {
      var n := |items| - 1;
      KeptAre(items[..n], minBlockTime, maxBlockTime, x);
      forall i | 0 <= i < n
        ensures InBounds(items[..n], i, minBlockTime, maxBlockTime) == InBounds(items, i, minBlockTime, maxBlockTime)
      {
      }
      if i :| 0 <= i < |items| && InBounds(items, i, minBlockTime, maxBlockTime) && items[i].sample == x && i < n {
        assert InBounds(items[..n], i, minBlockTime, maxBlockTime) && items[..n][i].sample == x;
      }
    }
  }

  /** Item `k` is a float later than 0 and than every sample kept before, whether or not it is kept itself. */
  ghost predicate LateEnough(items: seq<Item>, k: nat, minBlockTime: int, maxBlockTime: int)
    requires k < |items|
  {
    && items[k].Float? && items[k].sample.ts > 0
    && forall i :: 0 <= i < k && InBounds(items, i, minBlockTime, maxBlockTime) ==>
         items[i].sample.ts < items[k].sample.ts
  }

  ghost predicate AllLateEnough(items: seq<Item>, n: nat, minBlockTime: int, maxBlockTime: int)
    requires n <= |items|
  {
    forall k :: 0 <= k < n ==> LateEnough(items, k, minBlockTime, maxBlockTime)
  }

  lemma {:induction false} LastKeptIsLatest(items: seq<Item>, minBlockTime: int, maxBlockTime: int)
    requires forall j :: 0 <= j < |items| ==> Fault(items, j, minBlockTime, maxBlockTime) == None
    ensures LastTimestamp(KeptSamples(items, minBlockTime, maxBlockTime)) >= 0
    ensures forall i :: 0 <= i < |items| && InBounds(items, i, minBlockTime, maxBlockTime) ==>
      items[i].sample.ts <= LastTimestamp(KeptSamples(items, minBlockTime, maxBlockTime))
  {
    if items != [] {
      var n := |items| - 1;
      forall j | 0 <= j < n ensures Fault(items[..n], j, minBlockTime, maxBlockTime) == None {
        FaultOfPrefix(items, n, j, minBlockTime, maxBlockTime);
      }
      LastKeptIsLatest(items[..n], minBlockTime, maxBlockTime);
      forall i | 0 <= i < n && InBounds(items, i, minBlockTime, maxBlockTime)
        ensures items[i].sample.ts <= LastTimestamp(KeptSamples(items[..n], minBlockTime, maxBlockTime))
      {
        assert InBounds(items[..n], i, minBlockTime, maxBlockTime);
      }
      assert Fault(items, n, minBlockTime, maxBlockTime) == None;
    }
  }

  /** After faultless items the next is at fault exactly if it is not a float or not late enough. */
  lemma FaultIs(items: seq<Item>, k: nat, minBlockTime: int, maxBlockTime: int)
    requires k < |items| && FaultFree(items, k, minBlockTime, maxBlockTime)
    ensures Fault(items, k, minBlockTime, maxBlockTime) ==
      if items[k].Histogram? then Some(NotFloat)
      else if LateEnough(items, k, minBlockTime, maxBlockTime) then None
      else Some(NotIncreasing)
  {
    if items[k].Float? {
      var before := items[..k];
      var kept := KeptSamples(before, minBlockTime, maxBlockTime);
      forall j | 0 <= j < k ensures Fault(before, j, minBlockTime, maxBlockTime) == None {
        FaultOfPrefix(items, k, j, minBlockTime, maxBlockTime);
      }
      LastKeptIsLatest(before, minBlockTime, maxBlockTime);
      forall i | 0 <= i < k && InBounds(items, i, minBlockTime, maxBlockTime)
        ensures items[i].sample.ts <= LastTimestamp(kept)
      {
        assert InBounds(before, i, minBlockTime, maxBlockTime);
      }
      if kept != [] {
        KeptAre(before, minBlockTime, maxBlockTime, kept[|kept| - 1]);
        var i :| 0 <= i < k && InBounds(before, i, minBlockTime, maxBlockTime) && before[i].sample == kept[|kept| - 1];
        assert InBounds(items, i, minBlockTime, maxBlockTime);
      }
    }
  }

  /** Where chunk `k` ends. */
  function EndOfChunk(samples: seq<Sample>, k: nat): int {
    if 120 * k + 120 < |samples| then 120 * k + 120 else |samples|
  }

  lemma ChunksAfterFirst(samples: seq<Sample>)
    requires |samples| > 120
    ensures ChunksOf(samples) == [MetaOf(samples[..120])] + ChunksOf(samples[120..])
  {
  }

  lemma OnlyChunk(samples: seq<Sample>)
    requires 0 < |samples| <= 120
    ensures ChunksOf(samples) == [MetaOf(samples)]
  {
  }

  lemma SliceOfRest(samples: seq<Sample>, from: nat, to: nat)
    requires from <= to <= |samples| - 120
    ensures samples[120..][from..to] == samples[from + 120..to + 120]
  {
  }

  /** Chunk `k` holds the samples from number 120 k on, 120 of them or as many as there are. */
  lemma {:induction false} ChunkIs(samples: seq<Sample>, k: nat)
    ensures k < |ChunksOf(samples)| <==> 120 * k < |samples|
    ensures 120 * k < |samples| ==>
      var end := EndOfChunk(samples, k);
      ChunksOf(samples)[k] == Meta(0, Some(samples[120 * k..end]), samples[120 * k].ts, samples[end - 1].ts)
  {
    if samples != [] {
      hide ChunksOf;
      if |samples| <= 120 {
        OnlyChunk(samples);
        assert samples[0..|samples|] == samples;
      } else {
        ChunksAfterFirst(samples);
        if k > 0 {
          var rest := samples[120..];
          ChunkIs(rest, k - 1);
          assert 120 * k == 120 * (k - 1) + 120;
          if 120 * k < |samples| {
            assert EndOfChunk(rest, k - 1) + 120 == EndOfChunk(samples, k);
            SliceOfRest(samples, 120 * (k - 1), EndOfChunk(rest, k - 1));
          }
        }
      }
    }
  }

  lemma {:induction false} FaultFreeIff(items: seq<Item>, n: nat, minBlockTime: int, maxBlockTime: int)
    requires n <= |items|
    ensures FaultFree(items, n, minBlockTime, maxBlockTime) <==> AllLateEnough(items, n, minBlockTime, maxBlockTime)
  {
    hide Fault;
    if n > 0 {
      FaultFreeIff(items, n - 1, minBlockTime, maxBlockTime);
      if FaultFree(items, n - 1, minBlockTime, maxBlockTime) {
        FaultIs(items, n - 1, minBlockTime, maxBlockTime);
        assert Fault(items, n - 1, minBlockTime, maxBlockTime) == None <==>
          LateEnough(items, n - 1, minBlockTime, maxBlockTime);
      }
    }
  }

  lemma OutcomeIs(stream: Stream, minBlockTime: int, maxBlockTime: int)
    ensures forall r :: IsOutcome(stream, minBlockTime, maxBlockTime, r) ==>
      && (r.Ok? <==> !stream.err && AllLateEnough(stream.items, |stream.items|, minBlockTime, maxBlockTime))
      && (r.Ok? ==> FullUpToLast(r.value))
  {
    hide Fault, AllLateEnough, FullUpToLast, FaultFree, KeptSamples, ChunksOf;
    FaultFreeIff(stream.items, |stream.items|, minBlockTime, maxBlockTime);
    ChunksAreFull(KeptSamples(stream.items, minBlockTime, maxBlockTime));
  }

  /** Full chunks have 120 samples; only the last may have fewer. */
  ghost predicate FullUpToLast(metas: seq<Meta>) {
    forall k :: 0 <= k < |metas| ==>
      metas[k].chunk.Some? && 1 <= |metas[k].chunk.value| <= 120 && (k < |metas| - 1 ==> |metas[k].chunk.value| == 120)
  }

  lemma ChunksAreFull(samples: seq<Sample>)
    ensures FullUpToLast(ChunksOf(samples))
  {
    hide ChunksOf;
    var metas := ChunksOf(samples);
    forall k | 0 <= k < |metas|
      ensures metas[k].chunk.Some? && 1 <= |metas[k].chunk.value| <= 120
      ensures k < |metas| - 1 ==> |metas[k].chunk.value| == 120
    {
      ChunkIs(samples, k);
      ChunkIs(samples, k + 1);
    }
  }

  method SamplesToChunks(stream: Stream, minBlockTime: int, maxBlockTime: int)
    returns (r: Result<seq<Meta>, ChunkError>)
    ensures IsOutcome(stream, minBlockTime, maxBlockTime, r)
    ensures r.Ok? <==> !stream.err && AllLateEnough(stream.items, |stream.items|, minBlockTime, maxBlockTime)
    ensures r.Ok? ==> FullUpToLast(r.value)
  {
    OutcomeIs(stream, minBlockTime, maxBlockTime);
    var items := stream.items;
    var metas: seq<Meta> := [];
    var chunk: Option<seq<Sample>> := None;
    var minTime := 0;
    var prevTS := 0;
    ghost var done: seq<Sample> := [];   // what the finished chunks hold
    hide KeptSamples, ChunksOf, FaultFree, AllLateEnough, FullUpToLast;
    NothingKept(items, minBlockTime, maxBlockTime);
    for k := 0 to |items|
      invariant FaultFree(items, k, minBlockTime, maxBlockTime)
      invariant KeptSamples(items[..k], minBlockTime, maxBlockTime) == done + if chunk.None? then [] else chunk.value
      invariant |done| % SAMPLES_PER_CHUNK == 0 && metas == ChunksOf(done)
      invariant chunk.Some? ==> 1 <= |chunk.value| < SAMPLES_PER_CHUNK && minTime == chunk.value[0].ts
      invariant prevTS == LastTimestamp(KeptSamples(items[..k], minBlockTime, maxBlockTime))
    {
      NextItem(items, k, minBlockTime, maxBlockTime);
      if items[k].Histogram? {
        FaultDecides(stream, k, minBlockTime, maxBlockTime, NotFloat);
        return Err(NotFloat);
      }
      var s := items[k].sample;
      if s.ts <= prevTS {
        FaultDecides(stream, k, minBlockTime, maxBlockTime, NotIncreasing);
        return Err(NotIncreasing);
      }
      if minBlockTime != 0 && s.ts < minBlockTime {
        continue;
      }
      if maxBlockTime != 0 && s.ts >= maxBlockTime {
        continue;
      }
      if chunk.None? {
        chunk, minTime := Some([]), s.ts;
      }
      chunk := Some(chunk.value + [s]);
      prevTS := s.ts;
      if |chunk.value| >= SAMPLES_PER_CHUNK {
        ChunksOfFullPrefix(done, chunk.value);
        metas := metas + [Meta(0, chunk, minTime, prevTS)];
        done := done + chunk.value;
        chunk := None;
      }
    }
    assert items[..|items|] == items;
    if chunk.Some? {
      ChunksOfFullPrefix(done, chunk.value);
      metas := metas + [Meta(0, chunk, minTime, prevTS)];
    } else {
      assert done + [] == done;
    }
    r := if stream.err then Err(IteratorFailed) else Ok(metas);
  }

  lemma {:induction false} ChunksOfFullPrefix(full: seq<Sample>, rest: seq<Sample>)
    requires |full| % SAMPLES_PER_CHUNK == 0
    requires 1 <= |rest| <= SAMPLES_PER_CHUNK
    ensures ChunksOf(full + rest) == ChunksOf(full) + [MetaOf(rest)]
  {
    if full == [] {
      assert full + rest == rest;
    } else {
      assert (full + rest)[..SAMPLES_PER_CHUNK] == full[..SAMPLES_PER_CHUNK];
      assert (full + rest)[SAMPLES_PER_CHUNK..] == full[SAMPLES_PER_CHUNK..] + rest;
      ChunksOfFullPrefix(full[SAMPLES_PER_CHUNK..], rest);
      if |full| == SAMPLES_PER_CHUNK {
        assert full[..SAMPLES_PER_CHUNK] == full;
      }
    }
  }

  /** Every sample held by the chunks, in order. */
  function SamplesIn(metas: seq<Meta>): seq<Sample> {
    if metas == [] then []
    else (if metas[0].chunk.Some? then metas[0].chunk.value else []) + SamplesIn(metas[1..])
  }

  ghost predicate Increasing(samples: seq<Sample>) {
    forall i, j :: 0 <= i < j < |samples| ==> samples[i].ts < samples[j].ts
  }

  /** A chunk's recorded range is exactly that of its samples; it has one to 120 of them. */
  ghost predicate Describes(m: Meta) {
    && m.chunk.Some? && m.chunk.value != []
    && m.minTime == m.chunk.value[0].ts
    && m.maxTime == m.chunk.value[|m.chunk.value| - 1].ts
    && |m.chunk.value| <= SAMPLES_PER_CHUNK
  }

  ghost predicate IsFull(m: Meta) {
    m.chunk.Some? && |m.chunk.value| == SAMPLES_PER_CHUNK
  }

  /** Nothing is lost or reordered, no chunk is empty, all but the last are full. */
  ghost predicate IsChunking(metas: seq<Meta>, samples: seq<Sample>) {
    && SamplesIn(metas) == samples
    && (forall i :: 0 <= i < |metas| ==> Describes(metas[i]) && metas[i].ref == 0)
    && (forall i :: 0 <= i < |metas| - 1 ==> IsFull(metas[i]))
  }

  lemma {:induction false} ChunksPartitionSamples(samples: seq<Sample>)
    ensures IsChunking(ChunksOf(samples), samples)
  {
    if |samples| > SAMPLES_PER_CHUNK {
      ChunksPartitionSamples(samples[SAMPLES_PER_CHUNK..]);
      assert samples == samples[..SAMPLES_PER_CHUNK] + samples[SAMPLES_PER_CHUNK..];
    } else if samples != [] {
      assert samples + [] == samples;
    }
  }

  /** Chunk ranges of increasing samples are themselves disjoint and increasing. */
  lemma {:induction false} ChunkRangesIncrease(samples: seq<Sample>)
    requires Increasing(samples)
    ensures forall i :: 0 <= i < |ChunksOf(samples)| ==>
      samples[0].ts <= ChunksOf(samples)[i].minTime <= ChunksOf(samples)[i].maxTime
    ensures forall i, j :: 0 <= i < j < |ChunksOf(samples)| ==>
      ChunksOf(samples)[i].maxTime < ChunksOf(samples)[j].minTime
  {
    if |samples| > SAMPLES_PER_CHUNK {
      var rest := samples[SAMPLES_PER_CHUNK..];
      ChunkRangesIncrease(rest);
      assert samples[SAMPLES_PER_CHUNK - 1].ts < rest[0].ts;
    }
  }

  /** Only these properties could have been asked for: they leave one way to cut. */
  lemma {:induction false} ChunkingIsUnique(metas: seq<Meta>, samples: seq<Sample>)
    requires IsChunking(metas, samples)
    ensures metas == ChunksOf(samples)
  {
    if metas != [] {
      var first := metas[0].chunk.value;
      assert samples == first + SamplesIn(metas[1..]);
      if |metas| == 1 {
        assert samples == first;
      } else {
        assert metas[1..][0] == metas[1];
        assert samples[..SAMPLES_PER_CHUNK] == first;
        assert samples[SAMPLES_PER_CHUNK..] == SamplesIn(metas[1..]);
        assert SamplesIn(metas[1..]) == metas[1].chunk.value + SamplesIn(metas[1..][1..]);
        ChunkingIsUnique(metas[1..], samples[SAMPLES_PER_CHUNK..]);
      }
      assert metas == [metas[0]] + metas[1..];
    }
  }

  /** Whether an item is at fault depends on the items before it only. */
  lemma FaultOfPrefix(items: seq<Item>, n: nat, j: nat, minBlockTime: int, maxBlockTime: int)
    requires j < n <= |items|
    ensures Fault(items[..n], j, minBlockTime, maxBlockTime) == Fault(items, j, minBlockTime, maxBlockTime)
  {
    assert items[..n][..j] == items[..j];
  }

  /** Kept samples of a faultless stream are positive and increasing. */
  lemma {:induction false} FaultlessStreamIncreases(items: seq<Item>, minBlockTime: int, maxBlockTime: int)
    requires FaultFree(items, |items|, minBlockTime, maxBlockTime)
    ensures PositiveIncreasing(KeptSamples(items, minBlockTime, maxBlockTime))
  {
    if items != [] {
      var n := |items| - 1;
      forall j | 0 <= j < n ensures Fault(items[..n], j, minBlockTime, maxBlockTime) == None {
        FaultOfPrefix(items, n, j, minBlockTime, maxBlockTime);
      }
      FaultlessStreamIncreases(items[..n], minBlockTime, maxBlockTime);
      assert Fault(items, n, minBlockTime, maxBlockTime) == None;
      PositiveIncreasingAppend(KeptSamples(items[..n], minBlockTime, maxBlockTime), items[n].sample);
    }
  }

  /** `lo` and `hi` are the least and the greatest timestamp among the samples. */
  ghost predicate Spans(samples: seq<Sample>, lo: int, hi: int) {
    && (forall x :: x in samples ==> lo <= x.ts <= hi)
    && (exists x :: x in samples && x.ts == lo)
    && (exists x :: x in samples && x.ts == hi)
  }

  ghost predicate PositiveIncreasing(samples: seq<Sample>) {
    Increasing(samples) && forall i :: 0 <= i < |samples| ==> samples[i].ts > 0
  }

  const MAX_INT64: int := 0x7FFF_FFFF_FFFF_FFFF

  /** What a series' own iterator yields: floats only. */
  function Floats(samples: seq<Sample>): (items: seq<Item>) {
    seq(|samples|, i requires 0 <= i < |samples| => Float(samples[i]))
  }

  /** Without time bounds, exactly positive increasing samples are never faulted; all are kept. */
  lemma {:induction false} AllKeptIffPositiveIncreasing(samples: seq<Sample>)
    ensures KeptSamples(Floats(samples), 0, 0) == samples
    ensures FaultFree(Floats(samples), |samples|, 0, 0) <==> PositiveIncreasing(samples)
  {
    if samples != [] {
      var n := |samples| - 1;
      AllKeptIffPositiveIncreasing(samples[..n]);
      var items := Floats(samples);
      assert items[..n] == Floats(samples[..n]);
      assert samples == samples[..n] + [samples[n]];
      forall j | 0 <= j < n ensures Fault(items, j, 0, 0) == Fault(items[..n], j, 0, 0) {
        FaultOfPrefix(items, n, j, 0, 0);
      }
      assert FaultFree(items, |items|, 0, 0) <==>
        FaultFree(items[..n], n, 0, 0) && Fault(items, n, 0, 0) == None;
      PositiveIncreasingAppend(samples[..n], samples[n]);
    }
  }

  lemma PositiveIncreasingAppend(samples: seq<Sample>, s: Sample)
    ensures PositiveIncreasing(samples + [s]) <==> PositiveIncreasing(samples) && s.ts > LastTimestamp(samples)
  {
    var all := samples + [s];
    if PositiveIncreasing(all) {
      forall i | 0 <= i < |samples| ensures samples[i].ts > 0 {
        assert all[i] == samples[i];
      }
      forall i, j | 0 <= i < j < |samples| ensures samples[i].ts < samples[j].ts {
        assert all[i].ts < all[j].ts;
      }
      assert all[|samples|] == s;
      assert samples != [] ==> all[|samples| - 1].ts < all[|samples|].ts;
    }
  }
}
