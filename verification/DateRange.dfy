/**
 * The daterange command: workers scan files and send each file's first and last time to one
 * collector (whisperconverter/daterange.go); and the list of days made from its answer.
 */
module DateRange {
  import opened Chunks
  import opened Days

  const MIN_INT64: int := -0x8000_0000_0000_0000

  datatype Range = Range(minTS: int, maxTS: int)

  const NOTHING_SEEN := Range(MAX_INT64, MIN_INT64)

  function Widen(r: Range, ts: int): Range {
    Range(if ts < r.minTS then ts else r.minTS, if ts > r.maxTS then ts else r.maxTS)
  }

  /** The loop of getTimestampBounds over one file's samples. */
  method TimestampBounds(samples: seq<Sample>) returns (r: Range)
    requires forall i :: 0 <= i < |samples| ==> -0x8000_0000_0000_0000 <= samples[i].ts <= 0x7FFF_FFFF_FFFF_FFFF
    ensures samples != [] ==> Spans(samples, r.minTS, r.maxTS)
  {
    r := NOTHING_SEEN;
    for k := 0 to |samples|
      invariant k == 0 ==> r == NOTHING_SEEN
      invariant k > 0 ==> Spans(samples[..k], r.minTS, r.maxTS)
    {
      assert samples[..k + 1] == samples[..k] + [samples[k]];
      assert samples[k] in samples[..k + 1];
      ghost var before := r;
      if samples[k].ts < r.minTS {
        r := r.(minTS := samples[k].ts);
      }
      if samples[k].ts > r.maxTS {
        r := r.(maxTS := samples[k].ts);
      }
      if k > 0 {
        OneMoreSpanned(samples[..k], samples[k], before, r);
      }
    }
    assert samples[..|samples|] == samples;
  }

  lemma OneMoreSpanned(samples: seq<Sample>, s: Sample, before: Range, r: Range)
    requires Spans(samples, before.minTS, before.maxTS) && r == Widen(before, s.ts)
    ensures Spans(samples + [s], r.minTS, r.maxTS)
  {
    var all := samples + [s];
    var first :| first in samples && first.ts == before.minTS;
    var last :| last in samples && last.ts == before.maxTS;
    assert first in all && last in all && s in all;
  }

  // ---------- The collector ----------

  /** What each file's worker has still to send, and what the collector has seen. */
  datatype State = State(senders: seq<seq<int>>, seen: Range)

  /** One rendezvous on the channel: some worker's next message reaches the collector. */
  ghost predicate Delivers(s: State, t: State, i: nat) {
    && i < |s.senders| && s.senders[i] != []
    && t == State(s.senders[i := s.senders[i][1..]], Widen(s.seen, s.senders[i][0]))
  }

  /** What a file with these samples sends; a file that gives none is skipped. */
  ghost predicate Sends(samples: seq<Sample>, messages: seq<int>) {
    if samples == [] then messages == []
    else exists r: Range :: Spans(samples, r.minTS, r.maxTS) && messages == [r.minTS, r.maxTS]
  }

  ghost predicate Init(files: seq<seq<Sample>>, s: State) {
    && |s.senders| == |files| && s.seen == NOTHING_SEEN
    && forall i :: 0 <= i < |files| ==> Sends(files[i], s.senders[i])
  }

  /** The workers take turns in any order until all has been sent; only then is the collector told to stop. */
  ghost predicate Run(files: seq<seq<Sample>>, states: seq<State>) {
    && states != [] && Init(files, states[0])
    && (forall k :: 0 < k < |states| ==> SomeDelivers(states[k - 1], states[k]))
  }

  ghost predicate SomeDelivers(s: State, t: State) {
    exists i :: Delivers(s, t, i)
  }

  ghost predicate AllSent(s: State) {
    forall i :: 0 <= i < |s.senders| ==> s.senders[i] == []
  }

  ghost predicate Covers(r: Range, ts: int) {
    r.minTS <= ts <= r.maxTS
  }

  ghost predicate IsTime(files: seq<seq<Sample>>, ts: int) {
    exists i, x :: 0 <= i < |files| && x in files[i] && x.ts == ts
  }

  /** Each file's bounds are sent or still to be sent; nothing but times of samples is. */
  ghost predicate Accounted(samples: seq<Sample>, pending: seq<int>, seen: Range) {
    forall x :: x in samples ==>
      && (exists lo :: (lo in pending || Covers(seen, lo)) && lo <= x.ts)
      && (exists hi :: (hi in pending || Covers(seen, hi)) && hi >= x.ts)
  }

  ghost predicate Inv(files: seq<seq<Sample>>, s: State) {
    && |s.senders| == |files|
    && (forall i :: 0 <= i < |files| ==> Accounted(files[i], s.senders[i], s.seen))
    && (forall i, ts :: 0 <= i < |files| && ts in s.senders[i] ==> IsTime(files, ts))
    && (s.seen == NOTHING_SEEN || (IsTime(files, s.seen.minTS) && IsTime(files, s.seen.maxTS)))
  }

  ghost predicate InInt64(files: seq<seq<Sample>>) {
    forall ts :: IsTime(files, ts) ==> -0x8000_0000_0000_0000 <= ts <= 0x7FFF_FFFF_FFFF_FFFF
  }

  lemma InitHolds(files: seq<seq<Sample>>, s: State)
    requires Init(files, s)
    ensures Inv(files, s)
  {
    forall i | 0 <= i < |files|
      ensures Accounted(files[i], s.senders[i], s.seen)
      ensures forall ts :: ts in s.senders[i] ==> IsTime(files, ts)
    {
      assert Sends(files[i], s.senders[i]);
      if files[i] != [] {
        var r: Range :| Spans(files[i], r.minTS, r.maxTS) && s.senders[i] == [r.minTS, r.maxTS];
        assert r.minTS in s.senders[i] && r.maxTS in s.senders[i];
      }
    }
  }

  lemma StillAccounted(samples: seq<Sample>, pending: seq<int>, seen: Range, pending': seq<int>, seen': Range, ts: int)
    requires Accounted(samples, pending, seen)
    requires seen' == Widen(seen, ts) && forall x :: x in pending ==> x in pending' || x == ts
    ensures Accounted(samples, pending', seen')
  {
    assert Covers(seen', ts);
    assert forall x :: Covers(seen, x) ==> Covers(seen', x);
  }

  lemma StepKeepsInv(files: seq<seq<Sample>>, s: State, t: State, i: nat)
    requires Inv(files, s) && InInt64(files) && Delivers(s, t, i)
    ensures Inv(files, t)
  {
    var ts := s.senders[i][0];
    assert ts in s.senders[i] && IsTime(files, ts);
    forall j | 0 <= j < |files| ensures Accounted(files[j], t.senders[j], t.seen) {
      forall x | x in s.senders[j] ensures x in t.senders[j] || x == ts {
        if j == i {
          assert s.senders[i] == [ts] + s.senders[i][1..];
        }
      }
      StillAccounted(files[j], s.senders[j], s.seen, t.senders[j], t.seen, ts);
    }
  }

  lemma {:induction false} RunKeepsInv(files: seq<seq<Sample>>, states: seq<State>, k: nat)
    requires Run(files, states) && InInt64(files) && k < |states|
    ensures Inv(files, states[k])
  {
    hide Inv, Init, Delivers, InInt64;
    if k == 0 {
      InitHolds(files, states[0]);
    } else {
      RunKeepsInv(files, states, k - 1);
      assert SomeDelivers(states[k - 1], states[k]);
      var i :| Delivers(states[k - 1], states[k], i);
      StepKeepsInv(files, states[k - 1], states[k], i);
    }
  }

  function AllSamples(files: seq<seq<Sample>>): seq<Sample> {
    if files == [] then [] else AllSamples(files[..|files| - 1]) + files[|files| - 1]
  }

  lemma {:induction false} AllSamplesAre(files: seq<seq<Sample>>, x: Sample)
    ensures x in AllSamples(files) <==> exists i :: 0 <= i < |files| && x in files[i]
  {
    if files != [] {
      var n := |files| - 1;
      AllSamplesAre(files[..n], x);
      if i :| 0 <= i < |files| && x in files[i] {
        assert i < n ==> x in files[..n][i];
      }
    }
  }

  /** Whatever the interleaving, the collector ends with the exact bounds of all files' samples. */
  lemma CollectorFindsBounds(files: seq<seq<Sample>>, states: seq<State>)
    requires Run(files, states) && InInt64(files) && AllSent(states[|states| - 1])
    ensures var seen := states[|states| - 1].seen;
      if AllSamples(files) == [] then seen == NOTHING_SEEN else Spans(AllSamples(files), seen.minTS, seen.maxTS)
  {
    hide Inv, AllSamples;
    RunKeepsInv(files, states, |states| - 1);
    BoundsWhenAllSent(files, states[|states| - 1]);
  }

  lemma BoundsWhenAllSent(files: seq<seq<Sample>>, s: State)
    requires Inv(files, s) && AllSent(s)
    ensures if AllSamples(files) == [] then s.seen == NOTHING_SEEN
            else Spans(AllSamples(files), s.seen.minTS, s.seen.maxTS)
  {
    hide AllSamples;
    forall x | x in AllSamples(files) ensures Covers(s.seen, x.ts) {
      AllSamplesAre(files, x);
      var i :| 0 <= i < |files| && x in files[i];
      assert Accounted(files[i], s.senders[i], s.seen) && s.senders[i] == [];
    }
    forall ts | IsTime(files, ts) ensures exists x :: x in AllSamples(files) && x.ts == ts {
      var i, x :| 0 <= i < |files| && x in files[i] && x.ts == ts;
      AllSamplesAre(files, x);
    }
    if AllSamples(files) != [] {
      assert Covers(s.seen, AllSamples(files)[0].ts);
    }
  }

  // ---------- The days between two dates ----------

  method DateList(startDate: int, endDate: int) returns (dates: seq<int>)
    ensures |dates| == if startDate <= endDate then endDate - startDate + 1 else 0
    ensures forall k :: 0 <= k < |dates| ==> dates[k] == startDate + k
  {
    dates := [];
    var d := startDate;
    while d <= endDate
      invariant |dates| == d - startDate && (d <= endDate + 1 || d == startDate)
      invariant forall k :: 0 <= k < |dates| ==> dates[k] == startDate + k
    {
      dates := dates + [d];
      d := d + 1;
    }
  }

  /** One block a day, day after day. */
  function DayByDay(samples: seq<Sample>, dates: seq<int>): seq<Sample> {
    if dates == [] then [] else DayByDay(samples, dates[..|dates| - 1]) + OfDay(samples, dates[|dates| - 1])
  }

  ghost predicate Consecutive(dates: seq<int>) {
    forall k :: 0 < k < |dates| ==> dates[k] == dates[k - 1] + 1
  }

  lemma {:induction false} DatesFromFirst(dates: seq<int>, k: nat)
    requires Consecutive(dates) && k < |dates|
    ensures dates[k] == dates[0] + k
  {
    if k > 0 {
      DatesFromFirst(dates, k - 1);
    }
  }

  lemma {:induction false} NothingOnOtherDays(samples: seq<Sample>, dates: seq<int>, more: seq<Sample>)
    requires forall x, d :: x in more && d in dates ==> DayOf(x.ts) != d
    ensures DayByDay(samples + more, dates) == DayByDay(samples, dates)
  {
    hide OfDay, DayOf;
    if dates != [] {
      var n := |dates| - 1;
      assert dates[n] in dates && forall d :: d in dates[..n] ==> d in dates;
      NothingOnOtherDays(samples, dates[..n], more);
      OfDayConcat(samples, more, dates[n]);
      NotOfDay(more, dates[n]);
    }
  }

  lemma {:induction false} NotOfDay(samples: seq<Sample>, day: int)
    requires forall x :: x in samples ==> DayOf(x.ts) != day
    ensures OfDay(samples, day) == []
  {
    if samples != [] {
      assert samples[|samples| - 1] in samples;
      NotOfDay(samples[..|samples| - 1], day);
    }
  }

  /** Where the last day begins. */
  lemma BeginsAt(samples: seq<Sample>, day: int) returns (n: nat)
    requires Increasing(samples) && forall x :: x in samples ==> DayOf(x.ts) <= day
    ensures n <= |samples|
    ensures forall x :: x in samples[..n] ==> DayOf(x.ts) < day
    ensures forall i :: n <= i < |samples| ==> DayOf(samples[i].ts) == day
  {
    n := 0;
    while n < |samples| && DayOf(samples[n].ts) < day
      invariant n <= |samples| && forall x :: x in samples[..n] ==> DayOf(x.ts) < day
    {
      assert samples[..n + 1] == samples[..n] + [samples[n]];
      n := n + 1;
    }
    forall i | n <= i < |samples| ensures DayOf(samples[i].ts) == day {
      DaysFollowTime(samples[n].ts, samples[i].ts);
      assert samples[i] in samples;
    }
  }

  lemma LastDate(dates: seq<int>)
    requires Consecutive(dates) && dates != []
    ensures Consecutive(dates[..|dates| - 1])
    ensures forall d :: d in dates ==> d <= dates[|dates| - 1]
    ensures forall d :: d in dates[..|dates| - 1] <==> d in dates && d < dates[|dates| - 1]
  {
    var last := |dates| - 1;
    DatesFromFirst(dates, last);
    forall d | d in dates ensures d <= dates[last] && (d < dates[last] <==> d in dates[..last]) {
      var k :| 0 <= k < |dates| && dates[k] == d;
      DatesFromFirst(dates, k);
      if d in dates[..last] {
        var j :| 0 <= j < last && dates[j] == d;
        DatesFromFirst(dates, j);
      }
      assert k < last ==> dates[..last][k] == d;
    }
  }

  /** Over a list of days that covers them all, the day's blocks make up the samples again. */
  lemma {:induction false} DaysMakeUpSamples(samples: seq<Sample>, dates: seq<int>)
    requires Increasing(samples) && Consecutive(dates)
    requires forall x :: x in samples ==> DayOf(x.ts) in dates
    ensures DayByDay(samples, dates) == samples
    decreases |dates|
  {
    hide DayOf, OfDay, Consecutive, Increasing;
    assert samples != [] ==> samples[0] in samples;
    if dates == [] {
      assert samples == [];
    } else {
      var last := |dates| - 1;
      LastDate(dates);
      var n := BeginsAt(samples, dates[last]);
      var before, after := samples[..n], samples[n..];
      assert samples == before + after;
      IncreasingPrefix(samples, n);
      forall x | x in before ensures DayOf(x.ts) in dates[..last] {
        assert x in samples;
      }
      DaysMakeUpSamples(before, dates[..last]);
      NothingOnOtherDays(before, dates[..last], after);
      OfDayConcat(before, after, dates[last]);
      NotOfDay(before, dates[last]);
      OfDayOfOneDay(after, dates[last], dates[last]);
    }
  }

  /** The days from the first to the last time seen: what DateList makes of the command's answer. */
  ghost predicate IsDateList(dates: seq<int>, seen: Range) {
    var first, last := DayOf(seen.minTS), DayOf(seen.maxTS);
    && |dates| == (if first <= last then last - first + 1 else 0)
    && forall k :: 0 <= k < |dates| ==> dates[k] == first + k
  }

  /** With the days the daterange command suggests, no sample of any file falls outside. */
  lemma SuggestedDaysCover(files: seq<seq<Sample>>, states: seq<State>, i: nat, dates: seq<int>)
    requires Run(files, states) && InInt64(files) && AllSent(states[|states| - 1])
    requires i < |files| && Increasing(files[i])
    requires IsDateList(dates, states[|states| - 1].seen)
    ensures DayByDay(files[i], dates) == files[i]
  {
    hide DayOf, Init, SomeDelivers, InInt64, AllSent;
    var seen := states[|states| - 1].seen;
    CollectorFindsBounds(files, states);
    forall x | x in files[i] ensures DayOf(x.ts) in dates {
      AllSamplesAre(files, x);
      assert seen.minTS <= x.ts <= seen.maxTS;
      DaysFollowTime(seen.minTS, x.ts);
      DaysFollowTime(x.ts, seen.maxTS);
      assert dates[DayOf(x.ts) - DayOf(seen.minTS)] == DayOf(x.ts);
    }
    DaysMakeUpSamples(files[i], dates);
  }
}
