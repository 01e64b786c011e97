/** Which days pass 2 makes blocks for (getIntermediateListIntoChan in whisperconverter/pass2.go). */
module BlockDates {
  import opened Wrappers
  import opened Paths
  import opened Days

  /** The asked-for dates that pass the test, in their order. */
  function Without(dates: seq<int>, skippable: set<int>): seq<int> {
    if dates == [] then []
    else
      var n := |dates| - 1;
      Without(dates[..n], skippable) + if dates[n] in skippable then [] else [dates[n]]
  }

  /** The program exits at a date without an intermediate file, or lists this worker's dates, or never comes to it. */
  datatype Listing = Exits | Lists(dates: seq<int>) | NeverEnds

  /**
   * `finished` are the dates that have blocks, None if listing them fails; `files` are the dates
   * that have an intermediate file.
   */
  method IntermediateList(dates: seq<int>, finished: Option<set<int>>, files: set<int>, overwriteBlocks: bool,
                          workerCount: nat, workerID: nat)
    returns (r: Listing)
    ensures var chosen := Without(dates, Skippable(finished, overwriteBlocks));
      && (r.Exits? <==> exists d :: d in chosen && d !in files)
      && (r.NeverEnds? <==> !r.Exits? && workerCount == 0 && workerID < |chosen|)
      && (r.Lists? && (workerCount == 0 || workerCount > |chosen|) ==> r.dates == [])
      && (r.Lists? && 0 < workerCount <= |chosen| ==> IsPart(chosen, workerCount, workerID, r.dates))
  {
    var skippableDates: set<int> := {};
    if !overwriteBlocks {
      skippableDates := if finished.Some? then finished.value else {};
    }
    var chosen: seq<int> := [];
    for k := 0 to |dates|
      invariant chosen == Without(dates[..k], skippableDates)
      invariant forall d :: d in chosen ==> d in files
    {
      assert dates[..k + 1][..k] == dates[..k];
      if dates[k] in skippableDates {
        continue;
      }
      if dates[k] !in files {
        WithoutMembers(dates, skippableDates, dates[k]);
        return Exits;
      }
      chosen := chosen + [dates[k]];
    }
    assert dates[..|dates|] == dates;
    var paths := PathsForWorker(chosen, workerCount, workerID);
    r := if paths.Some? then Lists(paths.value) else NeverEnds;
  }

  function Skippable(finished: Option<set<int>>, overwriteBlocks: bool): set<int> {
    if overwriteBlocks || finished.None? then {} else finished.value
  }

  lemma {:induction false} WithoutMembers(dates: seq<int>, skippable: set<int>, d: int)
    ensures d in Without(dates, skippable) <==> d in dates && d !in skippable
  {
    if dates != [] {
      var n := |dates| - 1;
      WithoutMembers(dates[..n], skippable, d);
      assert dates == dates[..n] + [dates[n]];
    }
  }

  lemma {:induction false} WithoutIsShorter(dates: seq<int>, skippable: set<int>)
    ensures |Without(dates, skippable)| <= |dates|
    ensures Without(dates, skippable) == dates <==> forall d :: d in dates ==> d !in skippable
  {
    if dates != [] {
      var n := |dates| - 1;
      WithoutIsShorter(dates[..n], skippable);
      assert dates == dates[..n] + [dates[n]];
      assert forall d :: d in dates <==> d in dates[..n] || d == dates[n];
      var before := Without(dates[..n], skippable);
      if before != dates[..n] && |before| == n {
        assert (before + [dates[n]])[..n] != dates[..n];
      }
    }
  }

  // ---------- Which dates are finished ----------

  /** The days on which blocks begin, as their meta files tell; None is a file that cannot be read. */
  ghost function FinishedDates(minTimes: seq<Option<int>>): set<int> {
    set k | 0 <= k < |minTimes| && minTimes[k].Some? :: DayOf(minTimes[k].value)
  }

  /** GetFinishedBlockDates, given the minimum times of the blocks found. */
  method GetFinishedBlockDates(minTimes: seq<Option<int>>) returns (skippableDates: set<int>)
    ensures skippableDates == FinishedDates(minTimes)
  {
    skippableDates := {};
    for k := 0 to |minTimes|
      invariant skippableDates == FinishedDates(minTimes[..k])
    {
      assert minTimes[..k + 1] == minTimes[..k] + [minTimes[k]];
      if minTimes[k].None? {
        continue;
      }
      skippableDates := skippableDates + {DayOf(minTimes[k].value)};
    }
    assert minTimes[..|minTimes|] == minTimes;
  }

  /**
   * If each date's block, where there is one, begins on that date, then a run that overwrites no
   * blocks works on exactly the dates without one.
   */
  lemma OnlyMissingAreMade(dates: seq<int>, minTimes: seq<Option<int>>, k: nat)
    requires |minTimes| == |dates| && k < |dates| && forall i, j :: 0 <= i < j < |dates| ==> dates[i] != dates[j]
    requires forall i :: 0 <= i < |dates| && minTimes[i].Some? ==> DayOf(minTimes[i].value) == dates[i]
    ensures dates[k] in Without(dates, Skippable(Some(FinishedDates(minTimes)), false)) <==> minTimes[k].None?
  {
    hide DayOf;
    WithoutMembers(dates, FinishedDates(minTimes), dates[k]);
    if dates[k] in FinishedDates(minTimes) {
      var i :| 0 <= i < |minTimes| && minTimes[i].Some? && DayOf(minTimes[i].value) == dates[k];
      assert i == k;
    }
  }

  /** The dates a run with the flag --resume-blocks works on: main passes the flag as "overwrite". */
  function DatesOfRun(dates: seq<int>, finished: Option<set<int>>, resumeBlocks: bool): seq<int> {
    Without(dates, Skippable(finished, resumeBlocks))
  }

  /**
   * With the flag set, only unfinished dates should be worked on, and without it all. Either
   * is so if and only if no asked-for date has a finished block (or they cannot be listed).
   */
  lemma ResumingIsInverted(dates: seq<int>, finished: Option<set<int>>)
    ensures var done := Skippable(finished, false);
      && (DatesOfRun(dates, finished, true) == Without(dates, done) <==> forall d :: d in dates ==> d !in done)
      && (DatesOfRun(dates, finished, false) == dates <==> forall d :: d in dates ==> d !in done)
  {
    WithoutIsShorter(dates, {});
    WithoutIsShorter(dates, Skippable(finished, false));
  }

  /** One date that has its block: a resumed run makes it again, and one that is not to resume makes nothing. */
  lemma FinishedDateIsRedone()
    ensures DatesOfRun([0], Some({0}), true) == [0] && DatesOfRun([0], Some({0}), false) == []
  {
    assert [0][..0] == [];
  }
}
