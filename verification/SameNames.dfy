/** When files share a metric name: exactly when it matters how pass 1 went. */
module SameNames {
  import opened Chunks
  import opened Days
  import opened Pass1

  /** Any two completed runs leave the same view of every asked-for day. */
  ghost predicate RunsAgree(job: Job) {
    forall one: seq<State>, other: seq<State>, day ::
      CompletedRun(job, one) && CompletedRun(job, other) && day in job.dates ==>
        SameView(one[|one| - 1].logs, other[|other| - 1].logs, day)
  }

  ghost predicate CompletedRun(job: Job, states: seq<State>) {
    Run(job, states) && Completed(states[|states| - 1])
  }

  ghost predicate SameView(a: map<int, seq<LogEntry>>, b: map<int, seq<LogEntry>>, day: int) {
    day in a && day in b && LastEntries(a[day]) == LastEntries(b[day])
  }

  // ---------- A run that only one file of a name takes part in ----------

  /** Entries under the metric's name are its own, and all its blocks are there. */
  ghost predicate OwnsName(logs: map<int, seq<LogEntry>>, m: Metric) {
    && AllStored(logs, m)
    && forall d, e :: d in logs && e in logs[d] && e.name == m.name ==> HasEntry(m, e) && BlockDay(e.samples) == d
  }

  /** The name is done with for the rest of the run and every later one. */
  ghost predicate Settled(s: State, m: Metric) {
    && m.name in Listed(s.progress) && m.name in s.skippable && OwnsName(s.logs, m)
    && forall w :: 0 <= w < |s.workers| && s.workers[w].Writing? ==> s.workers[w].m.name != m.name
  }

  lemma WritingKeepsOwned(logs: map<int, seq<LogEntry>>, m: Metric, n: Metric, block: seq<Sample>)
    requires OwnsName(logs, m) && n.name != m.name
    ensures OwnsName(Written(logs, n, block), m)
  {
    var written := Written(logs, n, block);
    forall b | b in m.blocks.value ensures Stored(written, m, b) {
      assert Stored(logs, m, b);
    }
    forall d: int, e: LogEntry | d in written && e in written[d] && e.name == m.name ensures e in logs[d] {
    }
  }

  lemma MoveKeepsSettled(s: State, t: State, w: nat, m: Metric)
    requires Settled(s, m) && WorkerMoves(s, t, w)
    ensures Settled(t, m)
  {
    hide OwnsName, Written;
    if TakesFile(s, t, w) {
      forall v | 0 <= v < |t.workers| && t.workers[v].Writing? ensures t.workers[v].m.name != m.name {
        assert v != w ==> t.workers[v] == s.workers[v];
      }
    } else {
      forall v | 0 <= v < |t.workers| && t.workers[v].Writing? ensures t.workers[v].m.name != m.name {
        assert s.workers[v].Writing? && s.workers[v].m == t.workers[v].m;
      }
      if WritesBlock(s, t, w) {
        WritingKeepsOwned(s.logs, m, s.workers[w].m, s.workers[w].pending[0]);
      } else {
        assert Listed(t.progress) == Listed(s.progress) + {s.workers[w].m.name};
      }
    }
  }

  ghost predicate CanMove(s: State, w: nat) {
    w < |s.workers| && (s.workers[w].Writing? || s.queue != [])
  }

  /** A worker that can move does, in some way. */
  lemma SomeMove(s: State, w: nat) returns (t: State)
    requires CanMove(s, w)
    ensures WorkerMoves(s, t, w) && |t.workers| == |s.workers|
  {
    if s.workers[w].Idle? {
      var m := s.queue[0];
      var to := if Skips(m, s.skippable) then Idle else Writing(m, m.blocks.value);
      t := s.(queue := s.queue[1..], workers := s.workers[w := to]);
      assert TakesFile(s, t, w);
    } else if s.workers[w].pending != [] {
      var m, pending := s.workers[w].m, s.workers[w].pending;
      t := s.(logs := Written(s.logs, m, pending[0]), workers := s.workers[w := Writing(m, pending[1..])]);
      assert WritesBlock(s, t, w);
    } else {
      t := s.(progress := s.progress + [s.workers[w].m.name], workers := s.workers[w := Idle]);
      assert RecordsProgress(s, t, w);
    }
  }

  /** From any state with workers a run can come to its end, and what is settled stays so. */
  lemma {:induction false} CanComplete(job: Job, start: State, s: State, m: Metric) returns (t: State)
    requires Reaches(job, start, s) && s.workers != [] && Settled(s, m)
    ensures Reaches(job, start, t) && Completed(t) && Settled(t, m)
    decreases QueueWork(s.queue) + WorkersWork(s.workers)
  {
    hide Reaches, Settled, WorkerMoves;
    if w: nat :| CanMove(s, w) {
      var u := SomeMove(s, w);
      TurnIsWork(s, u, w);
      ReachesNext(job, start, s, u, w);
      MoveKeepsSettled(s, u, w, m);
      t := CanComplete(job, start, u, m);
    } else {
      t := s;
      assert !CanMove(s, 0);
      forall w | 0 <= w < |s.workers| ensures s.workers[w] == Idle {
        assert !CanMove(s, w);
      }
    }
  }

  /** The first `k` files taken, each by a worker of its own, and nothing written. */
  ghost predicate TakenUpTo(job: Job, s: State, k: nat) {
    && k <= |job.metrics| == |s.workers| && s.queue == job.metrics[k..]
    && s.logs == NoEntries(job.dates) && s.progress == [] && s.skippable == {}
    && (forall w :: k <= w < |s.workers| ==> s.workers[w] == Idle)
    && (forall w :: 0 <= w < k && job.metrics[w].blocks.Some? ==>
          s.workers[w] == Writing(job.metrics[w], job.metrics[w].blocks.value))
  }

  lemma {:induction false} CanTakeUpTo(job: Job, start: State, k: nat) returns (s: State)
    requires k <= |job.metrics| && TakenUpTo(job, start, 0)
    ensures Reaches(job, start, s) && TakenUpTo(job, s, k)
  {
    hide Reaches;
    if k == 0 {
      s := start;
      ReachesItself(job, start);
    } else {
      var before := CanTakeUpTo(job, start, k - 1);
      assert before.queue[0] == job.metrics[k - 1] && before.queue[1..] == job.metrics[k..];
      var m := job.metrics[k - 1];
      var to := if m.blocks.None? then Idle else Writing(m, m.blocks.value);
      s := before.(queue := job.metrics[k..], workers := before.workers[k - 1 := to]);
      assert TakesFile(before, s, k - 1);
      ReachesNext(job, start, before, s, k - 1);
    }
  }

  /** Worker `w` has written some of its file's blocks, nobody has written any others. */
  ghost predicate WritesAlone(s: State, w: nat, m: Metric) {
    && w < |s.workers| && s.workers[w].Writing? && s.workers[w].m == m && m.blocks.Some?
    && (forall b :: b in m.blocks.value ==> b in s.workers[w].pending || Stored(s.logs, m, b))
    && (forall b :: b in s.workers[w].pending ==> b in m.blocks.value)
    && (forall d, e :: d in s.logs && e in s.logs[d] ==> HasEntry(m, e) && BlockDay(e.samples) == d)
  }

  lemma WritingAlone(s: State, t: State, w: nat, m: Metric)
    requires WritesAlone(s, w, m) && WritesBlock(s, t, w)
    ensures WritesAlone(t, w, m)
  {
    var block := s.workers[w].pending[0];
    assert block in s.workers[w].pending;
    forall b | b in m.blocks.value ensures b in t.workers[w].pending || Stored(t.logs, m, b) {
      assert b in s.workers[w].pending || Stored(s.logs, m, b);
    }
    forall d: int, e: LogEntry | d in t.logs && e in t.logs[d] ensures HasEntry(m, e) && BlockDay(e.samples) == d {
      assert e in s.logs[d] || e == EntryFor(m, block);
    }
  }

  lemma {:induction false} CanWriteAll(job: Job, start: State, s: State, w: nat, m: Metric) returns (t: State)
    requires Reaches(job, start, s) && WritesAlone(s, w, m) && s.progress == []
    ensures Reaches(job, start, t) && WritesAlone(t, w, m) && t.workers[w].pending == [] && t.progress == []
    decreases |if w < |s.workers| && s.workers[w].Writing? then s.workers[w].pending else []|
  {
    hide Reaches;
    if s.workers[w].pending == [] {
      t := s;
    } else {
      var pending := s.workers[w].pending;
      var u := s.(logs := Written(s.logs, m, pending[0]), workers := s.workers[w := Writing(m, pending[1..])]);
      assert WritesBlock(s, u, w);
      WritingAlone(s, u, w, m);
      ReachesNext(job, start, s, u, w);
      t := CanWriteAll(job, start, u, w, m);
    }
  }

  lemma ReachesByStep(job: Job, s: State, t: State, u: State)
    requires Reaches(job, s, t) && Step(job, t, u)
    ensures Reaches(job, s, u)
  {
    hide Step;
    var states :| Steps(job, states) && states[0] == s && states[|states| - 1] == t;
    var longer := states + [u];
    forall k | 0 < k < |longer| ensures Step(job, longer[k - 1], longer[k]) {
      assert k < |states| ==> Step(job, states[k - 1], states[k]);
    }
    assert Steps(job, longer);
  }

  /**
   * File `i` alone can make it into the logs under its name: it is recorded first, the program
   * ends before any other has written, and the next run skips all files of that name.
   */
  lemma OneFileCanSettle(job: Job, i: nat) returns (run: seq<State>)
    requires i < |job.metrics| && job.metrics[i].blocks.Some?
    ensures CompletedRun(job, run) && OwnsName(run[|run| - 1].logs, job.metrics[i])
  {
    hide Reaches, Steps, OwnsName, Settled;
    var m := job.metrics[i];
    var start := State(NoEntries(job.dates), [], {}, job.metrics, seq(|job.metrics|, _ => Idle));
    assert job.metrics[0..] == job.metrics;
    var taken := CanTakeUpTo(job, start, i + 1);
    assert WritesAlone(taken, i, m);
    var written := CanWriteAll(job, start, taken, i, m);
    var recorded := written.(progress := [m.name], workers := written.workers[i := Idle]);
    assert [] + [m.name] == [m.name];
    assert RecordsProgress(written, recorded, i);
    ReachesNext(job, start, written, recorded, i);
    var again := State(recorded.logs, [m.name], {m.name}, job.metrics, [Idle]);
    assert Listed([m.name]) == {m.name};
    assert Restarts(job, recorded, again, true);
    ReachesByStep(job, start, recorded, again);
    SettledAgain(written, i, m, again);
    var last := CanComplete(job, start, again, m);
    OwnsSettled(last, m);
    run := RunOf(job, start, last);
  }

  lemma SettledAgain(written: State, w: nat, m: Metric, again: State)
    requires WritesAlone(written, w, m) && written.workers[w].pending == []
    requires again.logs == written.logs && again.progress == [m.name] && again.skippable == {m.name}
    requires again.workers == [Idle]
    ensures Settled(again, m)
  {
  }

  lemma OwnsSettled(s: State, m: Metric)
    requires Settled(s, m)
    ensures OwnsName(s.logs, m)
  {
  }

  lemma RunOf(job: Job, start: State, last: State) returns (run: seq<State>)
    requires Reaches(job, start, last) && Init(job, start)
    ensures Run(job, run) && run[|run| - 1] == last
  {
    run :| Steps(job, run) && run[0] == start && run[|run| - 1] == last;
  }

  /** What the view of a day has under the name of the file that settled. */
  lemma ViewOfSettled(logs: map<int, seq<LogEntry>>, m: Metric, day: int, block: seq<Sample>)
    requires OwnsName(logs, m) && day in logs
    requires forall a, b :: HasBlock(m, a) && HasBlock(m, b) && BlockDay(a) == BlockDay(b) ==> a == b
    ensures HasDay(m, day, block) ==>
      m.name in LastEntries(logs[day]) && LastEntries(logs[day])[m.name] == EntryFor(m, block)
    ensures m.name in LastEntries(logs[day]) ==> HasEntry(m, LastEntries(logs[day])[m.name])
  {
    LastEntriesAreEntries(logs[day], m.name);
    if HasDay(m, day, block) {
      assert Stored(logs, m, block);
    }
  }

  /** Two files of a name that differ on an asked-for day lead to runs that differ. */
  lemma DifferentFilesDisagree(job: Job, m: Metric, n: Metric, block: seq<Sample>)
    requires OneBlockADay(job.metrics) && m in job.metrics && n in job.metrics && SameName(m, n)
    requires HasBlock(m, block) && BlockDay(block) in job.dates && !HasEntry(n, EntryFor(m, block))
    ensures !RunsAgree(job)
  {
    hide Step, Init, OwnsName, LastEntries, Completed;
    var day := BlockDay(block);
    var i :| 0 <= i < |job.metrics| && job.metrics[i] == m;
    var j :| 0 <= j < |job.metrics| && job.metrics[j] == n;
    var one := OneFileCanSettle(job, i);
    var other := OneFileCanSettle(job, j);
    if RunsAgree(job) {
      var a, b := one[|one| - 1], other[|other| - 1];
      assert SameView(a.logs, b.logs, day);
      assert HasDay(m, day, block);
      ViewOfSettled(a.logs, m, day, block);
      ViewOfSettled(b.logs, n, day, block);
    }
  }

  /**
   * It does not matter how pass 1 went if and only if files of one name that can be converted
   * have the same entries for every asked-for day.
   */
  lemma RunsAgreeIff(job: Job)
    requires OneBlockADay(job.metrics)
    ensures RunsAgree(job) <==> NamesAgree(job)
  {
    hide OneBlockADay, LastEntries;
    if NamesAgree(job) {
      forall one: seq<State>, other: seq<State>, day |
        CompletedRun(job, one) && CompletedRun(job, other) && day in job.dates
        ensures SameView(one[|one| - 1].logs, other[|other| - 1].logs, day)
      {
        CompletedRunsAgree(job, one, other, day);
      }
    } else {
      var m, n, block :|
        && m in job.metrics && n in job.metrics && SameName(m, n) && HasBlock(m, block)
        && BlockDay(block) in job.dates && !HasEntry(n, EntryFor(m, block));
      DifferentFilesDisagree(job, m, n, block);
    }
  }
}
