/**
 * Pass 1: workers append each metric's day blocks to the days' logs and then its name to the
 * progress log; crashed or finished runs are resumed (whisperconverter/pass1.go). Logs are
 * sequences of records here: what reopening a file finds is the subject of LogRecovery.
 */
module Pass1 {
  import opened Bytes
  import opened Wrappers
  import opened Labels
  import opened Chunks
  import opened Days

  /** A Whisper file: its metric name, the name's labels and, unless converting it fails, its day blocks. */
  datatype Metric = Metric(name: Str, labels: LabelSet, blocks: Option<seq<seq<Sample>>>)

  /** What every run is given: the files, and the days asked for. */
  datatype Job = Job(metrics: seq<Metric>, dates: set<int>)

  /** A record of a day's log: key and value. */
  datatype LogEntry = LogEntry(name: Str, labels: LabelSet, samples: seq<Sample>)

  /** A worker waits for a file or still has some blocks to write of the one it took. */
  datatype Worker = Idle | Writing(m: Metric, pending: seq<seq<Sample>>)

  /** `skippable` is what the progress log listed when the run began. */
  datatype State = State(
    logs: map<int, seq<LogEntry>>,
    progress: seq<Str>,
    skippable: set<Str>,
    queue: seq<Metric>,
    workers: seq<Worker>)

  function Listed(progress: seq<Str>): set<Str> {
    set n | n in progress
  }

  predicate Skips(m: Metric, skippable: set<Str>) {
    m.name in skippable || m.blocks.None?
  }

  function EntryFor(m: Metric, block: seq<Sample>): LogEntry {
    LogEntry(m.name, m.labels, block)
  }

  /** The day's log gets the block if that day was asked for. */
  function Written(logs: map<int, seq<LogEntry>>, m: Metric, block: seq<Sample>): map<int, seq<LogEntry>> {
    var day := BlockDay(block);
    if day in logs then logs[day := logs[day] + [EntryFor(m, block)]] else logs
  }

  /** A worker takes a file from the channel; its blocks are shuffled. */
  ghost predicate TakesFile(s: State, t: State, w: nat) {
    && w < |s.workers| == |t.workers| && s.workers[w] == Idle && s.queue != []
    && var m := s.queue[0];
      && t == s.(queue := s.queue[1..], workers := s.workers[w := t.workers[w]])
      && if Skips(m, s.skippable) then t.workers[w] == Idle
         else t.workers[w].Writing? && t.workers[w].m == m && multiset(t.workers[w].pending) == multiset(m.blocks.value)
  }

  ghost predicate WritesBlock(s: State, t: State, w: nat) {
    && w < |s.workers| && s.workers[w].Writing? && s.workers[w].pending != []
    && var m, pending := s.workers[w].m, s.workers[w].pending;
      t == s.(logs := Written(s.logs, m, pending[0]), workers := s.workers[w := Writing(m, pending[1..])])
  }

  ghost predicate RecordsProgress(s: State, t: State, w: nat) {
    && w < |s.workers| && s.workers[w].Writing? && s.workers[w].pending == []
    && t == s.(progress := s.progress + [s.workers[w].m.name], workers := s.workers[w := Idle])
  }

  ghost predicate WorkerMoves(s: State, t: State, w: nat) {
    TakesFile(s, t, w) || WritesBlock(s, t, w) || RecordsProgress(s, t, w)
  }

  ghost predicate FreshRun(job: Job, t: State) {
    && t.queue == job.metrics
    && t.skippable == Listed(t.progress)
    && forall w :: 0 <= w < |t.workers| ==> t.workers[w] == Idle
  }

  /**
   * The program ends, wherever the workers are, and is started anew. The progress log is
   * always opened to go on with, the days' logs only if resuming is asked for.
   */
  ghost predicate Restarts(job: Job, s: State, t: State, resume: bool) {
    && FreshRun(job, t)
    && t.progress == s.progress
    && t.logs == if resume then s.logs else NoEntries(job.dates)
  }

  function NoEntries(dates: set<int>): map<int, seq<LogEntry>> {
    map d | d in dates :: []
  }

  ghost predicate Init(job: Job, s: State) {
    FreshRun(job, s) && s.progress == [] && s.logs == NoEntries(job.dates)
  }

  ghost predicate Step(job: Job, s: State, t: State) {
    (exists w :: WorkerMoves(s, t, w)) || Restarts(job, s, t, true)
  }

  ghost predicate Steps(job: Job, states: seq<State>) {
    states != [] && forall k :: 0 < k < |states| ==> Step(job, states[k - 1], states[k])
  }

  /** Any interleaving of any number of workers, with any number of crashes and resumed runs. */
  ghost predicate Run(job: Job, states: seq<State>) {
    Steps(job, states) && Init(job, states[0])
  }

  // ---------- What holds in every reachable state ----------

  predicate HasBlock(m: Metric, block: seq<Sample>) {
    m.blocks.Some? && block in m.blocks.value
  }

  /**
   * Files may share a name, as a/b.wsp and a.b.wsp do. Those that can be converted then have the
   * same entries for all asked-for days. Distinct names are the usual case.
   */
  ghost predicate NamesAgree(job: Job) {
    forall m, n, block ::
      m in job.metrics && n in job.metrics && SameName(m, n) && HasBlock(m, block) && BlockDay(block) in job.dates ==>
        HasEntry(n, EntryFor(m, block))
  }

  /** Both are converted under the same name. */
  predicate SameName(m: Metric, n: Metric) {
    m.name == n.name && m.blocks.Some? && n.blocks.Some?
  }

  predicate HasEntry(m: Metric, e: LogEntry) {
    HasBlock(m, e.samples) && e == EntryFor(m, e.samples)
  }

  ghost predicate DistinctNames(metrics: seq<Metric>) {
    forall i, j :: 0 <= i < j < |metrics| ==> metrics[i].name != metrics[j].name
  }

  lemma DistinctNamesAgree(job: Job)
    requires DistinctNames(job.metrics)
    ensures NamesAgree(job)
  {
    forall m, n | m in job.metrics && n in job.metrics && m.name == n.name ensures m == n {
      var i :| 0 <= i < |job.metrics| && job.metrics[i] == m;
      var j :| 0 <= j < |job.metrics| && job.metrics[j] == n;
      assert i == j;
    }
  }

  /** The entry is some file's block for that day. */
  ghost predicate Right(job: Job, day: int, e: LogEntry) {
    exists m :: m in job.metrics && HasBlock(m, e.samples) && BlockDay(e.samples) == day && e == EntryFor(m, e.samples)
  }

  /** The block is in its day's log, if there is one. */
  ghost predicate Stored(logs: map<int, seq<LogEntry>>, m: Metric, block: seq<Sample>) {
    BlockDay(block) in logs ==> EntryFor(m, block) in logs[BlockDay(block)]
  }

  ghost predicate AllStored(logs: map<int, seq<LogEntry>>, m: Metric) {
    m.blocks.Some? && forall block :: block in m.blocks.value ==> Stored(logs, m, block)
  }

  ghost predicate WorkerHolds(job: Job, logs: map<int, seq<LogEntry>>, w: Worker) {
    w.Writing? ==>
      && w.m in job.metrics && w.m.blocks.Some?
      && (forall block :: block in w.pending ==> HasBlock(w.m, block))
      && (forall block :: block in w.m.blocks.value ==> block in w.pending || Stored(logs, w.m, block))
  }

  ghost predicate LogsRight(job: Job, logs: map<int, seq<LogEntry>>) {
    logs.Keys == job.dates && forall d, e :: d in logs && e in logs[d] ==> Right(job, d, e)
  }

  /** Whatever the progress log lists is completely in the days' logs. */
  ghost predicate ProgressRight(job: Job, logs: map<int, seq<LogEntry>>, listed: set<Str>) {
    forall m :: m in job.metrics && m.name in listed && m.blocks.Some? ==> AllStored(logs, m)
  }

  /** What this run still has to do with a file, if it is not done. */
  ghost predicate Covered(s: State, m: Metric) {
    || m.blocks.None? || m.name in Listed(s.progress) || m in s.queue
    || exists w :: 0 <= w < |s.workers| && s.workers[w].Writing? && s.workers[w].m == m
  }

  ghost predicate Inv(job: Job, s: State) {
    && LogsRight(job, s.logs)
    && ProgressRight(job, s.logs, Listed(s.progress))
    && (forall w :: 0 <= w < |s.workers| ==> WorkerHolds(job, s.logs, s.workers[w]))
    && s.skippable <= Listed(s.progress)
    && (forall m :: m in s.queue ==> m in job.metrics)
    && (forall m :: m in job.metrics ==> Covered(s, m))
  }

  lemma InitHolds(job: Job, s: State)
    requires Init(job, s)
    ensures Inv(job, s)
  {
  }

  lemma RestartHolds(job: Job, s: State, t: State)
    requires Inv(job, s) && Restarts(job, s, t, true)
    ensures Inv(job, t)
  {
  }

  lemma TakeHolds(job: Job, s: State, t: State, w: nat)
    requires Inv(job, s) && TakesFile(s, t, w)
    ensures Inv(job, t)
  {
    hide LogsRight, ProgressRight, Stored;
    var m := s.queue[0];
    assert m in s.queue;
    if !Skips(m, s.skippable) {
      forall block ensures block in t.workers[w].pending <==> block in m.blocks.value {
        assert block in multiset(t.workers[w].pending) <==> block in multiset(m.blocks.value);
      }
    }
    forall x | x in job.metrics ensures Covered(t, x) {
      assert Covered(s, x);
      if v :| 0 <= v < |s.workers| && s.workers[v].Writing? && s.workers[v].m == x {
        assert t.workers[v] == s.workers[v];
      }
    }
  }

  /** Writing a right block leaves everything stored and right. */
  lemma WrittenKeeps(job: Job, logs: map<int, seq<LogEntry>>, m: Metric, block: seq<Sample>)
    requires LogsRight(job, logs) && m in job.metrics && HasBlock(m, block)
    ensures LogsRight(job, Written(logs, m, block))
    ensures Stored(Written(logs, m, block), m, block)
    ensures forall x, b :: Stored(logs, x, b) ==> Stored(Written(logs, m, block), x, b)
  {
    var day := BlockDay(block);
    assert Right(job, day, EntryFor(m, block));
  }

  lemma WriteHolds(job: Job, s: State, t: State, w: nat)
    requires Inv(job, s) && WritesBlock(s, t, w)
    ensures Inv(job, t)
  {
    hide LogsRight, Stored, Right, Written;
    var m, pending := s.workers[w].m, s.workers[w].pending;
    assert WorkerHolds(job, s.logs, s.workers[w]) && pending[0] in pending;
    WrittenKeeps(job, s.logs, m, pending[0]);
    forall v | 0 <= v < |t.workers| ensures WorkerHolds(job, t.logs, t.workers[v]) {
      assert WorkerHolds(job, s.logs, s.workers[v]);
    }
    forall x | x in job.metrics ensures Covered(t, x) {
      assert Covered(s, x);
      if v :| 0 <= v < |s.workers| && s.workers[v].Writing? && s.workers[v].m == x {
        assert t.workers[v].Writing? && t.workers[v].m == x;
      }
    }
  }

  lemma StoredAlike(job: Job, logs: map<int, seq<LogEntry>>, m: Metric, n: Metric)
    requires NamesAgree(job) && LogsRight(job, logs) && AllStored(logs, m)
    requires m in job.metrics && n in job.metrics && SameName(m, n)
    ensures AllStored(logs, n)
  {
    forall block | block in n.blocks.value ensures Stored(logs, n, block) {
      if BlockDay(block) in logs {
        assert HasBlock(n, block) && HasEntry(m, EntryFor(n, block));
        assert Stored(logs, m, block);
      }
    }
  }

  lemma RecordHolds(job: Job, s: State, t: State, w: nat)
    requires NamesAgree(job)
    requires Inv(job, s) && RecordsProgress(s, t, w)
    ensures Inv(job, t)
  {
    hide LogsRight, Stored, NamesAgree;
    var m := s.workers[w].m;
    assert WorkerHolds(job, s.logs, s.workers[w]);
    assert Listed(t.progress) == Listed(s.progress) + {m.name};
    forall x | x in job.metrics && x.name in Listed(t.progress) && x.blocks.Some? ensures AllStored(t.logs, x) {
      if x.name == m.name {
        StoredAlike(job, t.logs, m, x);
      }
    }
    forall x | x in job.metrics ensures Covered(t, x) {
      assert Covered(s, x);
      if v :| 0 <= v < |s.workers| && s.workers[v].Writing? && s.workers[v].m == x && v != w {
        assert t.workers[v] == s.workers[v];
      }
    }
  }

  lemma StepKeepsInv(job: Job, s: State, t: State)
    requires NamesAgree(job)
    requires Inv(job, s) && Step(job, s, t)
    ensures Inv(job, t)
  {
    hide NamesAgree, Inv, TakesFile, WritesBlock, RecordsProgress, Restarts;
    if Restarts(job, s, t, true) {
      RestartHolds(job, s, t);
    } else {
      var w :| WorkerMoves(s, t, w);
      if TakesFile(s, t, w) {
        TakeHolds(job, s, t, w);
      } else if WritesBlock(s, t, w) {
        WriteHolds(job, s, t, w);
      } else {
        RecordHolds(job, s, t, w);
      }
    }
  }

  lemma {:induction false} StepsKeepInv(job: Job, states: seq<State>, k: nat)
    requires NamesAgree(job) && Steps(job, states) && Inv(job, states[0]) && k < |states|
    ensures Inv(job, states[k])
  {
    hide NamesAgree, Inv, Step;
    if k > 0 {
      StepsKeepInv(job, states, k - 1);
      StepKeepsInv(job, states[k - 1], states[k]);
    }
  }

  lemma RunKeepsInv(job: Job, states: seq<State>, k: nat)
    requires NamesAgree(job) && Run(job, states) && k < |states|
    ensures Inv(job, states[k])
  {
    InitHolds(job, states[0]);
    StepsKeepInv(job, states, k);
  }

  // ---------- What a completed run leaves ----------

  ghost predicate Completed(s: State) {
    s.queue == [] && forall w :: 0 <= w < |s.workers| ==> s.workers[w] == Idle
  }

  /** Each name's last entry: what pass 2 reads from the log. */
  function LastEntries(log: seq<LogEntry>): map<Str, LogEntry> {
    if log == [] then map[] else LastEntries(log[..|log| - 1])[log[|log| - 1].name := log[|log| - 1]]
  }

  ghost predicate HasDay(m: Metric, day: int, block: seq<Sample>) {
    HasBlock(m, block) && BlockDay(block) == day
  }

  /** Exactly the day's block of every metric that has one. */
  ghost predicate HoldsDay(job: Job, day: int, view: map<Str, LogEntry>) {
    && (forall m, block :: m in job.metrics && HasDay(m, day, block) ==>
          m.name in view && view[m.name] == EntryFor(m, block))
    && (forall name :: name in view ==> exists m, block :: m in job.metrics && HasDay(m, day, block) && m.name == name)
  }

  /** No day is split into two blocks, as is so for increasing samples. */
  ghost predicate OneBlockADay(metrics: seq<Metric>) {
    forall m, a, b :: m in metrics && HasBlock(m, a) && HasBlock(m, b) && BlockDay(a) == BlockDay(b) ==> a == b
  }

  lemma {:induction false} LastEntriesAreEntries(log: seq<LogEntry>, name: Str)
    ensures name in LastEntries(log) <==> exists e :: e in log && e.name == name
    ensures name in LastEntries(log) ==> LastEntries(log)[name] in log && LastEntries(log)[name].name == name
  {
    if log != [] {
      var n := |log| - 1;
      LastEntriesAreEntries(log[..n], name);
      assert log == log[..n] + [log[n]];
    }
  }

  /**
   * However often the run crashed and was resumed, and even if records were appended twice,
   * in the end each day's log leads from every metric's name to exactly its block of that day.
   */
  lemma CompletedRunHoldsDays(job: Job, states: seq<State>, day: int)
    requires NamesAgree(job) && OneBlockADay(job.metrics)
    requires Run(job, states) && Completed(states[|states| - 1]) && day in job.dates
    ensures day in states[|states| - 1].logs && HoldsDay(job, day, LastEntries(states[|states| - 1].logs[day]))
  {
    hide NamesAgree, Step, Init, OneBlockADay, Completed;
    RunKeepsInv(job, states, |states| - 1);
    CompletedHoldsDay(job, states[|states| - 1], day);
  }

  lemma CompletedHoldsDay(job: Job, s: State, day: int)
    requires NamesAgree(job) && OneBlockADay(job.metrics)
    requires Inv(job, s) && Completed(s) && day in job.dates
    ensures day in s.logs && HoldsDay(job, day, LastEntries(s.logs[day]))
  {
    hide NamesAgree, OneBlockADay;
    var log := s.logs[day];
    var view := LastEntries(log);
    forall m, block | m in job.metrics && HasDay(m, day, block)
      ensures m.name in view && view[m.name] == EntryFor(m, block)
    {
      assert Covered(s, m);
      assert AllStored(s.logs, m) && Stored(s.logs, m, block);
      LastEntriesAreEntries(log, m.name);
      LogEntryOf(job, s.logs, day, view[m.name], m, block);
    }
    forall name | name in view ensures exists m, block :: m in job.metrics && HasDay(m, day, block) && m.name == name {
      LastEntriesAreEntries(log, name);
      var e := view[name];
      assert Right(job, day, e);
      var m :| m in job.metrics && HasBlock(m, e.samples) && BlockDay(e.samples) == day && e == EntryFor(m, e.samples);
      assert HasDay(m, day, e.samples);
    }
  }

  /** All entries of a name in a day's log are the same. */
  lemma LogEntryOf(job: Job, logs: map<int, seq<LogEntry>>, day: int, e: LogEntry, m: Metric, block: seq<Sample>)
    requires NamesAgree(job) && OneBlockADay(job.metrics) && LogsRight(job, logs)
    requires day in logs && e in logs[day] && e.name == m.name && m in job.metrics && HasDay(m, day, block)
    ensures e == EntryFor(m, block)
  {
    assert Right(job, day, e);
    var x :| x in job.metrics && HasBlock(x, e.samples) && BlockDay(e.samples) == day && e == EntryFor(x, e.samples);
    assert HasEntry(m, EntryFor(x, e.samples));
  }

  /** So it does not matter for pass 2 how pass 1 went, or whether it was ever interrupted. */
  lemma CompletedRunsAgree(job: Job, one: seq<State>, other: seq<State>, day: int)
    requires NamesAgree(job) && OneBlockADay(job.metrics) && day in job.dates
    requires Run(job, one) && Completed(one[|one| - 1])
    requires Run(job, other) && Completed(other[|other| - 1])
    ensures day in one[|one| - 1].logs && day in other[|other| - 1].logs
    ensures LastEntries(one[|one| - 1].logs[day]) == LastEntries(other[|other| - 1].logs[day])
  {
    hide NamesAgree, OneBlockADay, Step, Init, LastEntries;
    CompletedRunHoldsDays(job, one, day);
    CompletedRunHoldsDays(job, other, day);
    HoldsDayOnce(job, day, LastEntries(one[|one| - 1].logs[day]), LastEntries(other[|other| - 1].logs[day]));
  }

  lemma HoldsDayOnce(job: Job, day: int, a: map<Str, LogEntry>, b: map<Str, LogEntry>)
    requires HoldsDay(job, day, a) && HoldsDay(job, day, b)
    ensures a == b
  {
    forall name | name in a ensures name in b && a[name] == b[name] {
      var m, block :| m in job.metrics && HasDay(m, day, block) && m.name == name;
    }
    forall name | name in b ensures name in a {
      var m, block :| m in job.metrics && HasDay(m, day, block) && m.name == name;
    }
  }

  // ---------- Without resuming ----------

  /** The metric has a block for a day that was asked for. */
  ghost predicate HasOutput(job: Job, m: Metric) {
    m.blocks.Some? && exists block :: block in m.blocks.value && BlockDay(block) in job.dates
  }

  /** Nothing the progress log lists had any output. */
  ghost predicate NothingToLose(job: Job, listed: set<Str>) {
    forall m :: m in job.metrics && m.name in listed ==> !HasOutput(job, m)
  }

  /** Starting over without resuming empties the days' logs but not the progress log. */
  lemma InvariantWithoutResuming(job: Job, s: State, t: State)
    requires Inv(job, s) && Restarts(job, s, t, false) && NothingToLose(job, Listed(s.progress))
    ensures Inv(job, t)
  {
    assert LogsRight(job, t.logs);
    forall m | m in job.metrics && m.name in Listed(s.progress) && m.blocks.Some? ensures AllStored(t.logs, m) {
      assert AllStored(s.logs, m);
    }
  }

  /** The metric is listed, and there is nothing of it in any log nor with any worker. */
  ghost predicate Lost(s: State, name: Str) {
    && name in Listed(s.progress) && name in s.skippable
    && (forall d, e :: d in s.logs && e in s.logs[d] ==> e.name != name)
    && (forall w :: 0 <= w < |s.workers| && s.workers[w].Writing? ==> s.workers[w].m.name != name)
  }

  lemma StepKeepsLost(job: Job, s: State, t: State, name: Str)
    requires Lost(s, name) && Step(job, s, t)
    ensures Lost(t, name)
  {
    if Restarts(job, s, t, true) {
    } else {
      var w: nat :| WorkerMoves(s, t, w);
      if TakesFile(s, t, w) {
        forall v | 0 <= v < |t.workers| && t.workers[v].Writing? ensures t.workers[v].m.name != name {
          assert v != w ==> t.workers[v] == s.workers[v];
        }
      } else if WritesBlock(s, t, w) {
        LostAfterWriting(s, t, w, name);
      } else {
        assert Listed(t.progress) == Listed(s.progress) + {s.workers[w].m.name};
      }
    }
  }

  lemma LostAfterWriting(s: State, t: State, w: nat, name: Str)
    requires Lost(s, name) && WritesBlock(s, t, w)
    ensures Lost(t, name)
  {
    forall v | 0 <= v < |t.workers| && t.workers[v].Writing? ensures t.workers[v].m.name != name {
      assert s.workers[v].Writing? && t.workers[v].m == s.workers[v].m;
    }
  }

  lemma {:induction false} StepsKeepLost(job: Job, states: seq<State>, name: Str, k: nat)
    requires Steps(job, states) && Lost(states[0], name) && k < |states|
    ensures Lost(states[k], name)
  {
    hide Lost, Step;
    if k > 0 {
      StepsKeepLost(job, states, name, k - 1);
      StepKeepsLost(job, states[k - 1], states[k], name);
    }
  }

  ghost predicate HoldsAllDays(job: Job, s: State) {
    forall day :: day in job.dates ==> day in s.logs && HoldsDay(job, day, LastEntries(s.logs[day]))
  }

  /** What is lost when starting over stays lost, however often the run is resumed. */
  lemma ListedOutputIsLost(job: Job, s: State, states: seq<State>, m: Metric)
    requires Steps(job, states) && Restarts(job, s, states[0], false)
    requires m in job.metrics && m.name in Listed(s.progress) && HasOutput(job, m)
    ensures !HoldsAllDays(job, states[|states| - 1])
  {
    hide Step;
    var t := states[|states| - 1];
    StepsKeepLost(job, states, m.name, |states| - 1);
    var block :| block in m.blocks.value && BlockDay(block) in job.dates;
    var day := BlockDay(block);
    assert HasDay(m, day, block);
    if day in t.logs {
      LastEntriesAreEntries(t.logs[day], m.name);
    }
  }

  /**
   * A run begun without resuming, and resumed as often as may be, ends with every asked-for day
   * complete if and only if no metric the old progress log lists has a block for such a day.
   */
  lemma RestartWithoutResuming(job: Job, s: State, states: seq<State>)
    requires NamesAgree(job) && OneBlockADay(job.metrics) && Inv(job, s)
    requires states != [] && Restarts(job, s, states[0], false)
    requires Steps(job, states) && Completed(states[|states| - 1])
    ensures HoldsAllDays(job, states[|states| - 1]) <==> NothingToLose(job, Listed(s.progress))
  {
    hide NamesAgree, OneBlockADay, Inv, Step, Completed, HoldsDay, HasOutput, Listed, LastEntries, Restarts;
    var t := states[|states| - 1];
    if NothingToLose(job, Listed(s.progress)) {
      InvariantWithoutResuming(job, s, states[0]);
      StepsKeepInv(job, states, |states| - 1);
      forall day | day in job.dates ensures day in t.logs && HoldsDay(job, day, LastEntries(t.logs[day])) {
        CompletedHoldsDay(job, t, day);
      }
    } else {
      var m :| m in job.metrics && m.name in Listed(s.progress) && HasOutput(job, m);
      ListedOutputIsLost(job, s, states, m);
    }
  }

  /** One file, converted and then skipped by a second run that was not to resume: its log ends up empty. */
  lemma SecondRunLosesMetric() returns (job: Job, states: seq<State>)
    ensures DistinctNames(job.metrics) && OneBlockADay(job.metrics)
    ensures |states| == 6 && Init(job, states[0])
    ensures forall k :: 0 < k < |states| && k != 4 ==> Step(job, states[k - 1], states[k])
    ensures Completed(states[3]) && Restarts(job, states[3], states[4], false)
    ensures Completed(states[5]) && 0 in job.dates && states[5].logs == map[0 := []]
    ensures !HoldsDay(job, 0, LastEntries(states[5].logs[0]))
  {
    var block := [Sample(1, 0)];
    var m := Metric([0x61], [], Some([block]));
    var name: Str := [0x61];
    job := Job([m], {0});
    var none: map<int, seq<LogEntry>> := map[0 := []];
    var full: map<int, seq<LogEntry>> := map[0 := [EntryFor(m, block)]];
    assert NoEntries(job.dates) == none;
    var s0 := State(none, [], {}, [m], [Idle]);
    var s1 := State(none, [], {}, [], [Writing(m, [block])]);
    var s2 := State(full, [], {}, [], [Writing(m, [])]);
    var s3 := State(full, [name], {}, [], [Idle]);
    var s4 := State(none, [name], {name}, [m], [Idle]);
    var s5 := State(none, [name], {name}, [], [Idle]);
    states := [s0, s1, s2, s3, s4, s5];
    assert TakesFile(s0, s1, 0);
    assert [] + [EntryFor(m, block)] == [EntryFor(m, block)];
    assert Written(none, m, block) == full;
    assert [block][1..] == [];
    assert WritesBlock(s1, s2, 0);
    assert RecordsProgress(s2, s3, 0);
    assert Listed([name]) == {name};
    assert TakesFile(s4, s5, 0);
    assert WorkerMoves(s0, s1, 0) && WorkerMoves(s1, s2, 0) && WorkerMoves(s2, s3, 0) && WorkerMoves(s4, s5, 0);
    assert HasDay(m, 0, block);
    assert LastEntries(s5.logs[0]) == map[];
  }

  // ---------- Runs ----------

  ghost predicate Reaches(job: Job, s: State, t: State) {
    exists states :: Steps(job, states) && states[0] == s && states[|states| - 1] == t
  }

  /** A restart, with so many workers, and then steps of the protocol. */
  ghost predicate ReachesFromRestart(job: Job, before: State, after: State, resume: bool, threads: nat) {
    exists begun :: Restarts(job, before, begun, resume) && |begun.workers| == threads && Reaches(job, begun, after)
  }

  lemma ReachesItself(job: Job, s: State)
    ensures Reaches(job, s, s)
  {
    assert Steps(job, [s]);
  }

  lemma ReachesNext(job: Job, s: State, t: State, u: State, w: nat)
    requires Reaches(job, s, t) && WorkerMoves(t, u, w)
    ensures Reaches(job, s, u)
  {
    var states :| Steps(job, states) && states[0] == s && states[|states| - 1] == t;
    var longer := states + [u];
    forall k | 0 < k < |longer| ensures Step(job, longer[k - 1], longer[k]) {
      if k < |states| {
        assert Step(job, states[k - 1], states[k]);
      }
    }
    assert Steps(job, longer);
  }

  lemma ReachesKeepsInv(job: Job, s: State, t: State)
    requires NamesAgree(job) && Inv(job, s) && Reaches(job, s, t)
    ensures Inv(job, t)
  {
    var states :| Steps(job, states) && states[0] == s && states[|states| - 1] == t;
    StepsKeepInv(job, states, |states| - 1);
  }

  // ---------- Progress ----------

  /** How many steps are still to come. */
  function QueueWork(queue: seq<Metric>): nat {
    if queue == [] then 0
    else QueueWork(queue[1..]) + 2 + if queue[0].blocks.Some? then |queue[0].blocks.value| else 0
  }

  function WorkerWork(w: Worker): nat {
    if w.Idle? then 0 else 1 + |w.pending|
  }

  function WorkersWork(workers: seq<Worker>): nat {
    if workers == [] then 0 else WorkersWork(workers[..|workers| - 1]) + WorkerWork(workers[|workers| - 1])
  }

  lemma {:induction false} WorkAfterTurn(workers: seq<Worker>, w: nat, to: Worker)
    requires w < |workers|
    ensures WorkersWork(workers[w := to]) + WorkerWork(workers[w]) == WorkersWork(workers) + WorkerWork(to)
  {
    var n := |workers| - 1;
    if w < n {
      WorkAfterTurn(workers[..n], w, to);
      assert workers[w := to][..n] == workers[..n][w := to];
    } else {
      assert workers[w := to][..n] == workers[..n];
    }
  }

  /** Every step brings the end nearer. */
  lemma TurnIsWork(s: State, t: State, w: nat)
    requires WorkerMoves(s, t, w)
    ensures QueueWork(t.queue) + WorkersWork(t.workers) < QueueWork(s.queue) + WorkersWork(s.workers)
  {
    WorkAfterTurn(s.workers, w, t.workers[w]);
    if TakesFile(s, t, w) && t.workers[w].Writing? {
      SameLength(t.workers[w].pending, s.queue[0].blocks.value);
    }
  }

  lemma SameLength<T>(a: seq<T>, b: seq<T>)
    requires multiset(a) == multiset(b)
    ensures |a| == |b|
  {
    assert |multiset(a)| == |a| && |multiset(b)| == |b|;
  }

  lemma KeepsWorkers(s: State, t: State, w: nat)
    requires WorkerMoves(s, t, w)
    ensures |t.workers| == |s.workers|
  {
  }
}
