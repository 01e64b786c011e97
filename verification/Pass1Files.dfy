/**
 * Pass 1 on files of bytes: appends at the head, crashes that tear them, and reopening. A run on
 * files is a run of the protocol on logs of whole records as long as reopening is clean, which
 * is exactly when a restart on files is one of the protocol.
 */
module Pass1Files {
  import opened Wrappers
  import opened Bytes
  import opened Chunks
  import opened Days
  import opened LogFormat
  import opened LogRecords
  import opened LogRecovery
  import opened Pass1
  import opened DayLogs

  /** An open log: its bytes and the position of its head. */
  datatype LogFile = LogFile(data: Str, head: nat)

  /** The head is behind these records, the first in the file; anything may follow. */
  ghost predicate IsLog(f: LogFile, rs: seq<Record>) {
    f.head == |LogBytes(rs)| <= |f.data| && f.data[..f.head] == LogBytes(rs)
  }

  function AfterAppend(f: LogFile, r: Record): LogFile {
    LogFile(WriteAt(f.data, f.head, Encode(r)), f.head + |Encode(r)|)
  }

  lemma WriteKeepsStart(data: Str, head: nat, bytes: Str)
    requires head <= |data|
    ensures |WriteAt(data, head, bytes)| >= head + |bytes|
    ensures WriteAt(data, head, bytes)[..head] == data[..head]
    ensures WriteAt(data, head, bytes)[..head + |bytes|] == data[..head] + bytes
  {
    if bytes == [] {
      assert data[..head] + [] == data[..head];
    }
  }

  lemma AppendKeepsLog(f: LogFile, rs: seq<Record>, r: Record)
    requires IsLog(f, rs)
    ensures IsLog(AfterAppend(f, r), rs + [r])
  {
    hide WriteAt, LogBytes, Encode;
    WriteKeepsStart(f.data, f.head, Encode(r));
    LogBytesAppend(rs, r);
  }

  // ---------- Runs on files ----------

  /** The job and how values are marshalled. */
  datatype Setting = Setting(job: Job, encode: TimeSeries -> Str, decode: Decoder)

  datatype FileState = FileState(
    files: map<int, LogFile>,
    progress: LogFile,
    skippable: set<Str>,
    queue: seq<Metric>,
    workers: seq<Worker>)

  /** The record a worker appends next, to the day's log or, with no block left, to the progress log. */
  function NextRecord(m: Metric, pending: seq<seq<Sample>>, encode: TimeSeries -> Str): Record {
    if pending == [] then Record(m.name, []) else RecordOf(EntryFor(m, pending[0]), encode)
  }

  ghost predicate FileTakes(s: FileState, t: FileState, w: nat) {
    && w < |s.workers| == |t.workers| && s.workers[w] == Idle && s.queue != []
    && var m := s.queue[0];
      && t == s.(queue := s.queue[1..], workers := s.workers[w := t.workers[w]])
      && if Skips(m, s.skippable) then t.workers[w] == Idle
         else t.workers[w].Writing? && t.workers[w].m == m && multiset(t.workers[w].pending) == multiset(m.blocks.value)
  }

  ghost predicate FileWrites(x: Setting, s: FileState, t: FileState, w: nat) {
    && w < |s.workers| && s.workers[w].Writing? && s.workers[w].pending != []
    && var m, pending := s.workers[w].m, s.workers[w].pending;
      var day := BlockDay(pending[0]);
      var r := NextRecord(m, pending, x.encode);
      t == s.(files := if day in s.files then s.files[day := AfterAppend(s.files[day], r)] else s.files,
              workers := s.workers[w := Writing(m, pending[1..])])
  }

  ghost predicate FileRecords(x: Setting, s: FileState, t: FileState, w: nat) {
    && w < |s.workers| && s.workers[w].Writing? && s.workers[w].pending == []
    && var m := s.workers[w].m;
      t == s.(progress := AfterAppend(s.progress, NextRecord(m, [], x.encode)), workers := s.workers[w := Idle])
  }

  /** A worker may be in the middle of appending this record to the given day's log (None: to the progress log). */
  ghost predicate MayAppend(x: Setting, s: FileState, day: Option<int>, r: Record) {
    exists w :: 0 <= w < |s.workers| && Appending(x, s.workers[w], day, r)
  }

  ghost predicate Appending(x: Setting, worker: Worker, day: Option<int>, r: Record) {
    && worker.Writing? && r == NextRecord(worker.m, worker.pending, x.encode)
    && day == if worker.pending == [] then None else Some(BlockDay(worker.pending[0]))
  }

  /** The bytes when the program ends: as they were, or with the beginning of a record or of the sentinel written. */
  ghost predicate Ended(x: Setting, s: FileState, day: Option<int>, f: LogFile, data: Str) {
    || data == f.data
    || (exists r, k: nat :: MayAppend(x, s, day, r) && TornBy(f, data, Encode(r), k) && k < |Encode(r)|)
    || (exists k: nat :: TornBy(f, data, Sentinel(), k))
  }

  ghost predicate TornBy(f: LogFile, data: Str, bytes: Str, k: nat) {
    k <= |bytes| && data == WriteAt(f.data, f.head, bytes[..k])
  }

  ghost predicate ReopenedDay(x: Setting, s: FileState, day: int, f: LogFile, g: LogFile) {
    Ended(x, s, Some(day), f, g.data) && ScanFrom(g.data, 0, Unmarshals(x.decode)) == EndsAt(g.head)
  }

  ghost predicate ReopenedProgress(x: Setting, s: FileState, f: LogFile, g: LogFile, skippable: set<Str>) {
    && Ended(x, s, None, f, g.data)
    && IndexOutcome(g.data).Indexed?
    && g.head == IndexOutcome(g.data).head && skippable == IndexOutcome(g.data).records.Keys
  }

  ghost predicate FileRestarts(x: Setting, s: FileState, t: FileState) {
    && t.queue == x.job.metrics && (forall w :: 0 <= w < |t.workers| ==> t.workers[w] == Idle)
    && t.files.Keys == s.files.Keys
    && (forall day :: day in s.files ==> ReopenedDay(x, s, day, s.files[day], t.files[day]))
    && ReopenedProgress(x, s, s.progress, t.progress, t.skippable)
  }

  ghost predicate FileMoves(x: Setting, s: FileState, t: FileState, w: nat) {
    FileTakes(s, t, w) || FileWrites(x, s, t, w) || FileRecords(x, s, t, w)
  }

  ghost predicate FileStep(x: Setting, s: FileState, t: FileState) {
    (exists w :: FileMoves(x, s, t, w)) || FileRestarts(x, s, t)
  }

  /** All logs newly created. */
  ghost predicate FileInit(x: Setting, s: FileState) {
    && s.files.Keys == x.job.dates && (forall day :: day in s.files ==> s.files[day] == LogFile([], 0))
    && s.progress == LogFile([], 0) && s.skippable == {} && s.queue == x.job.metrics
    && forall w :: 0 <= w < |s.workers| ==> s.workers[w] == Idle
  }

  ghost predicate FileRun(x: Setting, states: seq<FileState>) {
    && states != [] && FileInit(x, states[0])
    && forall k :: 0 < k < |states| ==> FileStep(x, states[k - 1], states[k])
  }

  /** Nothing behind the old head is read as a record or makes the reader panic. */
  ghost predicate CleanBehind(f: LogFile, data: Str, readValue: bool, unmarshals: Str -> bool) {
    ParseAt(data, f.head, readValue, unmarshals).Stop?
  }

  ghost predicate ReopensCleanly(x: Setting, s: FileState, t: FileState)
    requires t.files.Keys == s.files.Keys
  {
    && (forall day :: day in s.files ==> CleanBehind(s.files[day], t.files[day].data, true, Unmarshals(x.decode)))
    && CleanBehind(s.progress, t.progress.data, false, AnyValue)
  }

  ghost predicate CleanStep(x: Setting, s: FileState, t: FileState) {
    (exists w :: FileMoves(x, s, t, w)) || (FileRestarts(x, s, t) && ReopensCleanly(x, s, t))
  }

  /** Every restart finds nothing behind the whole records that reads as one. */
  ghost predicate CleanRun(x: Setting, states: seq<FileState>) {
    FileRun(x, states) && forall k :: 0 < k < |states| ==> CleanStep(x, states[k - 1], states[k])
  }

  // ---------- They are runs of the protocol, as long as reopening is clean ----------

  function NameRecords(names: seq<Str>): (rs: seq<Record>)
    ensures |rs| == |names|
  {
    seq(|names|, i requires 0 <= i < |names| => Record(names[i], []))
  }

  /** The files hold exactly the logs. */
  ghost predicate Represents(x: Setting, f: FileState, s: State) {
    && f.files.Keys == s.logs.Keys
    && (forall day :: day in s.logs ==> IsLog(f.files[day], RecordsOf(s.logs[day], x.encode)))
    && IsLog(f.progress, NameRecords(s.progress))
    && f.skippable == s.skippable && f.queue == s.queue && f.workers == s.workers
  }

  /** Names and marshalled blocks can be stored, and values be read back. */
  ghost predicate CanStore(x: Setting) {
    && IsCodec(x.encode, x.decode)
    && (forall m :: m in x.job.metrics ==> Storable(Record(m.name, [])))
    && (forall m, block :: m in x.job.metrics && HasBlock(m, block) ==>
          Storable(RecordOf(EntryFor(m, block), x.encode)))
  }

  lemma RecordsOfAppend(log: seq<LogEntry>, e: LogEntry, encode: TimeSeries -> Str)
    ensures RecordsOf(log + [e], encode) == RecordsOf(log, encode) + [RecordOf(e, encode)]
  {
  }

  lemma NameRecordsAppend(names: seq<Str>, name: Str)
    ensures NameRecords(names + [name]) == NameRecords(names) + [Record(name, [])]
  {
  }

  lemma LoggedIsStorable(x: Setting, s: State, day: int)
    requires CanStore(x) && LogsRight(x.job, s.logs) && day in s.logs
    ensures AllStorable(RecordsOf(s.logs[day], x.encode))
  {
    var log := s.logs[day];
    forall i | 0 <= i < |log| ensures Storable(RecordsOf(log, x.encode)[i]) {
      assert log[i] in log && Right(x.job, day, log[i]);
    }
  }

  lemma InitRepresents(x: Setting, f: FileState) returns (s: State)
    requires FileInit(x, f)
    ensures Init(x.job, s) && Represents(x, f, s)
  {
    s := State(NoEntries(x.job.dates), [], {}, f.queue, f.workers);
    NoRecords();
  }

  lemma MoveRefines(x: Setting, f: FileState, g: FileState, w: nat, s: State) returns (t: State)
    requires Represents(x, f, s) && FileMoves(x, f, g, w)
    ensures WorkerMoves(s, t, w) && Represents(x, g, t)
  {
    hide IsLog, AfterAppend, RecordOf;
    if FileTakes(f, g, w) {
      t := s.(queue := g.queue, workers := g.workers);
      assert TakesFile(s, t, w);
    } else if FileWrites(x, f, g, w) {
      var m, pending := s.workers[w].m, s.workers[w].pending;
      t := s.(logs := Written(s.logs, m, pending[0]), workers := g.workers);
      assert WritesBlock(s, t, w);
      var day := BlockDay(pending[0]);
      if day in s.logs {
        RecordsOfAppend(s.logs[day], EntryFor(m, pending[0]), x.encode);
        AppendKeepsLog(f.files[day], RecordsOf(s.logs[day], x.encode), NextRecord(m, pending, x.encode));
      }
    } else {
      var name := s.workers[w].m.name;
      t := s.(progress := s.progress + [name], workers := g.workers);
      assert RecordsProgress(s, t, w);
      NameRecordsAppend(s.progress, name);
      AppendKeepsLog(f.progress, NameRecords(s.progress), Record(name, []));
    }
  }

  /** However the program ends, the records before the head are still there. */
  lemma EndedKeepsRecords(x: Setting, s: FileState, day: Option<int>, f: LogFile, data: Str, rs: seq<Record>)
    requires IsLog(f, rs) && Ended(x, s, day, f, data)
    ensures |data| >= |LogBytes(rs)| && data == LogBytes(rs) + data[|LogBytes(rs)|..]
  {
    hide WriteAt, LogBytes, Encode, Sentinel;
    if data == f.data {
    } else if r, k: nat :| MayAppend(x, s, day, r) && TornBy(f, data, Encode(r), k) && k < |Encode(r)| {
      WriteKeepsStart(f.data, f.head, Encode(r)[..k]);
    } else {
      var k: nat :| TornBy(f, data, Sentinel(), k);
      WriteKeepsStart(f.data, f.head, Sentinel()[..k]);
    }
    assert data == data[..f.head] + data[f.head..];
  }

  lemma {:induction false} ScanEndsAtStop(data: Str, pos: nat, unmarshals: Str -> bool)
    requires ScanFrom(data, pos, unmarshals).EndsAt?
    ensures ParseAt(data, ScanFrom(data, pos, unmarshals).pos, true, unmarshals).Stop?
    decreases |data| - pos
  {
    var p := ParseAt(data, pos, true, unmarshals);
    if p.Found? {
      FoundGoesForward(data, pos, unmarshals);
      ScanEndsAtStop(data, p.next, unmarshals);
    }
  }

  lemma {:induction false} IndexEndsAtStop(data: Str, pos: nat, records: map<Str, nat>)
    requires SkipEnds(data, pos) && IndexFrom(data, pos, records).Indexed?
    ensures ParseAt(data, IndexFrom(data, pos, records).head, false, AnyValue).Stop?
    decreases StepsToEnd(data, pos)
  {
    hide ParseAt;
    var p := ParseAt(data, pos, false, AnyValue);
    if p.Found? {
      StepsAreExact(data, pos);
      IndexEndsAtStop(data, p.next, records[p.record.key := pos]);
    }
  }

  /** A day's log comes back with its head behind the whole records exactly if reopening is clean. */
  lemma ReopenedDayIsLog(x: Setting, s: FileState, day: int, f: LogFile, g: LogFile, rs: seq<Record>)
    requires IsLog(f, rs) && ReopenedDay(x, s, day, f, g)
    requires AllStorable(rs) && AllLegible(rs, Unmarshals(x.decode))
    ensures IsLog(g, rs) <==> CleanBehind(f, g.data, true, Unmarshals(x.decode))
  {
    hide LogBytes, Ended, ParseAt, AllStorable, AllLegible;
    EndedKeepsRecords(x, s, Some(day), f, g.data, rs);
    ScanLog(rs, g.data[f.head..], Unmarshals(x.decode));
    ScanEndsAtStop(g.data, 0, Unmarshals(x.decode));
  }

  /** So does the progress log, and then the names found are those recorded. */
  lemma ReopenedProgressIsLog(x: Setting, s: FileState, f: LogFile, g: LogFile, skippable: set<Str>, names: seq<Str>)
    requires IsLog(f, NameRecords(names)) && ReopenedProgress(x, s, f, g, skippable)
    requires AllStorable(NameRecords(names))
    ensures IsLog(g, NameRecords(names)) <==> CleanBehind(f, g.data, false, AnyValue)
    ensures IsLog(g, NameRecords(names)) ==> skippable == Listed(names)
  {
    hide LogBytes, Ended, ParseAt, IndexOf, EndsIn, AllStorable;
    var rs := NameRecords(names);
    EndedKeepsRecords(x, s, None, f, g.data, rs);
    IndexEndsAtStop(g.data, 0, map[]);
    if CleanBehind(f, g.data, false, AnyValue) {
      EndsBefore(g.data, f.head);
      IndexLog(rs, g.data[f.head..]);
      IndexedNames(names);
    }
  }

  lemma {:induction false} IndexedNames(names: seq<Str>)
    ensures IndexOf(NameRecords(names)).Keys == Listed(names)
  {
    if names != [] {
      var n := |names| - 1;
      IndexedNames(names[..n]);
      assert NameRecords(names)[..n] == NameRecords(names[..n]);
      assert names == names[..n] + [names[n]];
    }
  }

  /** Where the protocol restarts, the files do so exactly if they are reopened cleanly. */
  lemma RestartRefinesIff(x: Setting, f: FileState, g: FileState, s: State) returns (t: State)
    requires CanStore(x) && Represents(x, f, s) && FileRestarts(x, f, g)
    requires LogsRight(x.job, s.logs) && forall name :: name in s.progress ==> Storable(Record(name, []))
    ensures Restarts(x.job, s, t, true) && t.queue == g.queue && t.workers == g.workers
    ensures Represents(x, g, t) <==> ReopensCleanly(x, f, g)
  {
    hide IsLog, ReopenedDay, ReopenedProgress, LogsRight, CanStore, Storable, AllLegible, CleanBehind;
    t := State(s.logs, s.progress, Listed(s.progress), g.queue, g.workers);
    ReopenedProgressIsLog(x, f, f.progress, g.progress, g.skippable, s.progress);
    forall day | day in s.logs
      ensures IsLog(g.files[day], RecordsOf(s.logs[day], x.encode)) <==>
        CleanBehind(f.files[day], g.files[day].data, true, Unmarshals(x.decode))
    {
      LoggedIsStorable(x, s, day);
      StoredIsLegible(x, s.logs[day]);
      ReopenedDayIsLog(x, f, day, f.files[day], g.files[day], RecordsOf(s.logs[day], x.encode));
    }
  }

  lemma StoredIsLegible(x: Setting, log: seq<LogEntry>)
    requires CanStore(x)
    ensures AllLegible(RecordsOf(log, x.encode), Unmarshals(x.decode))
  {
    EncodedIsLegible(log, x.encode, x.decode);
  }

  /** What is recorded as done comes from the job. */
  ghost predicate NamesKnown(job: Job, s: State) {
    && (forall name :: name in s.progress ==> exists m :: m in job.metrics && m.name == name)
    && (forall w :: 0 <= w < |s.workers| && s.workers[w].Writing? ==> s.workers[w].m in job.metrics)
    && (forall m :: m in s.queue ==> m in job.metrics)
  }

  lemma StepKeepsNamesKnown(job: Job, s: State, t: State)
    requires NamesKnown(job, s) && Step(job, s, t)
    ensures NamesKnown(job, t)
  {
    if !Restarts(job, s, t, true) {
      var w: nat :| WorkerMoves(s, t, w);
      if TakesFile(s, t, w) {
        assert s.queue[0] in s.queue;
        forall v | 0 <= v < |t.workers| && t.workers[v].Writing? ensures t.workers[v].m in job.metrics {
          assert v != w ==> t.workers[v] == s.workers[v];
        }
      } else {
        forall v | 0 <= v < |t.workers| && t.workers[v].Writing? ensures t.workers[v].m in job.metrics {
          assert s.workers[v].Writing? && s.workers[v].m == t.workers[v].m;
        }
      }
    }
  }

  lemma NamesAreStorable(x: Setting, s: State)
    requires CanStore(x) && NamesKnown(x.job, s)
    ensures forall name :: name in s.progress ==> Storable(Record(name, []))
  {
    forall name | name in s.progress ensures Storable(Record(name, [])) {
      var m :| m in x.job.metrics && m.name == name;
    }
  }

  lemma StepRefines(x: Setting, f: FileState, g: FileState, s: State) returns (t: State)
    requires CanStore(x) && Represents(x, f, s) && CleanStep(x, f, g)
    requires Inv(x.job, s) && NamesKnown(x.job, s)
    ensures Step(x.job, s, t) && Represents(x, g, t)
  {
    hide CanStore, Represents, FileMoves, WorkerMoves, Restarts, NamesKnown, LogsRight, ReopensCleanly;
    if w :| FileMoves(x, f, g, w) {
      t := MoveRefines(x, f, g, w, s);
    } else {
      NamesAreStorable(x, s);
      t := RestartRefinesIff(x, f, g, s);
    }
  }

  /** State by state, a run on files with clean restarts is a run of the protocol. */
  lemma {:induction false} FileRunRefines(x: Setting, fs: seq<FileState>) returns (states: seq<State>)
    requires CanStore(x) && NamesAgree(x.job) && CleanRun(x, fs)
    ensures Run(x.job, states) && |states| == |fs|
    ensures Represents(x, fs[|fs| - 1], states[|fs| - 1]) && NamesKnown(x.job, states[|fs| - 1])
  {
    hide CanStore, NamesAgree, FileInit, FileStep, CleanStep, Init, Step, Represents, NamesKnown, Inv;
    var n := |fs| - 1;
    if n == 0 {
      var s := InitRepresents(x, fs[0]);
      states := [s];
      InitIsKnown(x.job, s);
    } else {
      var before := FileRunRefines(x, fs[..n]);
      RunKeepsInv(x.job, before, n - 1);
      assert CleanStep(x, fs[n - 1], fs[n]);
      var t := StepRefines(x, fs[n - 1], fs[n], before[n - 1]);
      StepKeepsNamesKnown(x.job, before[n - 1], t);
      states := before + [t];
      forall k | 0 < k < |states| ensures Step(x.job, states[k - 1], states[k]) {
        assert k < n ==> Step(x.job, before[k - 1], before[k]);
      }
    }
  }

  lemma InitIsKnown(job: Job, s: State)
    requires Init(job, s)
    ensures NamesKnown(job, s)
  {
  }

  // ---------- When reopening is clean ----------

  /**
   * After a first crash in an append, on a new or a cleanly closed log, reopening is clean
   * unless a torn value passes for a whole one.
   */
  lemma FirstCrashIsClean(rs: seq<Record>, closed: bool, r: Record, k: nat, unmarshals: Str -> bool)
    requires AllStorable(rs) && AllLegible(rs, unmarshals) && Storable(r) && Legible(r, unmarshals) && k < |Encode(r)|
    ensures var f := LogFile(OldFile(rs, closed), |LogBytes(rs)|);
      CleanBehind(f, TornAppend(rs, closed, r, k), true, unmarshals) <==>
      !(k > HeaderSize(r) && PaddingUnmarshals(r, k, unmarshals))
  {
    hide ParseAt, LogBytes, ScanFrom, WriteAt, Encode, Sentinel;
    var data := TornAppend(rs, closed, r, k);
    TornFile(rs, closed, Encode(r)[..k]);
    var behind := data[|LogBytes(rs)|..];
    assert data == LogBytes(rs) + behind;
    RecoveryAfterTornAppend(rs, closed, r, k, unmarshals);
    RecoveryOverStaleBytes(rs, behind, unmarshals);
    ReadingNeverSeeks(behind, unmarshals);
    ParseShift(LogBytes(rs), behind, true, unmarshals);
  }

  /** So it is after a crash at any byte of a close. */
  lemma TornCloseIsClean(rs: seq<Record>, closed: bool, k: nat, unmarshals: Str -> bool)
    requires AllStorable(rs) && AllLegible(rs, unmarshals) && k <= 16
    ensures CleanBehind(LogFile(OldFile(rs, closed), |LogBytes(rs)|), TornClose(rs, closed, k), true, unmarshals)
  {
    hide ParseAt, LogBytes, ScanFrom, WriteAt, Sentinel;
    var data := TornClose(rs, closed, k);
    TornFile(rs, closed, Sentinel()[..k]);
    var behind := data[|LogBytes(rs)|..];
    assert data == LogBytes(rs) + behind;
    RecoveryAfterTornClose(rs, closed, k, unmarshals);
    RecoveryOverStaleBytes(rs, behind, unmarshals);
    ReadingNeverSeeks(behind, unmarshals);
    ParseShift(LogBytes(rs), behind, true, unmarshals);
  }

  /** And so it is for the progress log, opened by its index, after a crash at any byte of an append. */
  lemma TornProgressIsClean(rs: seq<Record>, closed: bool, name: Str, k: nat)
    requires AllStorable(rs) && Storable(Record(name, [])) && k < |Encode(Record(name, []))|
    ensures CleanBehind(LogFile(OldFile(rs, closed), |LogBytes(rs)|),
      TornAppend(rs, closed, Record(name, []), k), false, AnyValue)
  {
    hide ParseAt, LogBytes, WriteAt, Sentinel;
    var r := Record(name, []);
    var data := TornAppend(rs, closed, r, k);
    TornFile(rs, closed, Encode(r)[..k]);
    var behind := data[|LogBytes(rs)|..];
    assert data == LogBytes(rs) + behind;
    if closed && k < 16 {
      TornOverSentinel(r, k, false, AnyValue);
      assert behind == Encode(r)[..k] + Sentinel()[k..];
    } else {
      TornHeader(r, k, false, AnyValue);
      assert behind == Encode(r)[..k] == Header(r)[..k];
    }
    ParseShift(LogBytes(rs), behind, false, AnyValue);
  }

  /** Or of its close. */
  lemma TornProgressCloseIsClean(rs: seq<Record>, closed: bool, k: nat)
    requires AllStorable(rs) && k <= 16
    ensures CleanBehind(LogFile(OldFile(rs, closed), |LogBytes(rs)|), TornClose(rs, closed, k), false, AnyValue)
  {
    hide ParseAt, LogBytes, WriteAt, Sentinel;
    var data := TornClose(rs, closed, k);
    TornFile(rs, closed, Sentinel()[..k]);
    var behind := data[|LogBytes(rs)|..];
    assert data == LogBytes(rs) + behind;
    if closed || k == 16 {
      assert behind == Sentinel() + [];
      WholeSentinel([], false, AnyValue);
    } else {
      assert behind == Sentinel()[..k];
      TornSentinel(k, false, AnyValue);
    }
    ParseShift(LogBytes(rs), behind, false, AnyValue);
  }

  /** Opening the progress log after a crash at any byte finds exactly its whole records: their values are empty. */
  lemma ProgressLogReopens(rs: seq<Record>, closed: bool, name: Str, k: nat)
    requires AllStorable(rs) && Storable(Record(name, [])) && k < |Encode(Record(name, []))|
    ensures var data := TornAppend(rs, closed, Record(name, []), k);
      IndexOutcome(data) == Indexed(IndexOf(rs), |LogBytes(rs)|)
  {
    IndexAfterTornAppend(rs, closed, Record(name, []), k);
  }

  // ---------- What is left for pass 2 ----------

  /**
   * A run on files that comes to its end and closes its logs: each is what pass 2 expects, the
   * records of a completed run of the protocol, the sentinel, and whatever was behind.
   */
  lemma ClosedDayLog(x: Setting, fs: seq<FileState>, day: int) returns (run: seq<State>, stale: Str)
    requires CanStore(x) && NamesAgree(x.job) && CleanRun(x, fs) && day in x.job.dates
    requires var f := fs[|fs| - 1]; f.queue == [] && forall w :: 0 <= w < |f.workers| ==> f.workers[w] == Idle
    ensures Run(x.job, run) && Completed(run[|run| - 1]) && day in run[|run| - 1].logs && day in fs[|fs| - 1].files
    ensures var rs := RecordsOf(run[|run| - 1].logs[day], x.encode); var f := fs[|fs| - 1].files[day];
      AllStorable(rs) && WriteAt(f.data, f.head, Sentinel()) == LogBytes(rs) + Sentinel() + stale
  {
    hide CanStore, NamesAgree, FileRun, CleanRun, Step, Init, LogBytes, Sentinel, WriteAt, AllStorable, NamesKnown;
    run := FileRunRefines(x, fs);
    var s := run[|run| - 1];
    RunKeepsInv(x.job, run, |run| - 1);
    LoggedIsStorable(x, s, day);
    var f := fs[|fs| - 1].files[day];
    var tail := f.data[f.head..];
    assert f.data == f.data[..f.head] + tail;
    stale := Drop(tail, 16);
    WriteOver(f.data[..f.head], tail, Sentinel());
  }
}
