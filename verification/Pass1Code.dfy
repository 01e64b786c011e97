/** The code of pass 1's workers, whose every move is a step of the protocol (whisperconverter/pass1.go). */
module Pass1Code {
  import opened Bytes
  import opened Wrappers
  import opened Chunks
  import opened Whisper
  import opened Days
  import opened Pass1
  import opened Convert

  /** rand.Shuffle. */
  method Shuffle<T>(s: seq<T>) returns (r: seq<T>)
    ensures multiset(r) == multiset(s)
  {
    r := s;
    var i := |s| - 1;
    while i > 0
      invariant |r| == |s| && i < |s| && multiset(r) == multiset(s)
    {
      var j :| 0 <= j <= i;
      r := r[i := r[j]][j := r[i]];
      i := i - 1;
    }
  }

  /** What each of the files is converted to. */
  ghost predicate ConvertTo(files: seq<WhisperFile>, metrics: seq<Metric>) {
    && |files| == |metrics|
    && forall i :: 0 <= i < |files| ==> ConvertsTo(files[i], metrics[i])
  }

  ghost predicate ConvertsTo(f: WhisperFile, m: Metric) {
    exists points :: WellConverted(f, m, points)
  }

  /** The conversion the protocol is told of is the one the worker makes. */
  lemma ConvertsToOne(f: WhisperFile, m: Metric, n: Metric, points: seq<Point>)
    requires ConvertsTo(f, m) && IsConverted(f, n, points)
    ensures n == m
  {
    var others :| WellConverted(f, m, others);
    ConversionIsUnique(f, m, others, n, points);
  }

  lemma ConvertsToName(f: WhisperFile, m: Metric)
    requires ConvertsTo(f, m)
    ensures m.name == f.name
  {
  }

  class IntermediateFiles {
    var logs: map<int, seq<LogEntry>>
    var progress: seq<Str>
    var queue: seq<WhisperFile>      // what the channel is still to deliver
    ghost var coming: seq<Metric>    // what these files convert to
    var workers: seq<Worker>

    ghost predicate Valid()
      reads this
    {
      ConvertTo(queue, coming)
    }

    ghost function AsState(skippable: set<Str>): State
      reads this
    {
      State(logs, progress, skippable, coming, workers)
    }

    method AppendBlock(m: Metric, block: seq<Sample>)
      modifies this`logs
      ensures logs == Written(old(logs), m, block)
    {
      var day := BlockDay(block);
      if day in logs {
        logs := logs[day := logs[day] + [LogEntry(m.name, m.labels, block)]];
      }
    }

    /** The next file: its shuffled blocks, unless it is skipped or cannot be converted. */
    method TakeFile(skippable: set<Str>, w: nat) returns (r: Option<Metric>, blocks: seq<seq<Sample>>)
      requires Valid() && queue != [] && w < |workers| && workers[w] == Idle
      modifies this`queue, this`coming, this`workers
      ensures Valid() && |queue| == |old(queue)| - 1
      ensures TakesFile(old(AsState(skippable)), AsState(skippable), w)
      ensures workers == if r.Some? then old(workers)[w := Writing(r.value, blocks)] else old(workers)
      ensures r.Some? ==> r.value.blocks.Some?
    {
      hide IsConverted, ConvertsTo;
      var f := queue[0];
      ghost var expected := coming[0];
      assert ConvertsTo(f, expected);
      ConvertsToName(f, expected);
      queue, coming := queue[1..], coming[1..];
      r, blocks := None, [];
      if f.name in skippable {
        return;
      }
      var m, points := ConvertFile(f);
      ConvertsToOne(f, expected, m, points);
      if m.blocks.None? {
        return;
      }
      blocks := Shuffle(m.blocks.value);
      r, workers := Some(m), workers[w := Writing(m, blocks)];
    }

    /** The loop of worker `w`, undisturbed: made of the protocol's steps, down to the last file. */
    method CreateIntermediateFromChan(ghost job: Job, skippable: set<Str>, w: nat)
      requires Valid() && w < |workers| && workers[w] == Idle
      modifies this
      ensures Valid() && Reaches(job, old(AsState(skippable)), AsState(skippable))
      ensures queue == [] && workers == old(workers)
    {
      hide Reaches, Written, Listed, TakesFile, ConvertTo;
      ghost var start := AsState(skippable);
      ReachesItself(job, start);
      while queue != []
        invariant Valid() && Reaches(job, start, AsState(skippable)) && workers == old(workers)
        decreases |queue|
      {
        ghost var s := AsState(skippable);
        var taken, blocks := TakeFile(skippable, w);
        ReachesNext(job, start, s, AsState(skippable), w);
        if taken.None? {
          continue;
        }
        var m := taken.value;
        ghost var files, metrics := queue, coming;
        assert blocks[0..] == blocks;
        for b := 0 to |blocks|
          invariant Reaches(job, start, AsState(skippable)) && queue == files && coming == metrics
          invariant workers == old(workers)[w := Writing(m, blocks[b..])]
        {
          s := AsState(skippable);
          AppendBlock(m, blocks[b]);
          assert blocks[b..][1..] == blocks[b + 1..];
          workers := workers[w := Writing(m, blocks[b + 1..])];
          assert WritesBlock(s, AsState(skippable), w);
          ReachesNext(job, start, s, AsState(skippable), w);
        }
        s := AsState(skippable);
        progress := progress + [m.name];
        workers := workers[w := Idle];
        assert RecordsProgress(s, AsState(skippable), w);
        ReachesNext(job, start, s, AsState(skippable), w);
      }
    }

    /** What worker `w` does between giving way to the others twice. */
    method TakeTurn(skippable: set<Str>, w: nat)
      requires Valid() && w < |workers| && (workers[w].Idle? ==> queue != [])
      modifies this
      ensures Valid() && WorkerMoves(old(AsState(skippable)), AsState(skippable), w)
    {
      hide TakesFile, ConvertTo;
      match workers[w] {
        case Idle =>
          var _, _ := TakeFile(skippable, w);
        case Writing(m, pending) =>
          if |pending| > 0 {
            AppendBlock(m, pending[0]);
            workers := workers[w := Writing(m, pending[1..])];
          } else {
            progress := progress + [m.name];
            workers := workers[w := Idle];
          }
      }
    }

    /**
     * CommandPass1 after whatever earlier runs have left behind: any number of workers, taking
     * turns in any order, until no file is left and all are idle.
     */
    method CommandPass1(files: seq<WhisperFile>, ghost metrics: seq<Metric>, dates: set<int>,
                        resumeIntermediate: bool, threads: nat, ghost before: State)
      returns (ghost after: State)
      requires ConvertTo(files, metrics)
      requires before.logs == logs && before.progress == progress && threads > 0
      modifies this
      ensures after.logs == logs && after.progress == progress && Completed(after)
      ensures ReachesFromRestart(Job(metrics, dates), before, after, resumeIntermediate, threads)
    {
      hide Reaches, ConvertTo, WorkerMoves;
      ghost var job := Job(metrics, dates);
      if !resumeIntermediate {
        logs := map d | d in dates :: [];
      }
      var skippable := set n | n in progress;
      queue, coming, workers := files, metrics, seq(threads, _ => Idle);
      ghost var begun := AsState(skippable);
      assert Restarts(job, before, begun, resumeIntermediate);
      ReachesItself(job, begun);
      while exists w :: 0 <= w < |workers| && (workers[w].Writing? || queue != [])
        invariant Valid() && Reaches(job, begun, AsState(skippable)) && |workers| == threads
        decreases QueueWork(coming) + WorkersWork(workers)
      {
        var w :| 0 <= w < |workers| && (workers[w].Writing? || queue != []);
        ghost var s := AsState(skippable);
        TakeTurn(skippable, w);
        ReachesNext(job, begun, s, AsState(skippable), w);
        TurnIsWork(s, AsState(skippable), w);
        KeepsWorkers(s, AsState(skippable), w);
      }
      after := AsState(skippable);
      assert !(workers[0].Writing? || queue != []);
      NothingComing(queue, coming);
    }
  }

  lemma NothingComing(files: seq<WhisperFile>, metrics: seq<Metric>)
    requires ConvertTo(files, metrics) && files == []
    ensures metrics == []
  {
  }
}
