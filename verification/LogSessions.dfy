/** Sessions of opening, appending and closing, one after the other, and reading the result. */
module LogSessions {
  import opened Wrappers
  import opened Bytes
  import opened LogFormat
  import opened LogRecords
  import opened LogRecovery
  import opened UsTables

  function WriteAll(data: Str, head: nat, rs: seq<Record>): Str {
    if rs == [] then data
    else
      var n := |rs| - 1;
      WriteAt(WriteAll(data, head, rs[..n]), head + |LogBytes(rs[..n])|, Encode(rs[n]))
  }

  /** The file after one session; None if opening it panics. */
  function SessionFile(file: Option<Str>, overwrite: bool, rs: seq<Record>, unmarshals: Str -> bool): Option<Str> {
    var data := if overwrite || file.None? then [] else file.value;
    match ScanFrom(data, 0, unmarshals)
    case ScanPanics => None
    case EndsAt(head) => Some(WriteAt(WriteAll(data, head, rs), head + |LogBytes(rs)|, Sentinel()))
  }

  /** NewUSTableForAppend, an Append for each record, and Close. */
  method AppendSession(file: Option<Str>, overwrite: bool, rs: seq<Record>, unmarshals: Str -> bool)
    returns (r: Option<Str>)
    ensures r == SessionFile(file, overwrite, rs, unmarshals)
  {
    hide ScanFrom, WriteAt, LogBytes, Encode, Sentinel;
    NothingToScan(unmarshals);
    NoRecords();
    var created := overwrite || file.None?;
    var t := new UsTable.ForAppend(file, overwrite, unmarshals);
    if !created {
      var panics := t.SeekLastValid();
      if panics {
        return None;
      }
    }
    ghost var data, head := t.data, t.head;
    for k := 0 to |rs|
      invariant t.mode == APPEND
      invariant t.data == WriteAll(data, head, rs[..k]) && t.head == head + |LogBytes(rs[..k])|
    {
      assert rs[..k + 1][..k] == rs[..k] && rs[..k + 1] == rs[..k] + [rs[k]];
      LogBytesAppend(rs[..k], rs[k]);
      var _ := t.Append(rs[k].key, Some(rs[k].value));
    }
    assert rs[..|rs|] == rs;
    t.Close();
    r := Some(t.data);
  }

  lemma NothingToScan(unmarshals: Str -> bool)
    ensures ScanFrom([], 0, unmarshals) == EndsAt(0)
  {
  }

  /** Next until it fails. */
  method ReadAll(file: Str, unmarshals: Str -> bool) returns (rs: seq<Record>, end: Parsed, at: nat)
    ensures (rs, end) == (ReadFrom(file, 0, unmarshals).0, ReadFrom(file, 0, unmarshals).1)
    ensures end.Stop? ==> at == ReadFrom(file, 0, unmarshals).2
  {
    hide ParseAt;
    var t := new UsTable.ForRead(file, unmarshals);
    rs := [];
    ghost var all := ReadFrom(file, 0, unmarshals);
    assert [] + all.0 == all.0;
    while true
      invariant t.mode == READ && t.data == file && t.unmarshals == unmarshals && t.head <= |file|
      invariant var (more, e, a) := ReadFrom(file, t.head, unmarshals); all == (rs + more, e, a)
      decreases |file| - t.head
    {
      ghost var start := t.head;
      FoundIsForward(file, start, unmarshals);
      end := t.Next();
      if !end.Found? {
        assert rs + [] == rs;
        at := t.head;
        return;
      }
      ghost var more := ReadFrom(file, t.head, unmarshals).0;
      assert rs + ([end.record] + more) == (rs + [end.record]) + more;
      rs := rs + [end.record];
    }
  }

  lemma FoundIsForward(data: Str, pos: nat, unmarshals: Str -> bool)
    ensures ParseAt(data, pos, true, unmarshals).Found? ==> pos < ParseAt(data, pos, true, unmarshals).next <= |data|
  {
    if ParseAt(data, pos, true, unmarshals).Found? {
      FoundGoesForward(data, pos, unmarshals);
    }
  }

  lemma DropNothing(s: Str)
    ensures Drop(s, 0) == s
  {
  }

  /** Appending goes on after the records there are, over whatever followed them. */
  lemma {:induction false} AppendedRecords(done: seq<Record>, tail: Str, rs: seq<Record>)
    ensures WriteAll(LogBytes(done) + tail, |LogBytes(done)|, rs) == LogBytes(done + rs) + Drop(tail, |LogBytes(rs)|)
    ensures |LogBytes(done + rs)| == |LogBytes(done)| + |LogBytes(rs)|
  {
    hide Encode, WriteAt, LogBytes, Drop;
    NoRecords();
    if rs == [] {
      assert done + rs == done;
      assert Drop(tail, 0) == tail by { DropNothing(tail); }
    } else {
      var n := |rs| - 1;
      AppendedRecords(done, tail, rs[..n]);
      assert done + rs == (done + rs[..n]) + [rs[n]] && rs == rs[..n] + [rs[n]];
      LogBytesAppend(rs[..n], rs[n]);
      LogBytesAppend(done + rs[..n], rs[n]);
      WriteOver(LogBytes(done + rs[..n]), Drop(tail, |LogBytes(rs[..n])|), Encode(rs[n]));
      DropTwice(tail, |LogBytes(rs[..n])|, |Encode(rs[n])|);
    }
  }

  /** A session on a log whose readable records end where its whole records do adds to exactly those. */
  lemma SessionAdds(rs: seq<Record>, tail: Str, more: seq<Record>, unmarshals: Str -> bool)
    requires ScanFrom(LogBytes(rs) + tail, 0, unmarshals) == EndsAt(|LogBytes(rs)|)
    ensures SessionFile(Some(LogBytes(rs) + tail), false, more, unmarshals) ==
      Some(LogBytes(rs + more) + Sentinel() + Drop(tail, |LogBytes(more)| + 16))
  {
    hide ScanFrom, LogBytes, Encode, Sentinel, WriteAt;
    AppendedRecords(rs, tail, more);
    WriteOver(LogBytes(rs + more), Drop(tail, |LogBytes(more)|), Sentinel());
    DropTwice(tail, |LogBytes(more)|, 16);
  }

  /** The file after all sessions, the first of them creating it. */
  function Sessions(ss: seq<seq<Record>>, unmarshals: Str -> bool): Option<Str>
    requires ss != []
  {
    if |ss| == 1 then SessionFile(None, false, ss[0], unmarshals)
    else
      match Sessions(ss[..|ss| - 1], unmarshals)
      case None => None
      case Some(file) => SessionFile(Some(file), false, ss[|ss| - 1], unmarshals)
  }

  function Flatten(ss: seq<seq<Record>>): seq<Record> {
    if ss == [] then [] else Flatten(ss[..|ss| - 1]) + ss[|ss| - 1]
  }

  /**
   * After any number of sessions the file is exactly all records in order and one sentinel:
   * each session's first append, or its close, covers the sentinel of the session before.
   */
  lemma {:induction false} SessionsRoundTrip(ss: seq<seq<Record>>, unmarshals: Str -> bool)
    requires ss != []
    requires AllStorable(Flatten(ss)) && AllLegible(Flatten(ss), unmarshals)
    ensures Sessions(ss, unmarshals) == Some(LogBytes(Flatten(ss)) + Sentinel())
  {
    hide ScanFrom, LogBytes, Encode, Sentinel, WriteAt, SessionFile;
    if |ss| == 1 {
      FirstSession(ss[0], unmarshals);
      assert Flatten(ss[..0]) + ss[0] == ss[0];
    } else {
      var n := |ss| - 1;
      var rs := Flatten(ss[..n]);
      forall i | 0 <= i < |rs| ensures Storable(rs[i]) && Legible(rs[i], unmarshals) {
        assert rs[i] == Flatten(ss)[i];
      }
      SessionsRoundTrip(ss[..n], unmarshals);
      ClosedLogScan(rs, [], unmarshals);
      assert LogBytes(rs) + Sentinel() + [] == LogBytes(rs) + Sentinel();
      SessionAdds(rs, Sentinel(), ss[n], unmarshals);
      assert LogBytes(Flatten(ss)) + Sentinel() + [] == LogBytes(Flatten(ss)) + Sentinel();
    }
  }

  lemma FirstSession(rs: seq<Record>, unmarshals: Str -> bool)
    ensures SessionFile(None, false, rs, unmarshals) == Some(LogBytes(rs) + Sentinel())
  {
    hide ScanFrom, LogBytes, Encode, Sentinel, WriteAt;
    NothingToScan(unmarshals);
    NoRecords();
    assert [] + rs == rs;
    assert LogBytes([]) + [] == [];
    SessionAdds([], [], rs, unmarshals);
    assert SessionFile(Some([]), false, rs, unmarshals) == SessionFile(None, false, rs, unmarshals);
    assert LogBytes(rs) + Sentinel() + [] == LogBytes(rs) + Sentinel();
  }

  /**
   * A crash in an append and one session after it: reading returns the whole records from
   * before the crash and those of the session, provided no torn value passed for one. Stale
   * bytes behind the new sentinel do no harm.
   */
  lemma SessionAfterCrash(rs: seq<Record>, closed: bool, r: Record, k: nat, more: seq<Record>, unmarshals: Str -> bool)
    requires AllStorable(rs + more) && AllLegible(rs + more, unmarshals)
    requires Storable(r) && Legible(r, unmarshals) && k < |Encode(r)|
    requires k > HeaderSize(r) ==> !PaddingUnmarshals(r, k, unmarshals)
    ensures var file := SessionFile(Some(TornAppend(rs, closed, r, k)), false, more, unmarshals);
      file.Some? && ReadFrom(file.value, 0, unmarshals) == (rs + more, Stop(AtSentinel), |LogBytes(rs + more)|)
  {
    hide ScanFrom, LogBytes, Encode, Sentinel, WriteAt, SessionFile, ReadFrom;
    forall i | 0 <= i < |rs| ensures Storable(rs[i]) && Legible(rs[i], unmarshals) {
      assert rs[i] == (rs + more)[i];
    }
    RecoveryAfterTornAppend(rs, closed, r, k, unmarshals);
    TornFile(rs, closed, Encode(r)[..k]);
    var tail := if closed && k < 16 then Encode(r)[..k] + Sentinel()[k..] else Encode(r)[..k];
    SessionAdds(rs, tail, more, unmarshals);
    ClosedLogReadsBack(rs + more, Drop(tail, |LogBytes(more)| + 16), unmarshals);
  }

  /** A torn value that passed for one, and the session appended behind it. */
  function SessionAfterTornValue(rs: seq<Record>, r: Record, k: nat, more: seq<Record>): Str
    requires k <= |Encode(r)|
  {
    LogBytes(rs) + Encode(r)[..k] + LogBytes(more) + Sentinel()
  }

  /**
   * If the torn value did pass for one, the next session goes on behind it, inside the length
   * its record declares. Reading then takes the rest of the value from what that session
   * wrote, and the index skips as much of it: records that start there are lost.
   */
  lemma SessionAfterAcceptedTear(rs: seq<Record>, closed: bool, r: Record, k: nat, more: seq<Record>,
                                 unmarshals: Str -> bool)
    requires AllStorable(rs) && AllLegible(rs, unmarshals) && Storable(r) && Legible(r, unmarshals)
    requires HeaderSize(r) < k < |Encode(r)| && PaddingUnmarshals(r, k, unmarshals)
    ensures var file := SessionAfterTornValue(rs, r, k, more);
      var value := ReadPadded(r.value[..k - HeaderSize(r)] + LogBytes(more) + Sentinel(), 0, |r.value|);
      && SessionFile(Some(TornAppend(rs, closed, r, k)), false, more, unmarshals) == Some(file)
      && ParseAt(file, |LogBytes(rs)|, true, unmarshals) ==
           (if unmarshals(value) then Found(Record(r.key, value), Min(|LogBytes(rs + [r])|, |file|))
            else Stop(BadValue))
      && ParseAt(file, |LogBytes(rs)|, false, unmarshals) == Found(Record(r.key, []), |LogBytes(rs + [r])|)
      && ReadFrom(file, 0, unmarshals) ==
           var (others, end, at) := ReadFrom(file, |LogBytes(rs)|, unmarshals); (rs + others, end, at)
  {
    hide ScanFrom, LogBytes, Encode, Header, Sentinel, WriteAt, ReadFrom, ParseAt, ReadPadded;
    var torn := r.value[..k - HeaderSize(r)];
    var tail := torn + LogBytes(more) + Sentinel();
    var file := SessionAfterTornValue(rs, r, k, more);
    TornAsHeader(r, k);
    assert file == LogBytes(rs) + (Header(r) + tail);
    RecoveryAfterTornAppend(rs, closed, r, k, unmarshals);
    LogBytesAppend(rs, r);
    AppendBehind(rs, closed, r, k, more);
    HeaderDecides(r, tail, unmarshals);
    ParseShift(LogBytes(rs), Header(r) + tail, true, unmarshals);
    ParseShift(LogBytes(rs), Header(r) + tail, false, unmarshals);
    assert LogBytes([]) == [] by { NoRecords(); }
    assert [] + rs == rs;
    ReadRecords([], rs, Header(r) + tail, unmarshals);
  }

  lemma TornAsHeader(r: Record, k: nat)
    requires HeaderSize(r) <= k <= |Encode(r)|
    ensures Encode(r)[..k] == Header(r) + r.value[..k - HeaderSize(r)]
  {
  }

  /** Appending at the end of the torn file. */
  lemma AppendBehind(rs: seq<Record>, closed: bool, r: Record, k: nat, more: seq<Record>)
    requires HeaderSize(r) < k <= |Encode(r)|
    ensures var data := TornAppend(rs, closed, r, k);
      WriteAt(WriteAll(data, |data|, more), |data| + |LogBytes(more)|, Sentinel()) ==
        SessionAfterTornValue(rs, r, k, more)
  {
    hide LogBytes, Encode, Sentinel, WriteAt, WriteAll;
    TornFile(rs, closed, Encode(r)[..k]);
    var data := TornAppend(rs, closed, r, k);
    AppendedBehind(data, more);
    WriteBehind(data + LogBytes(more), Sentinel());
  }

  lemma {:induction false} AppendedBehind(data: Str, rs: seq<Record>)
    ensures WriteAll(data, |data|, rs) == data + LogBytes(rs)
  {
    hide Encode, WriteAt, LogBytes;
    NoRecords();
    if rs == [] {
      assert data + [] == data;
    } else {
      var n := |rs| - 1;
      assert rs == rs[..n] + [rs[n]];
      LogBytesAppend(rs[..n], rs[n]);
      AppendedBehind(data, rs[..n]);
      WriteBehind(data + LogBytes(rs[..n]), Encode(rs[n]));
      assert data + LogBytes(rs) == data + LogBytes(rs[..n]) + Encode(rs[n]);
    }
  }

  lemma WriteBehind(data: Str, bytes: Str)
    ensures WriteAt(data, |data|, bytes) == data + bytes
  {
    assert data[..|data|] == data && data + bytes + [] == data + bytes;
    assert data + [] == data;
  }

  /** NewUSTableForAppendWithIndex on an existing closed log. */
  method OpenWithIndex(file: Str, unmarshals: Str -> bool, ghost rs: seq<Record>)
    returns (t: UsTable, index: map<Str, nat>)
    requires AllStorable(rs) && file == LogBytes(rs) + Sentinel()
    ensures t.mode == APPEND && t.data == file && t.head == |LogBytes(rs)|
    ensures index == IndexOf(rs)
  {
    hide ParseAt, LogBytes, Sentinel, IndexFrom, SkipEnds;
    ClosedLogIndex(rs, []);
    assert LogBytes(rs) + Sentinel() + [] == file;
    t := new UsTable.ForAppend(Some(file), false, unmarshals);
    t.mode := READ;
    var r := t.Index();
    index := r.value.records;
    t.mode := APPEND;
  }
}
