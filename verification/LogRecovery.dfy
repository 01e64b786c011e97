/** Scanning and indexing whole logs, and recovery after a crash at any byte of an Append or Close. */
module LogRecovery {
  import opened Bytes
  import opened LogFormat
  import opened LogRecords

  predicate AllLegible(rs: seq<Record>, unmarshals: Str -> bool) {
    forall i :: 0 <= i < |rs| ==> Legible(rs[i], unmarshals)
  }

  lemma LogBytesAppend(rs: seq<Record>, r: Record)
    ensures LogBytes(rs + [r]) == LogBytes(rs) + Encode(r)
  {
    assert (rs + [r])[..|rs|] == rs;
  }

  /** The record after some bytes is read from where those end. */
  lemma RecordAt(pre: Str, r: Record, post: Str, readValue: bool, unmarshals: Str -> bool)
    requires Storable(r) && (readValue ==> Legible(r, unmarshals))
    ensures ParseAt(pre + Encode(r) + post, |pre|, readValue, unmarshals) ==
      Found(Record(r.key, if readValue then r.value else []), |pre + Encode(r)|)
  {
    hide ParseAt, Encode;
    WholeRecord(r, post, readValue, unmarshals);
    ParseShift(pre, Encode(r) + post, readValue, unmarshals);
    assert pre + (Encode(r) + post) == pre + Encode(r) + post;
  }

  lemma {:induction false} ScanLog(rs: seq<Record>, tail: Str, unmarshals: Str -> bool)
    requires AllStorable(rs) && AllLegible(rs, unmarshals)
    ensures ScanFrom(LogBytes(rs) + tail, 0, unmarshals) == ScanFrom(LogBytes(rs) + tail, |LogBytes(rs)|, unmarshals)
  {
    hide ParseAt, Encode;
    if rs != [] {
      var n := |rs| - 1;
      var pre := LogBytes(rs[..n]);
      ScanLog(rs[..n], Encode(rs[n]) + tail, unmarshals);
      assert pre + (Encode(rs[n]) + tail) == LogBytes(rs) + tail;
      RecordAt(pre, rs[n], tail, true, unmarshals);
      assert ScanFrom(LogBytes(rs) + tail, |pre|, unmarshals) ==
        ScanFrom(LogBytes(rs) + tail, |LogBytes(rs)|, unmarshals);
    }
  }

  /** Each key's last position. */
  function IndexOf(rs: seq<Record>): map<Str, nat> {
    if rs == [] then map[]
    else IndexOf(rs[..|rs| - 1])[rs[|rs| - 1].key := |LogBytes(rs[..|rs| - 1])|]
  }

  lemma {:induction false} IndexLog(rs: seq<Record>, tail: Str)
    requires AllStorable(rs)
    requires SkipEnds(LogBytes(rs) + tail, |LogBytes(rs)|)
    ensures SkipEnds(LogBytes(rs) + tail, 0)
    ensures IndexFrom(LogBytes(rs) + tail, 0, map[]) ==
      IndexFrom(LogBytes(rs) + tail, |LogBytes(rs)|, IndexOf(rs))
  {
    hide ParseAt, Encode;
    if rs != [] {
      var n := |rs| - 1;
      var pre := LogBytes(rs[..n]);
      var data := LogBytes(rs) + tail;
      assert pre + (Encode(rs[n]) + tail) == data;
      RecordAt(pre, rs[n], tail, false, AnyValue);
      assert ParseAt(data, |pre|, false, AnyValue) == Found(Record(rs[n].key, []), |LogBytes(rs)|);
      EndsBefore(data, |pre|);
      IndexLog(rs[..n], Encode(rs[n]) + tail);
    }
  }

  lemma EncodingIsLong(r: Record)
    requires Storable(r)
    ensures |Encode(r)| >= 17
  {
  }

  /** At a position where reading stops, so does the scan, whether values are read or not. */
  lemma StopsAt(pre: Str, d: Str, unmarshals: Str -> bool)
    requires ParseAt(d, 0, true, unmarshals).Stop? && ParseAt(d, 0, true, unmarshals) != Stop(BadSeek)
    ensures ScanFrom(pre + d, |pre|, unmarshals) == EndsAt(|pre|)
  {
    ParseShift(pre, d, true, unmarshals);
  }

  lemma SkipStopsAt(pre: Str, d: Str, records: map<Str, nat>)
    requires ParseAt(d, 0, false, AnyValue).Stop? && ParseAt(d, 0, false, AnyValue) != Stop(BadSeek)
    ensures SkipEnds(pre + d, |pre|) && IndexFrom(pre + d, |pre|, records) == Indexed(records, |pre|)
  {
    hide ParseAt;
    ParseShift(pre, d, false, AnyValue);
    EndsBefore(pre + d, |pre|);
  }

  // ---------- A crash ----------

  /** A file that was cleanly closed ends in a sentinel; one never closed does not. */
  function OldFile(rs: seq<Record>, closed: bool): Str {
    LogBytes(rs) + if closed then Sentinel() else []
  }

  /** The file when only the first `k` bytes of the next record got written. */
  function TornAppend(rs: seq<Record>, closed: bool, r: Record, k: nat): Str
    requires k <= |Encode(r)|
  {
    WriteAt(OldFile(rs, closed), |LogBytes(rs)|, Encode(r)[..k])
  }

  function TornClose(rs: seq<Record>, closed: bool, k: nat): Str
    requires k <= 16
  {
    WriteAt(OldFile(rs, closed), |LogBytes(rs)|, Sentinel()[..k])
  }

  /** What is left after the whole records: the torn one, or that over the rest of the old sentinel. */
  lemma TornFile(rs: seq<Record>, closed: bool, bytes: Str)
    ensures WriteAt(OldFile(rs, closed), |LogBytes(rs)|, bytes) ==
      LogBytes(rs) + if closed && |bytes| < 16 then bytes + Sentinel()[|bytes|..] else bytes
  {
    hide LogBytes, Sentinel, WriteAt;
    WriteOver(LogBytes(rs), if closed then Sentinel() else [], bytes);
    assert LogBytes(rs) + bytes + [] == LogBytes(rs) + bytes;
    if closed && |bytes| < 16 {
      assert LogBytes(rs) + (bytes + Sentinel()[|bytes|..]) == LogBytes(rs) + bytes + Sentinel()[|bytes|..];
    }
  }

  /** The torn value, zero-padded to its recorded length, passes for a value. */
  predicate PaddingUnmarshals(r: Record, k: nat, unmarshals: Str -> bool)
    requires HeaderSize(r) <= k <= |Encode(r)|
  {
    var torn := r.value[..k - HeaderSize(r)];
    unmarshals(torn + seq(|r.value| - |torn|, _ => 0))
  }

  /**
   * Opening for append after a crash at byte `k` of an Append: the head is after the last
   * complete record, unless the crash was strictly inside the value and the zero-padded part
   * unmarshals; then it is at the end of the file.
   */
  lemma RecoveryAfterTornAppend(rs: seq<Record>, closed: bool, r: Record, k: nat, unmarshals: Str -> bool)
    requires AllStorable(rs) && AllLegible(rs, unmarshals)
    requires Storable(r) && Legible(r, unmarshals) && k <= |Encode(r)|
    ensures ScanFrom(TornAppend(rs, closed, r, k), 0, unmarshals) == EndsAt(
      if k == |Encode(r)| then |LogBytes(rs + [r])|
      else if k > HeaderSize(r) && PaddingUnmarshals(r, k, unmarshals) then |TornAppend(rs, closed, r, k)|
      else |LogBytes(rs)|)
  {
    hide ParseAt, LogBytes, Sentinel;
    var bytes := Encode(r)[..k];
    var pre := LogBytes(rs);
    var data := TornAppend(rs, closed, r, k);
    TornFile(rs, closed, bytes);
    EncodingIsLong(r);
    if closed && k < 16 {
      TornOverSentinel(r, k, true, unmarshals);
      ScanLog(rs, bytes + Sentinel()[k..], unmarshals);
      StopsAt(pre, bytes + Sentinel()[k..], unmarshals);
    } else {
      ScanLog(rs, bytes, unmarshals);
      if k < HeaderSize(r) {
        assert bytes == Header(r)[..k];
        TornHeader(r, k, true, unmarshals);
        StopsAt(pre, bytes, unmarshals);
      } else if k < |Encode(r)| {
        TornValue(r, k, unmarshals);
        ScanTornValue(pre, bytes, unmarshals);
      } else {
        assert bytes + [] == Encode(r);
        assert pre + Encode(r) + [] == data;
        RecordAt(pre, r, [], true, unmarshals);
        LogBytesAppend(rs, r);
        ScanAtEnd(data, unmarshals);
      }
    }
  }

  /** One byte of a two-byte value, and a codec that takes its padding: the torn record is read as another one. */
  lemma TornValuePasses()
    ensures var r := Record([0x61], [1, 2]);
      var file := TornAppend([], false, r, 18);
      && HeaderSize(r) < 18 < |Encode(r)| && PaddingUnmarshals(r, 18, AnyValue)
      && ScanFrom(file, 0, AnyValue) == EndsAt(|file|) && |file| == 18 && |LogBytes([])| == 0
      && ParseAt(file, 0, true, AnyValue) == Found(Record([0x61], [1, 0]), 18)
  {
    hide ScanFrom, ParseAt, Header;
    var r := Record([0x61], [1, 2]);
    var file := TornAppend([], false, r, 18);
    RecoveryAfterTornAppend([], false, r, 18, AnyValue);
    TornFile([], false, Encode(r)[..18]);
    NoRecords();
    assert [] + Encode(r)[..18] == Encode(r)[..18];
    TornValue(r, 18, AnyValue);
    assert r.value[..1] == [1];
    assert [1] + seq(1, _ => 0) == [1, 0];
  }

  lemma ScanAtEnd(data: Str, unmarshals: Str -> bool)
    ensures ScanFrom(data, |data|, unmarshals) == EndsAt(|data|)
  {
  }

  lemma ScanTornValue(pre: Str, d: Str, unmarshals: Str -> bool)
    requires var p := ParseAt(d, 0, true, unmarshals);
      (p.Stop? && p != Stop(BadSeek)) || (p.Found? && p.next == |d| && d != [])
    ensures ScanFrom(pre + d, |pre|, unmarshals) ==
      EndsAt(if ParseAt(d, 0, true, unmarshals).Found? then |pre + d| else |pre|)
  {
    ParseShift(pre, d, true, unmarshals);
    ScanAtEnd(pre + d, unmarshals);
  }

  /** A crash at any byte of a Close loses nothing. */
  lemma RecoveryAfterTornClose(rs: seq<Record>, closed: bool, k: nat, unmarshals: Str -> bool)
    requires AllStorable(rs) && AllLegible(rs, unmarshals) && k <= 16
    ensures ScanFrom(TornClose(rs, closed, k), 0, unmarshals) == EndsAt(|LogBytes(rs)|)
  {
    hide ParseAt, LogBytes;
    var bytes := Sentinel()[..k];
    var pre := LogBytes(rs);
    TornFile(rs, closed, bytes);
    if k == 16 || closed {
      assert (if closed && k < 16 then bytes + Sentinel()[k..] else bytes) == Sentinel() + [];
      WholeSentinel([], true, unmarshals);
      ScanLog(rs, Sentinel() + [], unmarshals);
      StopsAt(pre, Sentinel() + [], unmarshals);
    } else {
      TornSentinel(k, true, unmarshals);
      ScanLog(rs, bytes, unmarshals);
      StopsAt(pre, bytes, unmarshals);
    }
  }

  lemma {:induction false} ScanGoesForward(data: Str, pos: nat, unmarshals: Str -> bool)
    requires ScanFrom(data, pos, unmarshals).EndsAt?
    ensures ScanFrom(data, pos, unmarshals).pos >= pos
    decreases |data| - pos
  {
    hide ParseAt;
    if ParseAt(data, pos, true, unmarshals).Found? {
      FoundGoesForward(data, pos, unmarshals);
      ScanGoesForward(data, ParseAt(data, pos, true, unmarshals).next, unmarshals);
    }
  }

  lemma ReadingNeverSeeks(data: Str, unmarshals: Str -> bool)
    ensures ParseAt(data, 0, true, unmarshals) != Stop(BadSeek)
  {
  }

  /**
   * The file is never truncated, so after several crashes anything may follow the whole
   * records. The head is then after the last of them exactly if reading what follows stops
   * there: if it is neither read as a record itself nor makes the reader panic.
   */
  lemma RecoveryOverStaleBytes(rs: seq<Record>, stale: Str, unmarshals: Str -> bool)
    requires AllStorable(rs) && AllLegible(rs, unmarshals)
    ensures ScanFrom(LogBytes(rs) + stale, 0, unmarshals) == EndsAt(|LogBytes(rs)|) <==>
      ParseAt(stale, 0, true, unmarshals).Stop?
    ensures ParseAt(stale, 0, true, unmarshals).Panics? ==>
      ScanFrom(LogBytes(rs) + stale, 0, unmarshals) == ScanPanics
  {
    hide ParseAt, LogBytes;
    ScanLog(rs, stale, unmarshals);
    ReadingNeverSeeks(stale, unmarshals);
    ParseShift(LogBytes(rs), stale, true, unmarshals);
    var data := LogBytes(rs) + stale;
    var p := ParseAt(data, |LogBytes(rs)|, true, unmarshals);
    if p.Found? {
      FoundGoesForward(data, |LogBytes(rs)|, unmarshals);
      if ScanFrom(data, p.next, unmarshals).EndsAt? {
        ScanGoesForward(data, p.next, unmarshals);
      }
    }
  }

  /** "carbon.a" */
  const STALE_TEXT: Str := [0x63, 0x61, 0x72, 0x62, 0x6F, 0x6E, 0x2E, 0x61]

  lemma StaleTextIsLong()
    ensures MAX_SLICE < LeNat(STALE_TEXT) <= MAX_LENGTH
  {
    EightBytes(STALE_TEXT);
  }

  /** Text left over from a key or value reads as a length no slice can have: reopening panics. */
  lemma StaleTextPanics(rs: seq<Record>, more: Str, unmarshals: Str -> bool)
    requires AllStorable(rs) && AllLegible(rs, unmarshals)
    ensures ScanFrom(LogBytes(rs) + (STALE_TEXT + more), 0, unmarshals) == ScanPanics
  {
    hide ScanFrom, LogBytes;
    var stale := STALE_TEXT + more;
    assert stale[0..8] == STALE_TEXT;
    StaleTextIsLong();
    RecoveryOverStaleBytes(rs, stale, unmarshals);
  }

  /**
   * Opening with an index after the same crash: unless all of the header but not all of the
   * value was written, it finds the same end as the scan and indexes exactly the whole records.
   * Otherwise it lists the torn record too and leaves the head beyond the end of the file.
   */
  lemma IndexAfterTornAppend(rs: seq<Record>, closed: bool, r: Record, k: nat)
    requires AllStorable(rs) && Storable(r) && k <= |Encode(r)|
    ensures var data := TornAppend(rs, closed, r, k);
      && SkipEnds(data, 0)
      && IndexOutcome(data) ==
           if k < HeaderSize(r) then Indexed(IndexOf(rs), |LogBytes(rs)|)
           else Indexed(IndexOf(rs + [r]), |LogBytes(rs + [r])|)
    ensures HeaderSize(r) <= k < |Encode(r)| ==> |LogBytes(rs + [r])| > |TornAppend(rs, closed, r, k)|
  {
    hide ParseAt, LogBytes, Sentinel;
    var bytes := Encode(r)[..k];
    var pre := LogBytes(rs);
    var data := TornAppend(rs, closed, r, k);
    TornFile(rs, closed, bytes);
    EncodingIsLong(r);
    LogBytesAppend(rs, r);
    assert (rs + [r])[..|rs|] == rs;
    if closed && k < 16 {
      TornOverSentinel(r, k, false, AnyValue);
      SkipStopsAt(pre, bytes + Sentinel()[k..], IndexOf(rs));
      IndexLog(rs, bytes + Sentinel()[k..]);
    } else if k < HeaderSize(r) {
      assert bytes == Header(r)[..k];
      TornHeader(r, k, false, AnyValue);
      SkipStopsAt(pre, bytes, IndexOf(rs));
      IndexLog(rs, bytes);
    } else {
      if k < |Encode(r)| {
        TornValue(r, k, AnyValue);
      } else {
        assert bytes == Encode(r) + [];
        WholeRecord(r, [], false, AnyValue);
      }
      ParseShift(pre, bytes, false, AnyValue);
      IndexStopsAfter(data, |pre|, |pre| + |Encode(r)|, r.key, IndexOf(rs));
      IndexLog(rs, bytes);
    }
  }

  /** After the last, possibly torn, record there is nothing more to skip over. */
  lemma IndexStopsAfter(data: Str, pos: nat, next: nat, key: Str, records: map<Str, nat>)
    requires ParseAt(data, pos, false, AnyValue) == Found(Record(key, []), next)
    requires pos < next && next >= |data|
    ensures SkipEnds(data, pos) && IndexFrom(data, pos, records) == Indexed(records[key := pos], next)
  {
    assert ParseAt(data, next, false, AnyValue) == Stop(EndOfFile);
    EndsBefore(data, next);
    EndsBefore(data, pos);
  }

  /** Both ways of opening agree on where to append exactly if no value is torn. */
  lemma IndexAgreesUnlessValueTorn(rs: seq<Record>, closed: bool, r: Record, k: nat, unmarshals: Str -> bool)
    requires AllStorable(rs) && AllLegible(rs, unmarshals)
    requires Storable(r) && Legible(r, unmarshals) && k <= |Encode(r)|
    ensures var data := TornAppend(rs, closed, r, k);
      && SkipEnds(data, 0) && IndexOutcome(data).Indexed?
      && (ScanFrom(data, 0, unmarshals) == EndsAt(IndexOutcome(data).head) <==>
            k < HeaderSize(r) || k == |Encode(r)|)
  {
    hide ScanFrom, IndexFrom, SkipEnds, LogBytes, WriteAt;
    RecoveryAfterTornAppend(rs, closed, r, k, unmarshals);
    IndexAfterTornAppend(rs, closed, r, k);
    LogBytesAppend(rs, r);
    EncodingIsLong(r);
  }

  // ---------- Reading and indexing complete logs ----------

  /** What repeated Next calls return from a position on, the error they end with, and where. */
  function ReadFrom(data: Str, pos: nat, unmarshals: Str -> bool): (seq<Record>, Parsed, nat)
    decreases |data| - pos
  {
    match ParseAt(data, pos, true, unmarshals)
    case Found(r, next) =>
      var (rs, end, at) := ReadFrom(data, next, unmarshals);
      ([r] + rs, end, at)
    case end => ([], end, pos)
  }

  lemma {:induction false} ReadRecords(done: seq<Record>, rs: seq<Record>, tail: Str, unmarshals: Str -> bool)
    requires AllStorable(rs) && AllLegible(rs, unmarshals)
    ensures ReadFrom(LogBytes(done + rs) + tail, |LogBytes(done)|, unmarshals) ==
      var (more, end, at) := ReadFrom(LogBytes(done + rs) + tail, |LogBytes(done + rs)|, unmarshals);
      (rs + more, end, at)
    decreases |rs|
  {
    hide ParseAt, Encode;
    if rs == [] {
      assert done + rs == done;
      var (more, end, at) := ReadFrom(LogBytes(done) + tail, |LogBytes(done)|, unmarshals);
      assert rs + more == more;
    } else {
      assert done + rs == done + [rs[0]] + rs[1..];
      LogBytesAppend(done, rs[0]);
      var post := LogBytesSuffix(done + [rs[0]], rs[1..]);
      var data := LogBytes(done + rs) + tail;
      assert data == LogBytes(done) + Encode(rs[0]) + (post + tail);
      RecordAt(LogBytes(done), rs[0], post + tail, true, unmarshals);
      assert ParseAt(data, |LogBytes(done)|, true, unmarshals) == Found(rs[0], |LogBytes(done + [rs[0]])|);
      ReadRecords(done + [rs[0]], rs[1..], tail, unmarshals);
      var (more, end, at) := ReadFrom(data, |LogBytes(done + rs)|, unmarshals);
      assert [rs[0]] + (rs[1..] + more) == rs + more;
    }
  }

  lemma {:induction false} LogBytesSuffix(a: seq<Record>, b: seq<Record>) returns (post: Str)
    ensures LogBytes(a + b) == LogBytes(a) + post
  {
    if b == [] {
      post := [];
      assert a + b == a;
    } else {
      var n := |b| - 1;
      post := LogBytesSuffix(a, b[..n]);
      assert a + b == (a + b[..n]) + [b[n]];
      LogBytesAppend(a + b[..n], b[n]);
      post := post + Encode(b[n]);
    }
  }

  /** A closed log reads back record by record and then reports the sentinel, again and again. */
  lemma ClosedLogReadsBack(rs: seq<Record>, tail: Str, unmarshals: Str -> bool)
    requires AllStorable(rs) && AllLegible(rs, unmarshals)
    ensures ReadFrom(LogBytes(rs) + Sentinel() + tail, 0, unmarshals) == (rs, Stop(AtSentinel), |LogBytes(rs)|)
  {
    hide ParseAt, LogBytes, Sentinel, Encode;
    assert LogBytes([]) == [] by { NoRecords(); }
    assert [] + rs == rs && rs + [] == rs;
    var pre := LogBytes(rs);
    WholeSentinel(tail, true, unmarshals);
    ParseShift(pre, Sentinel() + tail, true, unmarshals);
    assert pre + (Sentinel() + tail) == pre + Sentinel() + tail;
    ReadRecords([], rs, Sentinel() + tail, unmarshals);
  }

  lemma NoRecords()
    ensures LogBytes([]) == []
  {
  }

  /** The last value appended under each key. */
  function LastValues(rs: seq<Record>): map<Str, Str> {
    if rs == [] then map[] else LastValues(rs[..|rs| - 1])[rs[|rs| - 1].key := rs[|rs| - 1].value]
  }

  /** The last record of a key is the one the index points at, and its value the last one. */
  lemma {:induction false} LastRecordWins(rs: seq<Record>, i: nat)
    requires i < |rs| && forall j :: i < j < |rs| ==> rs[j].key != rs[i].key
    ensures rs[i].key in IndexOf(rs) && IndexOf(rs)[rs[i].key] == |LogBytes(rs[..i])|
    ensures rs[i].key in LastValues(rs) && LastValues(rs)[rs[i].key] == rs[i].value
  {
    hide LogBytes;
    var n := |rs| - 1;
    if i < n {
      LastRecordWins(rs[..n], i);
      assert rs[..n][..i] == rs[..i];
    }
  }

  /** The index of a log leads to each key's last value, whatever follows the log. */
  lemma {:induction false} IndexLeadsToLastValues(rs: seq<Record>, tail: Str, unmarshals: Str -> bool)
    requires AllStorable(rs) && AllLegible(rs, unmarshals)
    ensures IndexOf(rs).Keys == LastValues(rs).Keys
    ensures forall key :: key in IndexOf(rs) ==>
      var p := ParseAt(LogBytes(rs) + tail, IndexOf(rs)[key], true, unmarshals);
      p.Found? && p.record == Record(key, LastValues(rs)[key])
  {
    hide ParseAt, Encode;
    if rs != [] {
      var n := |rs| - 1;
      var pre := LogBytes(rs[..n]);
      IndexLeadsToLastValues(rs[..n], Encode(rs[n]) + tail, unmarshals);
      assert pre + (Encode(rs[n]) + tail) == LogBytes(rs) + tail;
      RecordAt(pre, rs[n], tail, true, unmarshals);
    }
  }

  /** Index on a closed log: each key's last position, ending where an append may go on. */
  lemma ClosedLogIndex(rs: seq<Record>, tail: Str)
    requires AllStorable(rs)
    ensures SkipEnds(LogBytes(rs) + Sentinel() + tail, 0)
    ensures IndexOutcome(LogBytes(rs) + Sentinel() + tail) == Indexed(IndexOf(rs), |LogBytes(rs)|)
  {
    hide ParseAt, LogBytes, Sentinel;
    WholeSentinel(tail, false, AnyValue);
    assert LogBytes(rs) + (Sentinel() + tail) == LogBytes(rs) + Sentinel() + tail;
    SkipStopsAt(LogBytes(rs), Sentinel() + tail, IndexOf(rs));
    IndexLog(rs, Sentinel() + tail);
  }

  /** Scanning a closed log ends before its sentinel. */
  lemma ClosedLogScan(rs: seq<Record>, tail: Str, unmarshals: Str -> bool)
    requires AllStorable(rs) && AllLegible(rs, unmarshals)
    ensures ScanFrom(LogBytes(rs) + Sentinel() + tail, 0, unmarshals) == EndsAt(|LogBytes(rs)|)
  {
    hide ParseAt, LogBytes, Sentinel;
    WholeSentinel(tail, true, unmarshals);
    assert LogBytes(rs) + (Sentinel() + tail) == LogBytes(rs) + Sentinel() + tail;
    StopsAt(LogBytes(rs), Sentinel() + tail, unmarshals);
    ScanLog(rs, Sentinel() + tail, unmarshals);
  }

  // ---------- Empty keys ----------

  lemma EmptyKeyStops(r: Record, post: Str, unmarshals: Str -> bool)
    requires r.key == []
    ensures ParseAt(Encode(r) + post, 0, true, unmarshals).Stop?
    ensures ParseAt(Encode(r) + post, 0, true, unmarshals) != Stop(BadSeek)
  {
    hide LeBytes, LeNat;
    LengthRoundTrip(0);
    assert (Encode(r) + post)[0..8] == EncodeLength(0);
  }

  /** A record with an empty key looks like a sentinel: only logs without one read back. */
  lemma ReadsBackIffNoEmptyKey(rs: seq<Record>, unmarshals: Str -> bool)
    requires forall i :: 0 <= i < |rs| ==> Fits(rs[i])
    requires AllLegible(rs, unmarshals)
    ensures ReadFrom(LogBytes(rs) + Sentinel(), 0, unmarshals).0 == rs <==>
      forall i :: 0 <= i < |rs| ==> rs[i].key != []
  {
    hide ParseAt, LogBytes, Sentinel, Encode, ReadFrom;
    assert LogBytes(rs) + Sentinel() + [] == LogBytes(rs) + Sentinel();
    if forall i :: 0 <= i < |rs| ==> rs[i].key != [] {
      ClosedLogReadsBack(rs, [], unmarshals);
    } else {
      var n := FirstEmptyKey(rs);
      ReadsUpToEmptyKey(rs, n, Sentinel(), unmarshals);
    }
  }

  lemma {:induction false} FirstEmptyKey(rs: seq<Record>) returns (n: nat)
    requires exists i :: 0 <= i < |rs| && rs[i].key == []
    ensures n < |rs| && rs[n].key == [] && forall i :: 0 <= i < n ==> rs[i].key != []
  {
    n := 0;
    while rs[n].key != []
      invariant n < |rs| && forall i :: 0 <= i < n ==> rs[i].key != []
      invariant exists i :: n <= i < |rs| && rs[i].key == []
      decreases |rs| - n
    {
      n := n + 1;
    }
  }

  lemma ReadsUpToEmptyKey(rs: seq<Record>, n: nat, tail: Str, unmarshals: Str -> bool)
    requires forall i :: 0 <= i < |rs| ==> Fits(rs[i])
    requires AllLegible(rs, unmarshals)
    requires n < |rs| && rs[n].key == [] && forall i :: 0 <= i < n ==> rs[i].key != []
    ensures ReadFrom(LogBytes(rs) + tail, 0, unmarshals).0 == rs[..n]
  {
    hide ParseAt, LogBytes, Encode;
    NoRecords();
    var pre := LogBytes(rs[..n]);
    LogBytesAppend(rs[..n], rs[n]);
    assert rs == (rs[..n] + [rs[n]]) + rs[n + 1..];
    var post := LogBytesSuffix(rs[..n] + [rs[n]], rs[n + 1..]);
    var rest := Encode(rs[n]) + (post + tail);
    assert LogBytes(rs) + tail == pre + rest;
    assert [] + rs[..n] == rs[..n] && rs[..n] + [] == rs[..n];
    EmptyKeyStops(rs[n], post + tail, unmarshals);
    ParseShift(pre, rest, true, unmarshals);
    ReadRecords([], rs[..n], rest, unmarshals);
  }
}
