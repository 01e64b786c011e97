/** The append-only log of keyed values (USTable in pkg/graphite/convert/ustable.go). */
module UsTables {
  import opened Wrappers
  import opened Bytes
  import opened LogFormat

  datatype Mode = READ | APPEND

  lemma WriteReplaces(data: Str, pos: nat, bytes: Str)
    requires bytes != []
    ensures WriteAt(data, pos, bytes) == FilledUp(data, pos) + bytes + Drop(Drop(data, pos), |bytes|)
  {
    DropTwice(data, pos, |bytes|);
  }

  lemma SecondWrite(base: Str, rest: Str, a: Str, b: Str)
    ensures WriteAt(base + a + Drop(rest, |a|), |base + a|, b) == base + (a + b) + Drop(rest, |a + b|)
  {
    hide WriteAt, Drop;
    WriteOver(base + a, Drop(rest, |a|), b);
    DropTwice(rest, |a|, |b|);
    assert base + a + b == base + (a + b);
  }

  lemma WriteInTwo(data: Str, pos: nat, a: Str, b: Str)
    ensures WriteAt(WriteAt(data, pos, a), pos + |a|, b) == WriteAt(data, pos, a + b)
  {
    if a == [] {
      assert a + b == b;
    } else if b == [] {
      assert a + b == a;
    } else {
      hide WriteAt, FilledUp, Drop;
      WriteReplaces(data, pos, a);
      WriteReplaces(data, pos, a + b);
      SecondWrite(FilledUp(data, pos), Drop(data, pos), a, b);
    }
  }

  lemma WriteInFour(data: Str, pos: nat, r: Record)
    ensures var a, b := EncodeLength(|r.key|), EncodeLength(|r.value|);
      WriteAt(WriteAt(WriteAt(WriteAt(data, pos, a), pos + |a|, r.key), pos + |a| + |r.key|, b),
              pos + |a| + |r.key| + |b|, r.value)
        == WriteAt(data, pos, Encode(r))
  {
    hide WriteAt, EncodeLength;
    var a, b := EncodeLength(|r.key|), EncodeLength(|r.value|);
    WriteInTwo(data, pos, a, r.key);
    WriteInTwo(data, pos, a + r.key, b);
    WriteInTwo(data, pos, a + r.key + b, r.value);
  }

  class UsTable {
    const unmarshals: Str -> bool   // the values' codec
    var data: Str                   // the file
    var head: nat                   // the file descriptor's position
    var mode: Mode

    /** NewUSTableForRead. */
    constructor ForRead(file: Str, unmarshals: Str -> bool)
      ensures data == file && head == 0 && mode == READ && this.unmarshals == unmarshals
    {
      this.unmarshals, data, head, mode := unmarshals, file, 0, READ;
    }

    /** newUSTableForAppend: an absent file is created, and an existing one emptied if it is to be overwritten. */
    constructor ForAppend(file: Option<Str>, overwrite: bool, unmarshals: Str -> bool)
      ensures data == (if overwrite || file.None? then [] else file.value)
      ensures head == 0 && mode == APPEND && this.unmarshals == unmarshals
    {
      this.unmarshals, head, mode := unmarshals, 0, APPEND;
      data := if overwrite || file.None? then [] else file.value;
    }

    method Write(bytes: Str)
      modifies this`data, this`head
      ensures data == WriteAt(old(data), old(head), bytes) && head == old(head) + |bytes|
    {
      data, head := WriteAt(data, head, bytes), head + |bytes|;
    }

    /** binary.Read of an int64: all eight bytes or an error. */
    method ReadLength() returns (r: Option<int>)
      modifies this`head
      ensures r == if old(head) + 8 <= |data| then Some(DecodeInt64(data[old(head)..old(head) + 8])) else None
      ensures r.Some? ==> head == old(head) + 8
    {
      if head + 8 <= |data| {
        r := Some(DecodeInt64(data[head..head + 8]));
        head := head + 8;
      } else {
        r := None;
        head := if head <= |data| then |data| else head;
      }
    }

    /** A single fd.Read into a buffer of `n` bytes, of 1 GiB at most; fewer bytes are no error, none at all is. */
    method Read(n: nat) returns (r: Option<Str>)
      requires n > 0
      modifies this`head
      ensures r == if old(head) < |data| then Some(ReadPadded(data, old(head), n)) else None
      ensures r.Some? ==> head == ReadEnd(data, old(head), n)
    {
      if head < |data| {
        r := Some(ReadPadded(data, head, n));
        head := ReadEnd(data, head, n);
      } else {
        r := None;
      }
    }

    /** The outcome of readValue at the head, for the given key. */
    method ReadValue(key: Str) returns (r: Parsed)
      requires head <= |data|
      modifies this`head
      ensures r == ParseValue(data, key, old(head), true, unmarshals)
      ensures r.Found? ==> head == r.next
    {
      var valueLen := ReadLength();
      if valueLen.None? {
        return Stop(EndOfFile);
      }
      if valueLen.value < 0 {
        return Stop(BadData);
      }
      if valueLen.value == 0 {
        return Found(Record(key, []), head);
      }
      if valueLen.value > MAX_SLICE {
        return Panics;
      }
      var buf := Read(valueLen.value);
      if buf.None? {
        return Stop(EndOfFile);
      }
      if !unmarshals(buf.value) {
        return Stop(BadValue);
      }
      r := Found(Record(key, buf.value), head);
    }

    /** readAt: on any error the head is back where it was; -1 reads at the head. */
    method ReadRecord(seekPos: int, readValue: bool) returns (r: Parsed)
      requires seekPos >= -1
      modifies this`head
      ensures var start := if seekPos == -1 then old(head) else seekPos;
        && r == ParseAt(data, start, readValue, unmarshals)
        && (r.Found? ==> head == r.next) && (r.Stop? ==> head == start)
    {
      hide ReadPadded, DecodeInt64, LeBytes;
      var recordStart := if seekPos == -1 then head else seekPos;
      head := recordStart;
      var nameLen := ReadLength();
      if nameLen.None? {
        head := recordStart;
        return Stop(EndOfFile);
      }
      if nameLen.value == 0 {
        var buf := Read(8);
        head := recordStart;
        if buf.None? {
          return Stop(EndOfFile);
        }
        return Stop(if buf.value != SENTINEL then BadSentinel else AtSentinel);
      }
      if nameLen.value < 0 || nameLen.value > MAX_SLICE {
        return Panics;
      }
      var key := Read(nameLen.value);
      if key.None? {
        head := recordStart;
        return Stop(EndOfFile);
      }
      if readValue {
        r := ReadValue(key.value);
      } else {
        var valueLen := ReadLength();
        if valueLen.None? {
          r := Stop(EndOfFile);
        } else if head + valueLen.value < 0 {
          r := Stop(BadSeek);
        } else {
          head := head + valueLen.value;
          r := Found(Record(key.value, []), head);
        }
      }
      if r.Stop? {
        head := recordStart;
      }
    }

    /** Next reads at the head, ReadAt at a given position; both need READ mode. */
    method Next() returns (r: Parsed)
      modifies this`head
      ensures r == if mode != READ then Stop(InvalidForMode) else ParseAt(data, old(head), true, unmarshals)
      ensures !r.Panics? ==> head == if r.Found? then r.next else old(head)
    {
      if mode != READ {
        return Stop(InvalidForMode);
      }
      r := ReadRecord(-1, true);
    }

    method ReadAt(seekPos: nat) returns (r: Parsed)
      modifies this`head
      ensures r == if mode != READ then Stop(InvalidForMode) else ParseAt(data, seekPos, true, unmarshals)
    {
      if mode != READ {
        return Stop(InvalidForMode);
      }
      r := ReadRecord(seekPos, true);
    }

    method WriteRecord(key: Str, value: Str)
      modifies this`data, this`head
      ensures data == WriteAt(old(data), old(head), Encode(Record(key, value)))
      ensures head == old(head) + |Encode(Record(key, value))|
    {
      hide WriteAt, EncodeLength, Encode;
      WriteInFour(data, head, Record(key, value));
      Write(EncodeLength(|key|));
      Write(key);
      Write(EncodeLength(|value|));
      Write(value);
    }

    /** Writes the record in four pieces at the head; a value that does not marshal (None) writes nothing. */
    method Append(key: Str, value: Option<Str>) returns (r: Result<(), LogError>)
      modifies this`data, this`head
      ensures r == if mode != APPEND then Err(InvalidForMode)
                   else if value.None? then Err(NotMarshalled)
                   else Ok(())
      ensures r.Err? ==> data == old(data) && head == old(head)
      ensures r.Ok? ==>
        && data == WriteAt(old(data), old(head), Encode(Record(key, value.value)))
        && head == old(head) + |Encode(Record(key, value.value))|
    {
      if mode != APPEND {
        return Err(InvalidForMode);
      }
      if value.None? {
        return Err(NotMarshalled);
      }
      WriteRecord(key, value.value);
      r := Ok(());
    }

    /** Writes the sentinel if appending; the head is of no use afterwards. */
    method Close()
      modifies this`data, this`head
      ensures data == if mode == APPEND then WriteAt(old(data), old(head), Sentinel()) else old(data)
      ensures Sentinel() == [0, 0, 0, 0, 0, 0, 0, 0, 0x53, 0x45, 0x4E, 0x54, 0x49, 0x4E, 0x45, 0x4C]
    {
      SentinelIs();
      if mode == APPEND {
        hide WriteAt, LeBytes;
        Write(EncodeLength(0));
        Write(SENTINEL);
        WriteInTwo(old(data), old(head), EncodeLength(0), SENTINEL);
      }
    }

    /** Returns true only if seeking back fails after a sentinel was found, so never on a working file. */
    method SeekSentinel() returns (found: bool)
      modifies this`head
      ensures !found
    {
      if |data| < 16 {
        return false;
      }
      head := |data| - 16;
      var lenMarker := ReadLength();
      if lenMarker == Some(0) {
        var buf := Read(8);
        if buf == Some(SENTINEL) {
          head := |data| - 16;
          var err := false;   // of the seek just done
          return err;
        }
      }
      return false;
    }

    /** Leaves the head where the readable records end. */
    method SeekLastValid() returns (panics: bool)
      modifies this`head
      ensures panics <==> ScanFrom(data, 0, unmarshals) == ScanPanics
      ensures !panics ==> ScanFrom(data, 0, unmarshals) == EndsAt(head)
    {
      hide ReadPadded, DecodeInt64, LeBytes;
      var found := SeekSentinel();
      if found {
        return false;
      }
      head := 0;
      while true
        invariant head <= |data|
        invariant ScanFrom(data, head, unmarshals) == ScanFrom(data, 0, unmarshals)
        decreases |data| - head
      {
        var pos := head;
        var nameLen := ReadLength();
        if nameLen.None? || nameLen.value == 0 {
          head := pos;
          return false;
        }
        if nameLen.value < 0 || nameLen.value > MAX_SLICE {
          return true;
        }
        var key := Read(nameLen.value);
        if key.None? {
          head := pos;
          return false;
        }
        var r := ReadValue(key.value);
        if r.Panics? {
          return true;
        }
        if r.Stop? {
          head := pos;
          return false;
        }
      }
    }

    /**
     * Each key's last position; the head is left where the scan, which skips the values, ends.
     * The turns are counted only to tell when the loop would go on for ever.
     */
    method Index() returns (r: Result<Indexed, LogError>)
      modifies this`head
      ensures mode != READ ==> r == Err(InvalidForMode) && head == old(head)
      ensures mode == READ ==> r == Ok(IndexOutcome(data))
      ensures mode == READ && r.value.Indexed? ==> head == r.value.head
    {
      if mode != READ {
        return Err(InvalidForMode);
      }
      head := 0;
      var records: map<Str, nat> := map[];
      var turns := 0;
      while turns <= |data|
        invariant 0 <= turns <= |data| + 1
        invariant SkipEnds(data, 0) <==> SkipEnds(data, head)
        invariant SkipEnds(data, 0) ==>
          && StepsToEnd(data, 0) == StepsToEnd(data, head) + turns
          && IndexFrom(data, head, records) == IndexFrom(data, 0, map[])
      {
        var pos := head;
        var next := ReadRecord(-1, false);
        SkippingIgnoresCodec(data, pos, unmarshals);
        EndsWhereNext(data, pos);
        if next.Panics? {
          return Ok(IndexPanics);
        }
        if next.Stop? {
          return Ok(Indexed(records, head));
        }
        if SkipEnds(data, pos) {
          StepsAreExact(data, pos);
        }
        records := records[next.record.key := pos];
        turns := turns + 1;
      }
      if SkipEnds(data, 0) {
        EndsSoon(data, StepsToEnd(data, 0));
      }
      r := Ok(IndexNeverEnds);
    }
  }

  lemma EndsWhereNext(data: Str, pos: nat)
    ensures var p := ParseAt(data, pos, false, AnyValue);
      SkipEnds(data, pos) <==> (p.Found? ==> SkipEnds(data, p.next))
  {
    hide ParseAt;
    var p := ParseAt(data, pos, false, AnyValue);
    if SkipEnds(data, pos) && p.Found? {
      StepsAreExact(data, pos);
    }
    if p.Found? ==> SkipEnds(data, p.next) {
      EndsBefore(data, pos);
    }
  }

  lemma SkippingIgnoresCodec(data: Str, pos: nat, unmarshals: Str -> bool)
    ensures ParseAt(data, pos, false, unmarshals) == ParseAt(data, pos, false, AnyValue)
  {
  }
}
