/** The byte format of the intermediate logs (pkg/graphite/convert/ustable.go). */
module LogFormat {
  import opened Bytes

  // ---------- int64 lengths, little-endian ----------

  function Pow256(k: nat): (r: nat)
    ensures r >= 1
  {
    if k == 0 then 1 else 256 * Pow256(k - 1)
  }

  function LeBytes(n: nat, k: nat): (b: Str)
    ensures |b| == k
  {
    if k == 0 then [] else [n % 256] + LeBytes(n / 256, k - 1)
  }

  function LeNat(b: Str): nat {
    if b == [] then 0 else b[0] + 256 * LeNat(b[1..])
  }

  const MAX_LENGTH: int := 0x7FFF_FFFF_FFFF_FFFF

  /** The longest byte slice Go makes on a 64-bit machine; asking for more, or less than none, panics. */
  const MAX_SLICE: int := 0x1_0000_0000_0000

  /** A length as binary.Write stores an int64. */
  function EncodeLength(n: nat): (b: Str)
    ensures |b| == 8
  {
    LeBytes(n, 8)
  }

  /** An int64 as binary.Read finds it: the upper half of the range is negative. */
  function DecodeInt64(b: Str): int
    requires |b| == 8
  {
    if LeNat(b) <= MAX_LENGTH then LeNat(b) else LeNat(b) - 0x1_0000_0000_0000_0000
  }

  /** Eight bytes, the least significant first, in two's complement. */
  lemma DecodeInt64Is(b: Str)
    requires |b| == 8
    ensures DecodeInt64(b) ==
      b[0] as int + 0x100 * b[1] as int + 0x1_0000 * b[2] as int + 0x100_0000 * b[3] as int +
      0x1_0000_0000 * b[4] as int + 0x100_0000_0000 * b[5] as int + 0x1_0000_0000_0000 * b[6] as int +
      0x100_0000_0000_0000 * (if b[7] < 128 then b[7] as int else b[7] as int - 256)
  {
    hide LeNat;
    EightBytes(b);
  }

  lemma {:induction false} LeRoundTrip(n: nat, k: nat)
    requires n < Pow256(k)
    ensures LeNat(LeBytes(n, k)) == n
  {
    if k > 0 {
      LeRoundTrip(n / 256, k - 1);
      assert LeBytes(n, k)[1..] == LeBytes(n / 256, k - 1);
    }
  }

  lemma LengthRoundTrip(n: nat)
    requires n <= MAX_LENGTH
    ensures DecodeInt64(EncodeLength(n)) == n
  {
    assert Pow256(8) == 0x1_0000_0000_0000_0000;
    LeRoundTrip(n, 8);
  }

  /** A length of which only the first bytes were written over zeros is smaller, never negative. */
  lemma {:induction false} PartialLength(n: nat, k: nat, j: nat, b: Str)
    requires j <= k && |b| == k && b[..j] == LeBytes(n, k)[..j]
    requires forall i :: j <= i < k ==> b[i] == 0
    ensures LeNat(b) <= n
  {
    if k > 0 {
      assert LeBytes(n, k)[1..] == LeBytes(n / 256, k - 1);
      if j == 0 {
        PartialLength(n / 256, k - 1, 0, b[1..]);
      } else {
        assert b[0] == b[..j][0] == n % 256;
        assert b[1..][..j - 1] == b[..j][1..] == LeBytes(n, k)[..j][1..] == LeBytes(n / 256, k - 1)[..j - 1];
        PartialLength(n / 256, k - 1, j - 1, b[1..]);
      }
    }
  }

  /** A length is written least significant byte first. */
  lemma EncodeLengthIs(n: nat)
    ensures EncodeLength(n) == [
      n % 256, n / 256 % 256, n / 256 / 256 % 256, n / 256 / 256 / 256 % 256,
      n / 256 / 256 / 256 / 256 % 256, n / 256 / 256 / 256 / 256 / 256 % 256,
      n / 256 / 256 / 256 / 256 / 256 / 256 % 256, n / 256 / 256 / 256 / 256 / 256 / 256 / 256 % 256]
  {
    hide LeBytes;
    var a := n / 256 / 256;
    var b := a / 256 / 256;
    var c := b / 256 / 256;
    TwoBytes(n, 6);
    TwoBytes(a, 4);
    TwoBytes(b, 2);
    TwoBytes(c, 0);
    NoBytes(c / 256 / 256);
  }

  lemma OneByte(n: nat, k: nat)
    ensures LeBytes(n, k + 1) == [n % 256] + LeBytes(n / 256, k)
  {
  }

  lemma TwoBytes(n: nat, k: nat)
    ensures LeBytes(n, k + 2) == [n % 256, n / 256 % 256] + LeBytes(n / 256 / 256, k)
  {
    hide LeBytes;
    OneByte(n, k + 1);
    OneByte(n / 256, k);
  }

  lemma NoBytes(n: nat)
    ensures LeBytes(n, 0) == []
  {
  }

  // ---------- Files ----------

  /** The file up to a position; beyond the end the file is filled up with zeros. */
  function FilledUp(data: Str, pos: nat): (r: Str)
    ensures |r| == pos
  {
    if pos <= |data| then data[..pos] else data + seq(pos - |data|, _ => 0)
  }

  /** Writing overwrites what is there, extends the file, and fills a gap before it with zeros. */
  function WriteAt(data: Str, pos: nat, bytes: Str): Str {
    if bytes == [] then data
    else
      FilledUp(data, pos) + bytes + Drop(data, pos + |bytes|)
  }

  /** Byte for byte: what was written, zeros in a gap, and otherwise what was there. */
  lemma WriteAtIs(data: Str, pos: nat, bytes: Str, i: nat)
    requires bytes != []
    ensures |WriteAt(data, pos, bytes)| == if pos + |bytes| < |data| then |data| else pos + |bytes|
    ensures i < |WriteAt(data, pos, bytes)| ==>
      WriteAt(data, pos, bytes)[i] ==
        if pos <= i < pos + |bytes| then bytes[i - pos] else if i < |data| then data[i] else 0
  {
  }

  function Drop(s: Str, n: nat): Str {
    if n <= |s| then s[n..] else []
  }

  lemma DropTwice(s: Str, m: nat, n: nat)
    ensures Drop(Drop(s, m), n) == Drop(s, m + n)
  {
  }

  lemma WriteOver(pre: Str, tail: Str, bytes: Str)
    ensures WriteAt(pre + tail, |pre|, bytes) == pre + bytes + Drop(tail, |bytes|)
  {
    if bytes == [] {
      assert pre + [] + tail == pre + tail;
    } else if |bytes| <= |tail| {
      assert (pre + tail)[|pre| + |bytes|..] == tail[|bytes|..];
    }
  }

  function Min(a: nat, b: nat): nat {
    if a <= b then a else b
  }

  /** The most a single read of a file takes. */
  const MAX_READ: nat := 0x4000_0000

  /** Where a single read into a buffer of `n` bytes ends. */
  function ReadEnd(data: Str, pos: nat, n: nat): (end: nat)
    requires pos <= |data|
    ensures pos <= end <= |data|
  {
    Min(pos + Min(n, MAX_READ), |data|)
  }

  /** What a read into a buffer of `n` bytes leaves there: a short read leaves zeros at the end. */
  function ReadPadded(data: Str, pos: nat, n: nat): (b: Str)
    requires pos <= |data|
    ensures |b| == n
  {
    var available := data[pos..ReadEnd(data, pos, n)];
    available + seq(n - |available|, _ => 0)
  }

  /** Up to 2^30 bytes of the buffer are read, as far as the file goes; the rest stays zero. */
  lemma ReadPaddedIs(data: Str, pos: nat, n: nat, i: nat)
    requires pos <= |data| && i < n
    ensures ReadPadded(data, pos, n)[i] == if i < 0x4000_0000 && pos + i < |data| then data[pos + i] else 0
    ensures ReadEnd(data, pos, n) ==
      if n <= 0x4000_0000 && pos + n <= |data| then pos + n
      else if n > 0x4000_0000 && pos + 0x4000_0000 <= |data| then pos + 0x4000_0000
      else |data|
  {
  }

  // ---------- Records ----------

  /** A key and a marshalled value. */
  datatype Record = Record(key: Str, value: Str)

  const SENTINEL: Str := [0x53, 0x45, 0x4E, 0x54, 0x49, 0x4E, 0x45, 0x4C]   // "SENTINEL"

  function Sentinel(): (b: Str)
    ensures |b| == 16
  {
    EncodeLength(0) + SENTINEL
  }

  function HeaderSize(r: Record): nat {
    16 + |r.key|
  }

  /** Key length, key, value length: all of a record but its value. */
  function Header(r: Record): (b: Str)
    ensures |b| == HeaderSize(r)
  {
    EncodeLength(|r.key|) + r.key + EncodeLength(|r.value|)
  }

  function Encode(r: Record): (b: Str)
    ensures |b| == HeaderSize(r) + |r.value|
  {
    Header(r) + r.value
  }

  /** Key and value are each read by a single read. */
  predicate Fits(r: Record) {
    |r.key| <= MAX_READ && |r.value| <= MAX_READ
  }

  /** A key that is no sentinel, and lengths that fit. */
  predicate Storable(r: Record) {
    r.key != [] && Fits(r)
  }

  lemma StorableIff(r: Record)
    ensures Storable(r) <==> r.key != [] && |r.key| <= 0x4000_0000 && |r.value| <= 0x4000_0000
  {
  }

  /** Eight zeros and "SENTINEL". */
  lemma SentinelIs()
    ensures Sentinel() == [0, 0, 0, 0, 0, 0, 0, 0, 0x53, 0x45, 0x4E, 0x54, 0x49, 0x4E, 0x45, 0x4C]
  {
    EncodeLengthIs(0);
  }

  predicate AllStorable(rs: seq<Record>) {
    forall i :: 0 <= i < |rs| ==> Storable(rs[i])
  }

  function LogBytes(rs: seq<Record>): Str {
    if rs == [] then [] else LogBytes(rs[..|rs| - 1]) + Encode(rs[|rs| - 1])
  }

  // ---------- Reading one record ----------

  datatype LogError =
    | AtSentinel | BadSentinel | EndOfFile | BadData | BadValue | BadSeek | InvalidForMode | NotMarshalled

  /** Reading at a position: a record and where the next one starts, or why there is none. */
  datatype Parsed = Found(record: Record, next: nat) | Stop(e: LogError) | Panics

  /** `unmarshals` tells which values the codec accepts; a value that is skipped is not looked at. */
  function ParseValue(data: Str, key: Str, pos: nat, readValue: bool, unmarshals: Str -> bool): Parsed
    requires pos <= |data|
  {
    if pos + 8 > |data| then Stop(EndOfFile)
    else
      var valueLen := DecodeInt64(data[pos..pos + 8]);
      var start := pos + 8;
      if !readValue then
        if start + valueLen < 0 then Stop(BadSeek) else Found(Record(key, []), start + valueLen)
      else if valueLen < 0 then Stop(BadData)
      else if valueLen == 0 then Found(Record(key, []), start)
      else if valueLen > MAX_SLICE then Panics
      else if start == |data| then Stop(EndOfFile)
      else
        var value := ReadPadded(data, start, valueLen);
        if unmarshals(value) then Found(Record(key, value), ReadEnd(data, start, valueLen)) else Stop(BadValue)
  }

  function ParseAt(data: Str, pos: nat, readValue: bool, unmarshals: Str -> bool): Parsed {
    if pos + 8 > |data| then Stop(EndOfFile)
    else
      var nameLen := DecodeInt64(data[pos..pos + 8]);
      if nameLen == 0 then
        if pos + 8 == |data| then Stop(EndOfFile)
        else if ReadPadded(data, pos + 8, 8) == SENTINEL then Stop(AtSentinel)
        else Stop(BadSentinel)
      else if nameLen < 0 || nameLen > MAX_SLICE then Panics
      else if pos + 8 == |data| then Stop(EndOfFile)
      else
        var key := ReadPadded(data, pos + 8, nameLen);
        ParseValue(data, key, ReadEnd(data, pos + 8, nameLen), readValue, unmarshals)
  }

  /** The first length at a position, as far as there is one. */
  function LengthAt(data: Str, pos: nat): int
    requires pos + 8 <= |data|
  {
    DecodeInt64(data[pos..pos + 8])
  }

  /** What a position cannot hold a record for, in the order the reader finds it out. */
  lemma NoRecordIf(data: Str, pos: nat, readValue: bool, unmarshals: Str -> bool)
    ensures pos + 8 > |data| ==> ParseAt(data, pos, readValue, unmarshals) == Stop(EndOfFile)
    ensures pos + 8 <= |data| && (LengthAt(data, pos) < 0 || LengthAt(data, pos) > 0x1_0000_0000_0000) ==>
      ParseAt(data, pos, readValue, unmarshals) == Panics
    ensures pos + 8 == |data| && 0 <= LengthAt(data, pos) <= 0x1_0000_0000_0000 ==>
      ParseAt(data, pos, readValue, unmarshals) == Stop(EndOfFile)
    ensures pos + 8 < |data| && LengthAt(data, pos) == 0 ==>
      ParseAt(data, pos, readValue, unmarshals) ==
        if ReadPadded(data, pos + 8, 8) == [0x53, 0x45, 0x4E, 0x54, 0x49, 0x4E, 0x45, 0x4C] then Stop(AtSentinel)
        else Stop(BadSentinel)
  {
  }

  /** After key `key`, what the value length at a position leads to. */
  lemma NoValueIf(data: Str, key: Str, pos: nat, unmarshals: Str -> bool)
    requires pos <= |data|
    ensures pos + 8 > |data| ==>
      ParseValue(data, key, pos, true, unmarshals) == ParseValue(data, key, pos, false, unmarshals) == Stop(EndOfFile)
    ensures pos + 8 <= |data| && LengthAt(data, pos) < 0 ==>
      ParseValue(data, key, pos, true, unmarshals) == Stop(BadData)
    ensures pos + 8 <= |data| && LengthAt(data, pos) == 0 ==>
      ParseValue(data, key, pos, true, unmarshals) == Found(Record(key, []), pos + 8)
    ensures pos + 8 <= |data| && LengthAt(data, pos) > 0x1_0000_0000_0000 ==>
      ParseValue(data, key, pos, true, unmarshals) == Panics
    ensures pos + 8 == |data| && 0 < LengthAt(data, pos) <= 0x1_0000_0000_0000 ==>
      ParseValue(data, key, pos, true, unmarshals) == Stop(EndOfFile)
    ensures pos + 8 <= |data| && pos + 8 + LengthAt(data, pos) < 0 ==>
      ParseValue(data, key, pos, false, unmarshals) == Stop(BadSeek)
    ensures pos + 8 <= |data| && pos + 8 + LengthAt(data, pos) >= 0 ==>
      ParseValue(data, key, pos, false, unmarshals) == Found(Record(key, []), pos + 8 + LengthAt(data, pos))
  {
  }

  lemma FoundGoesForward(data: Str, pos: nat, unmarshals: Str -> bool)
    requires ParseAt(data, pos, true, unmarshals).Found?
    ensures pos < ParseAt(data, pos, true, unmarshals).next <= |data|
  {
  }

  // ---------- Scanning a whole file ----------

  datatype Scan = EndsAt(pos: nat) | ScanPanics

  /** Where reading record after record, values included, comes to a stop. */
  function ScanFrom(data: Str, pos: nat, unmarshals: Str -> bool): Scan
    decreases |data| - pos
  {
    match ParseAt(data, pos, true, unmarshals)
    case Stop(_) => EndsAt(pos)
    case Panics => ScanPanics
    case Found(_, next) => ScanFrom(data, next, unmarshals)
  }

  /** For reads that skip the values, the codec does not matter. */
  predicate AnyValue(v: Str) {
    true
  }

  /** Going over the values, the scan has read `n` records when it stops or panics. */
  ghost predicate EndsIn(data: Str, pos: nat, n: nat)
    decreases n
  {
    match ParseAt(data, pos, false, AnyValue)
    case Found(_, next) => n > 0 && EndsIn(data, next, n - 1)
    case _ => n == 0
  }

  /** The scan comes to an end; a negative value length can send it back and around for ever. */
  ghost predicate SkipEnds(data: Str, pos: nat) {
    exists n :: EndsIn(data, pos, n)
  }

  ghost function StepsToEnd(data: Str, pos: nat): nat
    requires SkipEnds(data, pos)
  {
    var n :| EndsIn(data, pos, n);
    n
  }

  lemma {:induction false} EndsInOnce(data: Str, pos: nat, n: nat, m: nat)
    requires EndsIn(data, pos, n) && EndsIn(data, pos, m)
    ensures n == m
    decreases n
  {
    if n > 0 {
      EndsInOnce(data, ParseAt(data, pos, false, AnyValue).next, n - 1, m - 1);
    }
  }

  lemma EndsBefore(data: Str, pos: nat)
    requires var p := ParseAt(data, pos, false, AnyValue); p.Found? ==> SkipEnds(data, p.next)
    ensures SkipEnds(data, pos)
  {
    hide ParseAt;
    var p := ParseAt(data, pos, false, AnyValue);
    assert EndsIn(data, pos, if p.Found? then StepsToEnd(data, p.next) + 1 else 0);
  }

  ghost predicate EndsLater(data: Str, pos: nat, n: nat) {
    exists m :: m > n && EndsIn(data, pos, m)
  }

  /** Before it ends, the scan is at a new place inside the file at every turn. */
  lemma {:induction false} PlacesLeft(data: Str, pos: nat, n: nat, seen: set<nat>)
    requires EndsIn(data, pos, n)
    requires forall p :: p in seen ==> p < |data| && EndsLater(data, p, n)
    ensures n + |seen| <= |data|
    decreases n
  {
    hide ParseAt;
    if n == 0 {
      PlacesInFile(seen, |data|);
    } else {
      FoundInFile(data, pos);
      NotYetSeen(data, pos, n, seen);
      assert EndsLater(data, pos, n - 1);
      forall p | p in seen ensures EndsLater(data, p, n - 1) {
        assert EndsLater(data, p, n);
      }
      PlacesLeft(data, ParseAt(data, pos, false, AnyValue).next, n - 1, seen + {pos});
    }
  }

  lemma NotYetSeen(data: Str, pos: nat, n: nat, seen: set<nat>)
    requires EndsIn(data, pos, n) && forall p :: p in seen ==> EndsLater(data, p, n)
    ensures pos !in seen
  {
    hide EndsIn;
    forall m | EndsIn(data, pos, m) ensures m == n {
      EndsInOnce(data, pos, n, m);
    }
  }

  lemma FoundInFile(data: Str, pos: nat)
    requires ParseAt(data, pos, false, AnyValue).Found?
    ensures pos < |data|
  {
  }

  lemma {:induction false} PlacesInFile(places: set<nat>, size: nat)
    requires forall p :: p in places ==> p < size
    ensures |places| <= size
  {
    if size == 0 {
      assert places == {};
    } else {
      PlacesInFile(places - {size - 1}, size - 1);
    }
  }

  /** So it ends within as many turns as the file has bytes, or never. */
  lemma EndsSoon(data: Str, n: nat)
    requires EndsIn(data, 0, n)
    ensures n <= |data|
  {
    PlacesLeft(data, 0, n, {});
  }

  lemma StepsAreExact(data: Str, pos: nat)
    requires SkipEnds(data, pos) && ParseAt(data, pos, false, AnyValue).Found?
    ensures var next := ParseAt(data, pos, false, AnyValue).next;
      SkipEnds(data, next) && StepsToEnd(data, pos) == StepsToEnd(data, next) + 1
  {
    hide ParseAt;
    var next := ParseAt(data, pos, false, AnyValue).next;
    var n := StepsToEnd(data, pos);
    assert EndsIn(data, next, n - 1);
    EndsInOnce(data, next, n - 1, StepsToEnd(data, next));
  }

  /** What indexing comes to: each key's last position and where the scan stops. */
  datatype Indexed = Indexed(records: map<Str, nat>, head: nat) | IndexPanics | IndexNeverEnds

  ghost function IndexFrom(data: Str, pos: nat, records: map<Str, nat>): Indexed
    requires SkipEnds(data, pos)
    decreases StepsToEnd(data, pos)
  {
    match ParseAt(data, pos, false, AnyValue)
    case Stop(_) => Indexed(records, pos)
    case Panics => IndexPanics
    case Found(r, next) =>
      StepsAreExact(data, pos);
      IndexFrom(data, next, records[r.key := pos])
  }

  ghost function IndexOutcome(data: Str): Indexed {
    if SkipEnds(data, 0) then IndexFrom(data, 0, map[]) else IndexNeverEnds
  }

  /** Key "a", and a value length of -17: over the value is back at the beginning. */
  const ENDLESS: Str := [1, 0, 0, 0, 0, 0, 0, 0, 0x61, 0xEF, 0xFF, 0xFF, 0xFF, 0xFF, 0xFF, 0xFF, 0xFF]

  lemma LeNatFrom(b: Str, i: nat)
    requires i < |b|
    ensures LeNat(b[i..]) == b[i] + 256 * if i + 1 == |b| then 0 else LeNat(b[i + 1..])
  {
    assert b[i..][1..] == b[i + 1..];
  }

  lemma EightBytes(b: Str)
    requires |b| == 8
    ensures LeNat(b) == b[0] as int + 256 * (b[1] as int + 256 * (b[2] as int + 256 * (b[3] as int +
      256 * (b[4] as int + 256 * (b[5] as int + 256 * (b[6] as int + 256 * b[7] as int))))))
  {
    hide LeNat;
    assert b[0..] == b;
    LeNatFrom(b, 0);
    LeNatFrom(b, 1);
    LeNatFrom(b, 2);
    LeNatFrom(b, 3);
    LeNatFrom(b, 4);
    LeNatFrom(b, 5);
    LeNatFrom(b, 6);
    LeNatFrom(b, 7);
  }

  lemma EndlessLeadsBack()
    ensures ParseAt(ENDLESS, 0, false, AnyValue) == Found(Record([0x61], []), 0)
  {
    hide LeNat;
    var first: Str := [1, 0, 0, 0, 0, 0, 0, 0];
    var second: Str := [0xEF, 0xFF, 0xFF, 0xFF, 0xFF, 0xFF, 0xFF, 0xFF];
    assert ENDLESS[0..8] == first && ENDLESS[9..17] == second;
    EightBytes(first);
    EightBytes(second);
    assert ENDLESS[8..9] == [0x61];
  }

  /** Indexing such a file never ends. */
  lemma {:induction false} EndlessNeverEnds(n: nat)
    ensures !EndsIn(ENDLESS, 0, n)
  {
    hide ParseAt;
    EndlessLeadsBack();
    if n > 0 {
      EndlessNeverEnds(n - 1);
    }
  }

  lemma IndexCanBeEndless()
    ensures IndexOutcome(ENDLESS) == IndexNeverEnds
  {
    forall n ensures !EndsIn(ENDLESS, 0, n) {
      EndlessNeverEnds(n);
    }
  }
}
