/** What reading finds in a log: whole records, the sentinel, and torn ends. */
module LogRecords {
  import opened Bytes
  import opened LogFormat

  function Shift(p: Parsed, offset: nat): Parsed {
    match p
    case Found(r, next) => Found(r, next + offset)
    case Stop(_) => p
    case Panics => p
  }

  /** Reading a record does not depend on what comes before it (short of seeking back beyond it). */
  lemma ParseShift(pre: Str, d: Str, readValue: bool, unmarshals: Str -> bool)
    requires ParseAt(d, 0, readValue, unmarshals) != Stop(BadSeek)
    ensures ParseAt(pre + d, |pre|, readValue, unmarshals) == Shift(ParseAt(d, 0, readValue, unmarshals), |pre|)
  {
    var data := pre + d;
    if |d| >= 8 {
      assert data[|pre|..|pre| + 8] == d[0..8];
      var nameLen := DecodeInt64(d[0..8]);
      if nameLen == 0 {
        PaddedShift(pre, d, 8, 8);
      } else if 0 < nameLen <= MAX_SLICE && |d| > 8 {
        PaddedShift(pre, d, 8, nameLen);
        ValueShift(pre, d, ReadPadded(d, 8, nameLen), ReadEnd(d, 8, nameLen), readValue, unmarshals);
      }
    }
  }

  lemma PaddedShift(pre: Str, d: Str, pos: nat, n: nat)
    requires pos <= |d|
    ensures ReadPadded(pre + d, |pre| + pos, n) == ReadPadded(d, pos, n)
    ensures ReadEnd(pre + d, |pre| + pos, n) == |pre| + ReadEnd(d, pos, n)
  {
    var end := ReadEnd(d, pos, n);
    assert (pre + d)[|pre| + pos..|pre| + end] == d[pos..end];
  }

  lemma ValueShift(pre: Str, d: Str, key: Str, pos: nat, readValue: bool, unmarshals: Str -> bool)
    requires pos <= |d| && ParseValue(d, key, pos, readValue, unmarshals) != Stop(BadSeek)
    ensures ParseValue(pre + d, key, |pre| + pos, readValue, unmarshals) ==
      Shift(ParseValue(d, key, pos, readValue, unmarshals), |pre|)
  {
    if pos + 8 <= |d| {
      assert (pre + d)[|pre| + pos..|pre| + pos + 8] == d[pos..pos + 8];
      var valueLen := DecodeInt64(d[pos..pos + 8]);
      if valueLen > 0 {
        PaddedShift(pre, d, pos + 8, valueLen);
      }
    }
  }

  lemma Slice(a: Str, b: Str, c: Str)
    ensures (a + b + c)[|a|..|a| + |b|] == b
    ensures |b| <= MAX_READ ==>
      ReadPadded(a + b + c, |a|, |b|) == b && ReadEnd(a + b + c, |a|, |b|) == |a| + |b|
  {
  }

  /** A value the codec reads back; empty values are never given to it. */
  predicate Legible(r: Record, unmarshals: Str -> bool) {
    r.value == [] || unmarshals(r.value)
  }

  /** A whole record is read as it was written, whatever follows. */
  lemma WholeRecord(r: Record, post: Str, readValue: bool, unmarshals: Str -> bool)
    requires Storable(r) && (readValue ==> Legible(r, unmarshals))
    ensures ParseAt(Encode(r) + post, 0, readValue, unmarshals) ==
      Found(Record(r.key, if readValue then r.value else []), |Encode(r)|)
  {
    hide LeBytes, LeNat;
    PiecesOfRecord(r, post);
    LengthRoundTrip(|r.key|);
    LengthRoundTrip(|r.value|);
  }

  lemma PiecesOfRecord(r: Record, post: Str)
    requires Fits(r)
    ensures var data := Encode(r) + post; var h := HeaderSize(r);
      && data[0..8] == EncodeLength(|r.key|) && ReadPadded(data, 8, |r.key|) == r.key
      && data[h - 8..h] == EncodeLength(|r.value|) && ReadPadded(data, h, |r.value|) == r.value
      && ReadEnd(data, 8, |r.key|) == 8 + |r.key| && ReadEnd(data, h, |r.value|) == h + |r.value|
  {
    hide EncodeLength;
    var a, b := EncodeLength(|r.key|), EncodeLength(|r.value|);
    var data := Encode(r) + post;
    assert data == [] + a + (r.key + b + r.value + post);
    Slice([], a, r.key + b + r.value + post);
    assert data == a + r.key + (b + r.value + post);
    Slice(a, r.key, b + r.value + post);
    assert data == a + r.key + b + (r.value + post);
    Slice(a + r.key, b, r.value + post);
    assert data == a + r.key + b + r.value + post;
    Slice(a + r.key + b, r.value, post);
  }

  /** A record cut short before its value is not read at all. */
  lemma TornHeader(r: Record, k: nat, readValue: bool, unmarshals: Str -> bool)
    requires Storable(r) && k < HeaderSize(r)
    ensures ParseAt(Header(r)[..k], 0, readValue, unmarshals) == Stop(EndOfFile)
  {
    hide LeBytes, LeNat;
    var a := EncodeLength(|r.key|);
    var data := Header(r)[..k];
    if k >= 8 {
      LengthRoundTrip(|r.key|);
      assert data[0..8] == a;
    }
  }

  /** After a whole header the value is whatever a single read finds, padded with zeros to the declared length. */
  lemma HeaderDecides(r: Record, tail: Str, unmarshals: Str -> bool)
    requires 0 < |r.key| <= MAX_READ && 0 < |r.value| <= MAX_SLICE
    ensures var value := ReadPadded(tail, 0, |r.value|);
      ParseAt(Header(r) + tail, 0, true, unmarshals) ==
        if tail == [] then Stop(EndOfFile)
        else if unmarshals(value) then Found(Record(r.key, value), HeaderSize(r) + ReadEnd(tail, 0, |r.value|))
        else Stop(BadValue)
    ensures ParseAt(Header(r) + tail, 0, false, unmarshals) == Found(Record(r.key, []), |Encode(r)|)
  {
    hide LeBytes, LeNat, ReadPadded, ReadEnd;
    var a, b := EncodeLength(|r.key|), EncodeLength(|r.value|);
    var data := Header(r) + tail;
    LengthRoundTrip(|r.key|);
    LengthRoundTrip(|r.value|);
    assert data == [] + a + (r.key + b + tail);
    Slice([], a, r.key + b + tail);
    assert data == a + r.key + (b + tail);
    Slice(a, r.key, b + tail);
    assert data == a + r.key + b + tail;
    Slice(a + r.key, b, tail);
    PaddedShift(Header(r), tail, 0, |r.value|);
  }

  /** A whole record with a value beyond 1 GiB is read cut short and padded, and the next one from inside it. */
  lemma LongValueIsCut(r: Record, post: Str, unmarshals: Str -> bool)
    requires 0 < |r.key| <= MAX_READ && MAX_READ < |r.value| <= MAX_SLICE
    ensures var cut := r.value[..MAX_READ] + seq(|r.value| - MAX_READ, _ => 0);
      ParseAt(Encode(r) + post, 0, true, unmarshals) ==
        if unmarshals(cut) then Found(Record(r.key, cut), HeaderSize(r) + MAX_READ) else Stop(BadValue)
  {
    hide ParseAt, Header;
    HeaderDecides(r, r.value + post, unmarshals);
    assert Encode(r) + post == Header(r) + (r.value + post);
    assert (r.value + post)[0..MAX_READ] == r.value[..MAX_READ];
  }

  /** A record whose value is incomplete: read if its zero-padded prefix unmarshals, and skipped in any case. */
  lemma TornValue(r: Record, k: nat, unmarshals: Str -> bool)
    requires Storable(r) && HeaderSize(r) <= k < |Encode(r)|
    ensures var torn := r.value[..k - HeaderSize(r)]; var padded := torn + seq(|r.value| - |torn|, _ => 0);
      ParseAt(Encode(r)[..k], 0, true, unmarshals) ==
        if torn == [] then Stop(EndOfFile)
        else if unmarshals(padded) then Found(Record(r.key, padded), k) else Stop(BadValue)
    ensures ParseAt(Encode(r)[..k], 0, false, unmarshals) == Found(Record(r.key, []), |Encode(r)|)
  {
    hide ParseAt, Header;
    var torn := r.value[..k - HeaderSize(r)];
    assert Encode(r)[..k] == Header(r) + torn;
    HeaderDecides(r, torn, unmarshals);
    assert torn[0..|torn|] == torn;
  }

  /** The sentinel is found, whatever follows. */
  lemma WholeSentinel(post: Str, readValue: bool, unmarshals: Str -> bool)
    ensures ParseAt(Sentinel() + post, 0, readValue, unmarshals) == Stop(AtSentinel)
  {
    hide LeBytes, LeNat;
    LengthRoundTrip(0);
    var data := Sentinel() + post;
    assert data == [] + EncodeLength(0) + (SENTINEL + post);
    Slice([], EncodeLength(0), SENTINEL + post);
    Slice(EncodeLength(0), SENTINEL, post);
  }

  /** An incomplete sentinel is no record. */
  lemma TornSentinel(k: nat, readValue: bool, unmarshals: Str -> bool)
    requires k < 16
    ensures ParseAt(Sentinel()[..k], 0, readValue, unmarshals).Stop?
    ensures ParseAt(Sentinel()[..k], 0, readValue, unmarshals) != Stop(BadSeek)
  {
    hide LeBytes, LeNat;
    if k >= 8 {
      LengthRoundTrip(0);
      assert Sentinel()[..k][0..8] == EncodeLength(0);
    }
  }

  lemma {:induction false} ZerosEncode(k: nat)
    ensures LeBytes(0, k) == seq(k, _ => 0)
  {
    if k > 0 {
      ZerosEncode(k - 1);
      assert LeBytes(0, k) == [0] + LeBytes(0, k - 1);
    }
  }

  /**
   * A record of which fewer than sixteen bytes were written over an old sentinel is no record:
   * the bytes that are left cannot hold a key and a value length.
   */
  lemma TornOverSentinel(r: Record, k: nat, readValue: bool, unmarshals: Str -> bool)
    requires Storable(r) && k < 16
    ensures ParseAt(Encode(r)[..k] + Sentinel()[k..], 0, readValue, unmarshals).Stop?
    ensures ParseAt(Encode(r)[..k] + Sentinel()[k..], 0, readValue, unmarshals) != Stop(BadSeek)
  {
    hide LeBytes;
    var data := Encode(r)[..k] + Sentinel()[k..];
    var marker := data[0..8];
    if k >= 8 {
      assert marker == EncodeLength(|r.key|);
      LengthRoundTrip(|r.key|);
    } else {
      ZerosEncode(8);
      assert marker[..k] == EncodeLength(|r.key|)[..k] == LeBytes(|r.key|, 8)[..k];
      forall i | k <= i < 8 ensures marker[i] == 0 {
        assert marker[i] == EncodeLength(0)[i];
      }
      PartialLength(|r.key|, 8, k, marker);
    }
    assert |data| == 16 && DecodeInt64(marker) >= 0;
  }
}
