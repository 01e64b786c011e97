/** Merging the archives of a Whisper file into one series (ReadPoints in whisperconverter/whisper.go). */
module Whisper {
  import opened Wrappers
  import opened Orders
  import opened Chunks

  const TWO_32: int := 0x1_0000_0000

  type uint32 = x: int | 0 <= x < 0x1_0000_0000

  datatype Point = Point(timestamp: uint32, value: Float64)

  /** One precision level: its retention, and its points unless dumping it fails. */
  datatype Archive = Archive(retention: uint32, dump: Option<seq<Point>>)

  datatype WhisperError = NoArchives | DumpFailed(i: nat) | NoPoints

  predicate Earlier(a: Point, b: Point) {
    a.timestamp < b.timestamp
  }

  lemma EarlierOrders()
    ensures StrictWeakOrder(Earlier)
  {
    forall a, b ensures Asymmetric(Earlier, a, b) {}
    forall a, b, c ensures Transitive(Earlier, a, b, c) {}
  }

  function MaxTimestamp(points: seq<Point>): uint32 {
    if points == [] then 0
    else
      var m := MaxTimestamp(points[..|points| - 1]);
      if points[|points| - 1].timestamp > m then points[|points| - 1].timestamp else m
  }

  /** What the first loop finds: the newest timestamp of the first archive that has one, and its offset. */
  datatype Newest = Newest(maxTs: uint32, offset: uint32)

  function FindNewest(archives: seq<Archive>, i: nat, offset: uint32): Result<Newest, WhisperError>
    requires i <= |archives|
    decreases |archives| - i
  {
    if i == |archives| then Ok(Newest(0, offset))
    else
      var offset' := if i > 0 then archives[i - 1].retention else offset;
      match archives[i].dump
      case None => Err(DumpFailed(i))
      case Some(points) =>
        if MaxTimestamp(points) > 0 then Ok(Newest(MaxTimestamp(points), offset'))
        else FindNewest(archives, i + 1, offset')
  }

  /** uint32 addition. */
  function Now(n: Newest): uint32 {
    (n.maxTs + n.offset) % TWO_32
  }

  function LowerBound(now: uint32, a: Archive): uint32 {
    if now < a.retention then 0 else now - a.retention
  }

  /** The timestamps taken from one archive: above `lower`, and not above what a finer archive covers. */
  datatype Window = Window(lower: uint32, upper: Option<uint32>) {
    predicate Holds(p: Point) {
      p.timestamp != 0 && p.timestamp > lower && (upper.Some? ==> p.timestamp <= upper.value)
    }
  }

  function WindowOf(archives: seq<Archive>, now: uint32, i: nat): Window
    requires i < |archives|
  {
    Window(LowerBound(now, archives[i]), if i == 0 then None else Some(LowerBound(now, archives[i - 1])))
  }

  function InWindow(points: seq<Point>, w: Window): seq<Point> {
    if points == [] then []
    else
      var n := |points| - 1;
      InWindow(points[..n], w) + if w.Holds(points[n]) then [points[n]] else []
  }

  /** `out` is archive `i`'s points in its window, by time. */
  ghost predicate IsSelection(archives: seq<Archive>, now: uint32, i: nat, out: seq<Point>)
    requires i < |archives|
  {
    && archives[i].dump.Some?
    && Sorted(Earlier, out)
    && multiset(out) == multiset(InWindow(archives[i].dump.value, WindowOf(archives, now, i)))
  }

  /** The selections of archives `i` and up, coarsest (and so oldest) first. */
  ghost predicate IsMerge(archives: seq<Archive>, now: uint32, i: nat, out: seq<Point>)
    requires i <= |archives|
    decreases |archives| - i
  {
    if i == |archives| then out == []
    else
      exists older, own ::
        out == older + own && IsMerge(archives, now, i + 1, older) && IsSelection(archives, now, i, own)
  }

  /** What reading the archives may come to. */
  ghost predicate IsRead(archives: seq<Archive>, r: Result<seq<Point>, WhisperError>) {
    if archives == [] then r == Err(NoArchives)
    else
      match FindNewest(archives, 0, 0)
      case Err(e) => r == Err(e)
      case Ok(n) =>
        if Now(n) == 0 then r == Ok([])
        else if forall i :: 0 <= i < |archives| ==> archives[i].dump.Some? then
          r.Ok? && IsMerge(archives, Now(n), 0, r.value)
        else exists i :: LastUndumpable(archives, i) && r == Err(DumpFailed(i))
  }

  ghost predicate LastUndumpable(archives: seq<Archive>, i: nat) {
    i < |archives| && archives[i].dump.None? && forall k :: i < k < |archives| ==> archives[k].dump.Some?
  }

  method ReadPoints(archives: seq<Archive>) returns (r: Result<seq<Point>, WhisperError>)
    ensures IsRead(archives, r)
    ensures archives == [] ==> r == Err(NoArchives)
  {
    if |archives| == 0 {
      return Err(NoArchives);
    }
    hide FindNewest, IsMerge;
    var newest := SearchNewest(archives);
    if newest.Err? {
      return Err(newest.error);
    }
    var maxTs := (newest.value.maxTs + newest.value.offset) % TWO_32;
    if maxTs == 0 {
      return Ok([]);
    }
    r := MergeArchives(archives, maxTs);
  }

  /** The first loop: only archives up to the first one with points are dumped. */
  method SearchNewest(archives: seq<Archive>) returns (r: Result<Newest, WhisperError>)
    ensures r == FindNewest(archives, 0, 0)
  {
    var maxTs: uint32, maxTsOffset: uint32 := 0, 0;
    for i := 0 to |archives|
      invariant maxTs == 0 ==> FindNewest(archives, 0, 0) == FindNewest(archives, i, maxTsOffset)
      invariant maxTs > 0 ==> FindNewest(archives, 0, 0) == Ok(Newest(maxTs, maxTsOffset))
    {
      if maxTs == 0 {
        if i > 0 {
          maxTsOffset := archives[i - 1].retention;
        }
        if archives[i].dump.None? {
          return Err(DumpFailed(i));
        }
        maxTs := Newer(archives[i].dump.value, maxTs);
      }
    }
    r := Ok(Newest(maxTs, maxTsOffset));
  }

  /** The second loop, from the coarsest archive to the finest. */
  method MergeArchives(archives: seq<Archive>, now: uint32) returns (r: Result<seq<Point>, WhisperError>)
    ensures r.Ok? <==> forall i :: 0 <= i < |archives| ==> archives[i].dump.Some?
    ensures r.Ok? ==> IsMerge(archives, now, 0, r.value)
    ensures r.Err? ==> r.error.DumpFailed? && LastUndumpable(archives, r.error.i)
  {
    hide IsMerge, IsSelection, Sorted;
    var keptPoints: seq<Point> := [];
    NothingMerged(archives, now);
    var i := |archives|;
    while i > 0
      invariant 0 <= i <= |archives|
      invariant forall k :: i <= k < |archives| ==> archives[k].dump.Some?
      invariant IsMerge(archives, now, i, keptPoints)
    {
      i := i - 1;
      if archives[i].dump.None? {
        return Err(DumpFailed(i));
      }
      var own := Select(archives[i].dump.value, WindowOf(archives, now, i));
      MergedOneMore(archives, now, i, keptPoints, own);
      keptPoints := keptPoints + own;
    }
    r := Ok(keptPoints);
  }

  lemma NothingMerged(archives: seq<Archive>, now: uint32)
    ensures IsMerge(archives, now, |archives|, [])
  {
  }

  lemma MergedOneMore(archives: seq<Archive>, now: uint32, i: nat, older: seq<Point>, own: seq<Point>)
    requires i < |archives| && IsMerge(archives, now, i + 1, older)
    requires archives[i].dump.Some? && Sorted(Earlier, own)
    requires multiset(own) == multiset(InWindow(archives[i].dump.value, WindowOf(archives, now, i)))
    ensures IsMerge(archives, now, i, older + own)
  {
    assert IsSelection(archives, now, i, own);
  }

  method Newer(points: seq<Point>, maxTs: uint32) returns (m: uint32)
    requires maxTs == 0
    ensures m == MaxTimestamp(points)
  {
    m := maxTs;
    for k := 0 to |points|
      invariant m == MaxTimestamp(points[..k])
    {
      assert points[..k + 1][..k] == points[..k];
      if points[k].timestamp > m {
        m := points[k].timestamp;
      }
    }
    assert points[..|points|] == points;
  }

  ghost predicate IsSorting(points: seq<Point>, dumped: seq<Point>) {
    Sorted(Earlier, points) && multiset(points) == multiset(dumped)
  }

  method SortByTime(dumped: seq<Point>) returns (points: seq<Point>)
    ensures IsSorting(points, dumped) && |points| == |dumped|
  {
    EarlierOrders();
    points := Sort(Earlier, dumped);
    SameSize(points, dumped);
  }

  /** The loop over one archive's sorted points that finds the slice to keep. */
  method Select(dumped: seq<Point>, w: Window) returns (out: seq<Point>)
    ensures Sorted(Earlier, out) && multiset(out) == multiset(InWindow(dumped, w))
  {
    if |dumped| == 0 {
      return [];
    }
    hide InWindow, Sorted, IsSorting;
    var points := SortByTime(dumped);
    var startIdx: int := -1;
    var endIdx := |points| - 1;
    var j := 0;
    while j < |points|
      invariant 0 <= j <= |points| && -1 <= startIdx < |points| && startIdx <= j
      invariant startIdx == -1 ==> endIdx == |points| - 1 && forall k :: 0 <= k < j ==> !w.Holds(points[k])
      invariant startIdx >= 0 ==> startIdx <= endIdx == j - 1
      invariant startIdx >= 0 ==> forall k :: 0 <= k < startIdx ==> !w.Holds(points[k])
      invariant startIdx >= 0 ==> forall k :: startIdx <= k < j ==> w.Holds(points[k])
    {
      var p := points[j];
      if startIdx >= 0 {
        SortedAt(points, dumped, startIdx, j);
      }
      if p.timestamp == 0 {
        j := j + 1;
        continue;
      }
      if p.timestamp <= w.lower {
        j := j + 1;
        continue;
      }
      if w.upper.Some? && p.timestamp > w.upper.value {
        forall k | j <= k < |points| ensures !w.Holds(points[k]) {
          SortedAt(points, dumped, j, k);
        }
        break;
      }
      endIdx := j;
      if startIdx == -1 {
        startIdx := j;
      }
      j := j + 1;
    }
    if startIdx != -1 {
      SliceIsSelected(points, dumped, w, startIdx, endIdx + 1);
      out := points[startIdx..endIdx + 1];
    } else {
      SliceIsSelected(points, dumped, w, 0, 0);
      out := points[0..0];
    }
  }

  lemma SliceIsSelected(points: seq<Point>, dumped: seq<Point>, w: Window, a: nat, b: nat)
    requires IsSorting(points, dumped) && a <= b <= |points|
    requires forall k :: 0 <= k < |points| ==> (w.Holds(points[k]) <==> a <= k < b)
    ensures Sorted(Earlier, points[a..b]) && multiset(points[a..b]) == multiset(InWindow(dumped, w))
  {
    InWindowPermutation(points, dumped, w);
    InWindowSlice(points, w, a, b);
    SortedSlice(points, a, b);
  }

  lemma SameSize(a: seq<Point>, b: seq<Point>)
    requires multiset(a) == multiset(b)
    ensures |a| == |b|
  {
    assert |a| == |multiset(a)| && |b| == |multiset(b)|;
  }

  lemma SortedAt(s: seq<Point>, dumped: seq<Point>, i: nat, j: nat)
    requires i <= j < |s| && IsSorting(s, dumped)
    ensures s[i].timestamp <= s[j].timestamp
  {
    assert i < j ==> InOrder(Earlier, s, i, j);
  }

  lemma SortedSlice(s: seq<Point>, a: nat, b: nat)
    requires a <= b <= |s| && Sorted(Earlier, s)
    ensures Sorted(Earlier, s[a..b])
  {
    forall i, j | 0 <= i < j < b - a ensures InOrder(Earlier, s[a..b], i, j) {
      assert InOrder(Earlier, s, a + i, a + j);
    }
  }

  lemma {:induction false} InWindowSlice(points: seq<Point>, w: Window, a: nat, b: nat)
    requires a <= b <= |points|
    requires forall k :: 0 <= k < |points| ==> (w.Holds(points[k]) <==> a <= k < b)
    ensures InWindow(points, w) == points[a..b]
  {
    if points != [] {
      var n := |points| - 1;
      if b <= n {
        InWindowSlice(points[..n], w, a, b);
        assert points[..n][a..b] == points[a..b];
      } else if a <= n {
        InWindowSlice(points[..n], w, a, n);
        assert points[a..b] == points[..n][a..n] + [points[n]];
      } else {
        InWindowSlice(points[..n], w, n, n);
      }
    }
  }

  lemma {:induction false} InWindowConcat(a: seq<Point>, b: seq<Point>, w: Window)
    ensures InWindow(a + b, w) == InWindow(a, w) + InWindow(b, w)
  {
    if b == [] {
      assert a + b == a;
    } else {
      var n := |b| - 1;
      assert (a + b)[..|a + b| - 1] == a + b[..n];
      InWindowConcat(a, b[..n], w);
    }
  }

  lemma {:induction false} InWindowPermutation(a: seq<Point>, b: seq<Point>, w: Window)
    requires multiset(a) == multiset(b)
    ensures multiset(InWindow(a, w)) == multiset(InWindow(b, w))
  {
    hide InWindow;
    SameSize(a, b);
    if a == [] {
    } else {
      var n := |a| - 1;
      var i := MatchLast(a, b);
      InWindowPermutation(a[..n], b[..i] + b[i + 1..], w);
      assert a == a[..n] + [a[n]];
      InWindowConcat(a[..n], [a[n]], w);
      assert b == b[..i] + [b[i]] + b[i + 1..];
      InWindowConcat(b[..i] + [b[i]], b[i + 1..], w);
      InWindowConcat(b[..i], [b[i]], w);
      InWindowConcat(b[..i], b[i + 1..], w);
    }
  }
}
