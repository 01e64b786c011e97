/** What the merge of a Whisper file's archives holds, and what may be missing from it. */
module WhisperFacts {
  import opened Wrappers
  import opened Orders
  import opened Whisper

  /** Coarser archives keep points at least as long. */
  ghost predicate RetentionsGrow(archives: seq<Archive>) {
    forall i, j :: 0 <= i <= j < |archives| ==> archives[i].retention <= archives[j].retention
  }

  /** Apart from empty slots (timestamp 0), an archive has one point per timestamp. */
  ghost predicate DistinctTimestamps(points: seq<Point>) {
    forall i, j :: 0 <= i < j < |points| && points[i].timestamp != 0 ==> points[i].timestamp != points[j].timestamp
  }

  ghost predicate Readable(archives: seq<Archive>) {
    && RetentionsGrow(archives)
    && forall i :: 0 <= i < |archives| ==> archives[i].dump.Some? && DistinctTimestamps(archives[i].dump.value)
  }

  ghost predicate Rising(points: seq<Point>) {
    && (forall i :: 0 <= i < |points| ==> points[i].timestamp > 0)
    && (forall i, j :: 0 <= i < j < |points| ==> points[i].timestamp < points[j].timestamp)
  }

  /** Archives further up have their windows further back: no timestamp is taken from two of them. */
  lemma WindowsAreDisjoint(archives: seq<Archive>, now: uint32, i: nat, j: nat, p: Point, q: Point)
    requires RetentionsGrow(archives) && i < j < |archives|
    requires WindowOf(archives, now, i).Holds(p) && WindowOf(archives, now, j).Holds(q)
    ensures q.timestamp < p.timestamp
  {
    assert archives[i].retention <= archives[j - 1].retention;
  }

  lemma {:induction false} InWindowMembers(points: seq<Point>, w: Window, p: Point)
    ensures p in InWindow(points, w) <==> p in points && w.Holds(p)
  {
    if points != [] {
      var n := |points| - 1;
      InWindowMembers(points[..n], w, p);
      assert points == points[..n] + [points[n]];
    }
  }

  lemma {:induction false} InWindowDistinct(points: seq<Point>, w: Window)
    requires DistinctTimestamps(points)
    ensures DistinctTimestamps(InWindow(points, w))
  {
    if points != [] {
      var n := |points| - 1;
      InWindowDistinct(points[..n], w);
      var kept := InWindow(points[..n], w);
      forall k | 0 <= k < |kept| ensures kept[k].timestamp != 0 && kept[k].timestamp != points[n].timestamp {
        InWindowMembers(points[..n], w, kept[k]);
        var i :| 0 <= i < n && points[i] == kept[k];
      }
    }
  }

  lemma PermutationDistinct(a: seq<Point>, b: seq<Point>)
    requires multiset(a) == multiset(b) && DistinctTimestamps(b)
    ensures DistinctTimestamps(a)
  {
    forall i, j | 0 <= i < j < |a| && a[i].timestamp != 0 ensures a[i].timestamp != a[j].timestamp {
      if a[i].timestamp == a[j].timestamp {
        assert a[i] in multiset(b) && a[j] in multiset(b);
        var k :| 0 <= k < |b| && b[k] == a[i];
        var l :| 0 <= l < |b| && b[l] == a[j];
        assert k == l;
        TwiceInMultiset(a, i, j);
        OnceInDistinct(b, k);
      }
    }
  }

  lemma OnceInDistinct(b: seq<Point>, k: nat)
    requires k < |b| && DistinctTimestamps(b) && b[k].timestamp != 0
    ensures multiset(b)[b[k]] == 1
  {
    assert b == b[..k] + [b[k]] + b[k + 1..];
    forall i | 0 <= i < |b| && i != k ensures b[i] != b[k] {
    }
    assert b[k] !in b[..k] && b[k] !in b[k + 1..];
  }

  /** One archive's selection rises inside its window. */
  lemma SelectionRises(archives: seq<Archive>, now: uint32, i: nat, own: seq<Point>)
    requires i < |archives| && IsSelection(archives, now, i, own)
    requires DistinctTimestamps(archives[i].dump.value)
    ensures Rising(own)
    ensures forall p :: p in own <==> p in archives[i].dump.value && WindowOf(archives, now, i).Holds(p)
  {
    var w := WindowOf(archives, now, i);
    var chosen := InWindow(archives[i].dump.value, w);
    InWindowDistinct(archives[i].dump.value, w);
    PermutationDistinct(own, chosen);
    forall p ensures p in own <==> p in archives[i].dump.value && w.Holds(p) {
      InWindowMembers(archives[i].dump.value, w, p);
      assert p in own <==> p in multiset(own);
      assert p in chosen <==> p in multiset(chosen);
    }
    forall i, j | 0 <= i < j < |own| ensures own[i].timestamp < own[j].timestamp {
      assert InOrder(Earlier, own, i, j);
      assert own[i] in own;
    }
    forall i | 0 <= i < |own| ensures own[i].timestamp > 0 {
      assert own[i] in own;
    }
  }

  ghost predicate TakenAt(archives: seq<Archive>, now: uint32, k: nat, p: Point)
    requires k < |archives|
  {
    archives[k].dump.Some? && p in archives[k].dump.value && WindowOf(archives, now, k).Holds(p)
  }

  /** `p` is taken from some archive, from number `i` up. */
  ghost predicate TakenFrom(archives: seq<Archive>, now: uint32, i: nat, p: Point) {
    exists k :: i <= k < |archives| && TakenAt(archives, now, k, p)
  }

  lemma TakenFromNext(archives: seq<Archive>, now: uint32, i: nat, p: Point)
    requires i < |archives|
    ensures TakenFrom(archives, now, i, p) <==> TakenFrom(archives, now, i + 1, p) || TakenAt(archives, now, i, p)
  {
    if TakenFrom(archives, now, i, p) && !TakenAt(archives, now, i, p) {
      var k :| i <= k < |archives| && TakenAt(archives, now, k, p);
      assert k >= i + 1;
    }
  }

  lemma OlderThanOwn(archives: seq<Archive>, now: uint32, i: nat, earlier: Point, own: Point)
    requires RetentionsGrow(archives) && i < |archives|
    requires TakenFrom(archives, now, i + 1, earlier) && TakenAt(archives, now, i, own)
    ensures earlier.timestamp < own.timestamp
  {
    var k :| i + 1 <= k < |archives| && TakenAt(archives, now, k, earlier);
    WindowsAreDisjoint(archives, now, i, k, own, earlier);
  }

  lemma RisingConcat(older: seq<Point>, own: seq<Point>)
    requires Rising(older) && Rising(own)
    requires forall p, q :: p in older && q in own ==> p.timestamp < q.timestamp
    ensures Rising(older + own)
  {
    var out := older + own;
    forall i, j | 0 <= i < j < |out| ensures out[i].timestamp < out[j].timestamp {
      if i < |older| <= j {
        assert out[i] in older && out[j] in own;
      }
    }
  }

  /**
   * The merge is the rising sequence of exactly the points that lie in their archive's
   * window; in particular timestamps are positive and strictly increasing.
   */
  lemma {:induction false} MergeMeetsWindows(archives: seq<Archive>, now: uint32, i: nat, out: seq<Point>)
    requires Readable(archives) && i <= |archives| && IsMerge(archives, now, i, out)
    ensures Rising(out)
    ensures forall p :: p in out <==> TakenFrom(archives, now, i, p)
    decreases |archives| - i
  {
    hide Rising, TakenFrom, RetentionsGrow, DistinctTimestamps, IsSelection, TakenAt;
    if i == |archives| {
      NothingTaken(archives, now, i);
    } else {
      var older: seq<Point>, own: seq<Point> :|
        out == older + own && IsMerge(archives, now, i + 1, older) && IsSelection(archives, now, i, own);
      MergeMeetsWindows(archives, now, i + 1, older);
      OwnIsTaken(archives, now, i, own);
      forall p, q | p in older && q in own ensures p.timestamp < q.timestamp {
        OlderThanOwn(archives, now, i, p, q);
      }
      RisingConcat(older, own);
      forall p ensures p in out <==> TakenFrom(archives, now, i, p) {
        TakenFromNext(archives, now, i, p);
        assert p in out <==> p in older || p in own;
      }
    }
  }

  lemma NothingTaken(archives: seq<Archive>, now: uint32, i: nat)
    requires i == |archives|
    ensures Rising([]) && forall p :: !TakenFrom(archives, now, i, p)
  {
  }

  lemma OwnIsTaken(archives: seq<Archive>, now: uint32, i: nat, own: seq<Point>)
    requires Readable(archives) && i < |archives| && IsSelection(archives, now, i, own)
    ensures Rising(own) && forall p :: p in own <==> TakenAt(archives, now, i, p)
  {
    SelectionRises(archives, now, i, own);
  }

  // ---------- The newest points ----------

  lemma {:induction false} MaxTimestampIsGreatest(points: seq<Point>)
    ensures forall p :: p in points ==> p.timestamp <= MaxTimestamp(points)
    ensures MaxTimestamp(points) > 0 ==> exists p :: p in points && p.timestamp == MaxTimestamp(points)
  {
    if points != [] {
      var n := |points| - 1;
      MaxTimestampIsGreatest(points[..n]);
      assert points == points[..n] + [points[n]];
    }
  }

  /** `j` is the first archive holding any points. */
  ghost predicate FirstWithPoints(archives: seq<Archive>, j: nat) {
    && j < |archives|
    && (forall k :: 0 <= k <= j ==> archives[k].dump.Some?)
    && (forall k :: 0 <= k < j ==> MaxTimestamp(archives[k].dump.value) == 0)
    && MaxTimestamp(archives[j].dump.value) > 0
  }

  lemma {:induction false} FindNewestFinds(archives: seq<Archive>, j: nat, i: nat, offset: uint32)
    requires FirstWithPoints(archives, j) && i <= j
    requires i == 0 ==> offset == 0
    ensures FindNewest(archives, i, offset) == Ok(Newest(
      MaxTimestamp(archives[j].dump.value), if j == 0 then 0 else archives[j - 1].retention))
    decreases j - i
  {
    if i < j {
      FindNewestFinds(archives, j, i + 1, if i > 0 then archives[i - 1].retention else offset);
    }
  }

  /** As in real files: every archive retains something, and more than the finer ones. */
  ghost predicate RetentionsGrowStrictly(archives: seq<Archive>) {
    && (forall i :: 0 <= i < |archives| ==> archives[i].retention > 0)
    && (forall i, j :: 0 <= i < j < |archives| ==> archives[i].retention < archives[j].retention)
  }

  /**
   * The newest points are those of the first non-empty archive `j`. They are in the merge if
   * and only if adding the retention of the archive before fits in 32 bits: if the addition
   * wraps around, the finer (empty) archive seems to cover them, and they are lost.
   */
  lemma NewestPointsKeptIff(archives: seq<Archive>, n: Newest, j: nat, out: seq<Point>)
    requires Readable(archives) && RetentionsGrowStrictly(archives) && FirstWithPoints(archives, j)
    requires FindNewest(archives, 0, 0) == Ok(n) && IsMerge(archives, Now(n), 0, out)
    ensures (exists p :: p in out && p.timestamp == MaxTimestamp(archives[j].dump.value)) <==>
      j == 0 || MaxTimestamp(archives[j].dump.value) + archives[j - 1].retention < 0x1_0000_0000
  {
    hide Rising, RetentionsGrow, RetentionsGrowStrictly, DistinctTimestamps, IsMerge, FindNewest, Window.Holds, Now;
    var newest := MaxTimestamp(archives[j].dump.value);
    var now := Now(n);
    NowIs(n);
    FindNewestFinds(archives, j, 0, 0);
    MergeMeetsWindows(archives, now, 0, out);
    MaxTimestampIsGreatest(archives[j].dump.value);
    var p :| p in archives[j].dump.value && p.timestamp == newest;
    NewestInWindow(archives, j, now, j, p);
    if WindowOf(archives, now, j).Holds(p) {
      assert TakenAt(archives, now, j, p);
    }
    forall q | q in out && q.timestamp == newest
      ensures WindowOf(archives, now, j).Holds(p)
    {
      var k :| 0 <= k < |archives| && TakenAt(archives, now, k, q);
      if k < j {
        MaxTimestampIsGreatest(archives[k].dump.value);
      } else {
        NewestInWindow(archives, j, now, k, q);
      }
    }
  }

  lemma NowIs(n: Newest)
    ensures Now(n) == (n.maxTs + n.offset) % TWO_32
  {
  }

  /** Of the archives from `j` on, only `j` can have the newest timestamp in its window. */
  lemma NewestInWindow(archives: seq<Archive>, j: nat, now: uint32, k: nat, q: Point)
    requires RetentionsGrowStrictly(archives) && j <= k < |archives| && q.timestamp > 0
    requires now == (q.timestamp + if j == 0 then 0 else archives[j - 1].retention) % TWO_32
    ensures WindowOf(archives, now, k).Holds(q) <==>
      k == j && (j == 0 || q.timestamp + archives[j - 1].retention < 0x1_0000_0000)
  {
    var before := if j == 0 then 0 else archives[j - 1].retention;
    if q.timestamp + before >= TWO_32 {
      assert now == q.timestamp + before - TWO_32 < before;
    } else {
      assert now == q.timestamp + before;
    }
    assert k > 0 && j > 0 ==> archives[j - 1].retention <= archives[k - 1].retention;
    assert k > j && j > 0 ==> archives[j - 1].retention < archives[k - 1].retention;
  }

  /** A two-archive file whose only, newest point is lost to the wrap-around. */
  lemma NewestWrapsAround() returns (archives: seq<Archive>)
    ensures Readable(archives) && RetentionsGrowStrictly(archives) && FirstWithPoints(archives, 1)
    ensures archives[1].dump == Some([Point(0xFFFF_FFFF, 7)])
    ensures forall out :: IsRead(archives, Ok(out)) <==> out == []
  {
    hide IsMerge;
    var newest := Point(0xFFFF_FFFF, 7);
    archives := [Archive(60, Some([])), Archive(3600, Some([newest]))];
    assert [newest][..0] == [] && MaxTimestamp([newest]) == 0xFFFF_FFFF;
    var n := Newest(0xFFFF_FFFF, 60);
    FindNewestFinds(archives, 1, 0, 0);
    assert Now(n) == 59;
    forall out ensures IsMerge(archives, 59, 0, out) <==> out == [] {
      EmptyWindowsMerge(archives, 59, 0, out);
    }
  }

  /** If no archive has points in its window, nothing is merged. */
  lemma {:induction false} EmptyWindowsMerge(archives: seq<Archive>, now: uint32, i: nat, out: seq<Point>)
    requires i <= |archives|
    requires forall k :: i <= k < |archives| ==>
      archives[k].dump.Some? && InWindow(archives[k].dump.value, WindowOf(archives, now, k)) == []
    ensures IsMerge(archives, now, i, out) <==> out == []
    decreases |archives| - i
  {
    if i < |archives| {
      assert IsSelection(archives, now, i, []);
      EmptyWindowsMerge(archives, now, i + 1, []);
      assert [] + [] == out || out != [];
      forall older, own |
        out == older + own && IsMerge(archives, now, i + 1, older) && IsSelection(archives, now, i, own)
        ensures out == []
      {
        EmptyWindowsMerge(archives, now, i + 1, older);
        SameSize(own, []);
      }
    }
  }

  /** The search stops at an archive that cannot be dumped, at one with points, or finds no points at all. */
  lemma {:induction false} FindNewestIs(archives: seq<Archive>, i: nat, offset: uint32)
    requires i <= |archives| && (i == 0 ==> offset == 0)
    requires forall k :: 0 <= k < i ==> archives[k].dump.Some? && MaxTimestamp(archives[k].dump.value) == 0
    ensures match FindNewest(archives, i, offset)
      case Err(e) => e.DumpFailed? && e.i < |archives| && archives[e.i].dump.None? && NoPointsBefore(archives, e.i)
      case Ok(n) =>
        if n.maxTs > 0 then
          exists j: nat :: FirstWithPoints(archives, j) && n.maxTs == MaxTimestamp(archives[j].dump.value)
        else NoPointsBefore(archives, |archives|)
    decreases |archives| - i
  {
    if i < |archives| && archives[i].dump.Some? {
      if MaxTimestamp(archives[i].dump.value) > 0 {
        assert FirstWithPoints(archives, i);
      } else {
        FindNewestIs(archives, i + 1, if i > 0 then archives[i - 1].retention else offset);
      }
    }
  }

  ghost predicate NoPointsBefore(archives: seq<Archive>, n: nat)
    requires n <= |archives|
  {
    forall k :: 0 <= k < n ==> archives[k].dump.Some? && MaxTimestamp(archives[k].dump.value) == 0
  }

  /** A file without any points reads as no points, and not as an error. */
  lemma NoPointsNoError(archives: seq<Archive>, r: Result<seq<Point>, WhisperError>)
    requires archives != [] && NoPointsBefore(archives, |archives|) && IsRead(archives, r)
    ensures r == Ok([])
  {
    hide IsMerge;
    FindNewestIs(archives, 0, 0);
    var n := FindNewest(archives, 0, 0).value;
    forall k | 0 <= k < |archives| ensures InWindow(archives[k].dump.value, WindowOf(archives, Now(n), k)) == [] {
      MaxTimestampIsGreatest(archives[k].dump.value);
      NothingInWindow(archives[k].dump.value, WindowOf(archives, Now(n), k));
    }
    if Now(n) != 0 {
      EmptyWindowsMerge(archives, Now(n), 0, r.value);
    }
  }

  // ---------- The merge in plain numbers ----------

  /** `p` is in archive `i`, within its retention and beyond that of the next finer one, counted back from `now`. */
  ghost predicate Within(archives: seq<Archive>, now: int, i: nat, p: Point)
    requires i < |archives|
  {
    && archives[i].dump.Some? && p in archives[i].dump.value
    && p.timestamp > 0 && p.timestamp > now - archives[i].retention
    && (i > 0 ==> p.timestamp <= now - archives[i - 1].retention)
  }

  ghost predicate WithinSome(archives: seq<Archive>, now: int, p: Point) {
    exists i :: 0 <= i < |archives| && Within(archives, now, i, p)
  }

  lemma WithinIff(archives: seq<Archive>, now: uint32, p: Point)
    ensures WithinSome(archives, now, p) <==> TakenFrom(archives, now, 0, p)
  {
    forall i | 0 <= i < |archives| ensures Within(archives, now, i, p) <==> TakenAt(archives, now, i, p) {
    }
  }

  /**
   * Archive `j` being the first with points, "now" is its newest time, later by the retention of
   * the archive before, modulo 2^32. Unless that is zero, every archive holds its own part of
   * the past; `p` lies in that of some archive.
   */
  ghost predicate IsWithin(archives: seq<Archive>, j: nat, p: Point)
    requires FirstWithPoints(archives, j)
  {
    var now := (MaxTimestamp(archives[j].dump.value) + if j == 0 then 0 else archives[j - 1].retention) % 0x1_0000_0000;
    now != 0 && WithinSome(archives, now, p)
  }

  /** Reading a file gives exactly these points, by time. */
  lemma ReadIs(archives: seq<Archive>, j: nat, points: seq<Point>)
    requires Readable(archives) && FirstWithPoints(archives, j) && IsRead(archives, Ok(points))
    ensures Rising(points)
    ensures forall p :: p in points <==> IsWithin(archives, j, p)
  {
    hide Rising, RetentionsGrow, DistinctTimestamps, IsMerge, FindNewest, WithinSome, TakenFrom;
    FindNewestFinds(archives, j, 0, 0);
    var n := FindNewest(archives, 0, 0).value;
    NowIs(n);
    if Now(n) == 0 {
      NothingRises();
    } else {
      MergeMeetsWindows(archives, Now(n), 0, points);
      forall p ensures p in points <==> IsWithin(archives, j, p) {
        WithinIff(archives, Now(n), p);
      }
    }
  }

  lemma NothingRises()
    ensures Rising([])
  {
  }

  // ---------- A finer boundary of zero ----------

  /** The window as the comment in the source has it: a finer boundary of zero is no limit. */
  function CommentedWindow(archives: seq<Archive>, now: uint32, i: nat): Window
    requires i < |archives|
  {
    var w := WindowOf(archives, now, i);
    if w.upper == Some(0) then Window(w.lower, None) else w
  }

  lemma {:induction false} NothingInWindow(points: seq<Point>, w: Window)
    requires forall p :: p in points ==> !w.Holds(p)
    ensures InWindow(points, w) == []
  {
    if points != [] {
      var n := |points| - 1;
      assert points[n] in points;
      NothingInWindow(points[..n], w);
    }
  }

  /**
   * The code takes the points the comment describes if and only if the finer archive does not
   * reach back to the beginning of time, or this one has nothing after its own lower bound.
   */
  lemma ZeroBoundaryIff(archives: seq<Archive>, now: uint32, i: nat, points: seq<Point>)
    requires 0 < i < |archives|
    ensures InWindow(points, WindowOf(archives, now, i)) == InWindow(points, CommentedWindow(archives, now, i)) <==>
      now > archives[i - 1].retention || forall p :: p in points ==> p.timestamp <= LowerBound(now, archives[i])
  {
    hide InWindow;
    var w, commented := WindowOf(archives, now, i), CommentedWindow(archives, now, i);
    if now <= archives[i - 1].retention {
      NothingInWindow(points, w);
      forall p ensures p in InWindow(points, commented) <==>
        p in points && p.timestamp > LowerBound(now, archives[i])
      {
        InWindowMembers(points, commented, p);
      }
      if p :| p in points && p.timestamp > LowerBound(now, archives[i]) {
        assert p in InWindow(points, commented);
      } else if InWindow(points, commented) != [] {
        assert InWindow(points, commented)[0] in InWindow(points, commented);
      }
    }
  }

  /** Behind an archive that reaches back to the beginning of time, no coarser one adds anything. */
  lemma NothingBehindZeroBoundary(archives: seq<Archive>, now: uint32, i: nat, out: seq<Point>)
    requires Readable(archives) && IsMerge(archives, now, 0, out)
    requires 0 < i < |archives| && now <= archives[i - 1].retention
    ensures forall p :: p in out <==> exists k :: 0 <= k < i && TakenAt(archives, now, k, p)
  {
    hide IsMerge;
    MergeMeetsWindows(archives, now, 0, out);
    forall p ensures p in out <==> exists k :: 0 <= k < i && TakenAt(archives, now, k, p) {
      assert p in out <==> TakenFrom(archives, now, 0, p);
      forall k | i <= k < |archives| ensures !TakenAt(archives, now, k, p) {
        assert archives[i - 1].retention <= archives[k - 1].retention;
      }
    }
  }

  /** Two archives that both reach back to the beginning: the coarser one's older point is lost. */
  lemma ZeroBoundaryLosesPoint() returns (archives: seq<Archive>)
    ensures Readable(archives) && |archives| == 2
    ensures archives[1].dump == Some([Point(20, 2)])
    ensures forall out :: IsRead(archives, Ok(out)) ==> Point(20, 2) !in out
  {
    hide IsMerge;
    var fine, coarse := [Point(50, 1)], [Point(20, 2)];
    archives := [Archive(100, Some(fine)), Archive(200, Some(coarse))];
    assert fine[..0] == [] && MaxTimestamp(fine) == 50;
    assert FindNewest(archives, 0, 0) == Ok(Newest(50, 0));
    forall out | IsMerge(archives, 50, 0, out) ensures Point(20, 2) !in out {
      NothingBehindZeroBoundary(archives, 50, 1, out);
    }
  }
}
