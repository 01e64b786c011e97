/** Dividing work among independent worker programs (PathsForWorker in pkg/graphite/convert/paths.go). */
module Paths {
  import opened Wrappers

  /** The part of worker `id`: every `count`-th path, from its own number on. */
  ghost predicate IsPart<T>(paths: seq<T>, count: nat, id: nat, part: seq<T>)
    requires count > 0
  {
    && (forall k :: 0 <= k < |part| ==> Nth(paths, count, id, k) && part[k] == paths[id + k * count])
    && (forall k :: |part| <= k ==> !Nth(paths, count, id, k))
  }

  /** The worker has a `k`-th path. */
  predicate Nth<T>(paths: seq<T>, count: nat, id: nat, k: nat) {
    id + k * count < |paths|
  }

  /** With more workers than paths nobody gets any; without any workers the loop may never end (None). */
  method PathsForWorker<T>(paths: seq<T>, workerCount: nat, workerID: nat) returns (r: Option<seq<T>>)
    ensures r.None? <==> workerCount == 0 && workerID < |paths|
    ensures r.Some? && (workerCount == 0 || workerCount > |paths|) ==> r.value == []
    ensures 0 < workerCount <= |paths| ==> IsPart(paths, workerCount, workerID, r.value)
  {
    if workerCount > |paths| {
      if workerID >= |paths| {
        return Some([]);
      }
      return Some(paths[workerID..workerID]);
    }
    if workerCount == 0 && workerID < |paths| {
      return None;
    }
    var part: seq<T> := [];
    var i := workerID;
    while i < |paths|
      invariant i == workerID + |part| * workerCount
      invariant workerCount == 0 ==> part == []
      invariant forall k :: 0 <= k < |part| ==>
        Nth(paths, workerCount, workerID, k) && part[k] == paths[workerID + k * workerCount]
      decreases |paths| - i
    {
      part := part + [paths[i]];
      i := i + workerCount;
      assert i == workerID + |part| * workerCount by {
        assert (|part| - 1) * workerCount + workerCount == |part| * workerCount;
      }
    }
    forall k | |part| <= k ensures !Nth(paths, workerCount, workerID, k) {
      assert k * workerCount >= |part| * workerCount;
    }
    r := Some(part);
  }

  ghost predicate AreParts<T>(paths: seq<T>, parts: seq<seq<T>>) {
    |parts| > 0 && forall id :: 0 <= id < |parts| ==> IsPart(paths, |parts|, id, parts[id])
  }

  /**
   * With no more workers than paths, the parts divide the paths: path `i` is at place
   * i / count of worker i % count, and there is nothing else in any part.
   */
  lemma PartsDividePaths<T>(paths: seq<T>, parts: seq<seq<T>>, i: nat)
    requires AreParts(paths, parts) && i < |paths|
    ensures var count := |parts|;
      i / count < |parts[i % count]| && parts[i % count][i / count] == paths[i]
    ensures forall id, k :: 0 <= id < |parts| && 0 <= k < |parts[id]| && PathAt(|parts|, id, k) == i ==>
      id == i % |parts| && k == i / |parts|
    ensures forall id, k :: 0 <= id < |parts| && 0 <= k < |parts[id]| ==>
      PathAt(|parts|, id, k) < |paths| && parts[id][k] == paths[PathAt(|parts|, id, k)]
  {
    var count := |parts|;
    var id, k := i % count, i / count;
    assert i == id + k * count;
    assert IsPart(paths, count, id, parts[id]) && Nth(paths, count, id, k);
    forall id, k | 0 <= id < count && 0 <= k && PathAt(count, id, k) == i ensures id == i % count && k == i / count {
      Unique(count, id, k, i);
    }
    forall id, k | 0 <= id < count && 0 <= k < |parts[id]|
      ensures PathAt(count, id, k) < |paths| && parts[id][k] == paths[PathAt(count, id, k)]
    {
      assert IsPart(paths, count, id, parts[id]) && Nth(paths, count, id, k);
    }
  }

  function PathAt(count: nat, id: nat, k: nat): nat {
    id + k * count
  }

  lemma Unique(count: nat, id: nat, k: nat, i: nat)
    requires id < count && i == id + k * count
    ensures id == i % count && k == i / count
  {
    QuotientIsUnique(count, i / count, i % count, k, id);
  }

  lemma QuotientIsUnique(count: nat, q: nat, r: nat, k: nat, id: nat)
    requires r < count && id < count && q * count + r == k * count + id
    ensures q == k && r == id
  {
    if q < k {
      StepsApart(count, q, k);
    } else if k < q {
      StepsApart(count, k, q);
    }
  }

  lemma {:induction false} StepsApart(count: nat, a: nat, b: nat)
    requires a < b
    ensures a * count + count <= b * count
    decreases b - a
  {
    assert (a + 1) * count == a * count + count;
    if a + 1 < b {
      StepsApart(count, a + 1, b);
    }
  }
}
