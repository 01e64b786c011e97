/** A forward cursor over a series' samples (mimirSeriesIterator in pkg/graphite/convert/series.go). */
module Cursor {
  import opened Chunks

  /** Both movements yield a value or none; Seek can also run out of the slice's bounds. */
  datatype Moved = ValFloat | ValNone | Panics

  /** Where repeated Next, starting at `from`, first meets a timestamp of at least `ts`. */
  function FirstFrom(samples: seq<Sample>, from: nat, ts: int): (j: nat)
    requires from <= |samples|
    ensures from <= j <= |samples|
    decreases |samples| - from
  {
    if from == |samples| || samples[from].ts >= ts then from else FirstFrom(samples, from + 1, ts)
  }

  lemma {:induction false} FirstFromIsFirst(samples: seq<Sample>, from: nat, ts: int, j: nat)
    requires from <= j <= |samples|
    requires forall k :: from <= k < j ==> samples[k].ts < ts
    requires j < |samples| ==> samples[j].ts >= ts
    ensures FirstFrom(samples, from, ts) == j
    decreases j - from
  {
    if from < j {
      FirstFromIsFirst(samples, from + 1, ts, j);
    }
  }

  lemma InTimeOrder(samples: seq<Sample>, i: nat, j: int)
    requires Increasing(samples) && i < |samples| && j < |samples|
    ensures i < j ==> samples[i].ts < samples[j].ts
  {
  }

  class SeriesCursor {
    const samples: seq<Sample>
    var idx: int
    var failed: bool

    ghost predicate Valid()
      reads this
    {
      -1 <= idx <= |samples|
    }

    constructor (samples: seq<Sample>)
      ensures Valid() && this.samples == samples && idx == -1 && !failed
    {
      this.samples, idx, failed := samples, -1, false;
    }

    method Next() returns (r: Moved)
      requires Valid()
      modifies this
      ensures Valid() && failed == old(failed)
      ensures old(failed) ==> r == ValNone && idx == old(idx)
      ensures !old(failed) ==>
        && idx == (if old(idx) < |samples| then old(idx) + 1 else |samples|)
        && r == if idx < |samples| then ValFloat else ValNone
    {
      if failed {
        return ValNone;
      }
      idx := idx + 1;
      if idx >= |samples| {
        idx := |samples|;
        return ValNone;
      }
      r := ValFloat;
    }

    /** sort.Search over the first `n` samples for one with a timestamp of at least `ts`. */
    method Search(n: nat, ts: int) returns (i: nat)
      requires n <= |samples|
      ensures i <= n
      ensures Increasing(samples) ==> (forall k :: 0 <= k < i ==> samples[k].ts < ts) && (i < n ==> samples[i].ts >= ts)
    {
      i := 0;
      var j := n;
      while i < j
        invariant 0 <= i <= j <= n
        invariant Increasing(samples) ==> forall k :: 0 <= k < i ==> samples[k].ts < ts
        invariant j < n ==> samples[j].ts >= ts
      {
        var h := (i + j) / 2;
        if samples[h].ts >= ts {
          j := h;
        } else {
          i := h + 1;
        }
      }
    }

    /**
     * On increasing samples: stays if the current timestamp is late enough, fails if none is,
     * and otherwise goes where repeated Next would first find one; so it never goes back.
     */
    method Seek(ts: int) returns (r: Moved)
      requires Valid()
      modifies this
      ensures Valid()
      ensures r == Panics <==> !old(failed) && (samples == [] || old(idx) == |samples|)
      ensures r != Panics && Increasing(samples) ==>
        if old(failed) then r == ValNone && failed && idx == old(idx)
        else if old(idx) >= 0 && samples[old(idx)].ts >= ts then r == ValFloat && !failed && idx == old(idx)
        else if FirstFrom(samples, old(idx) + 1, ts) == |samples| then r == ValNone && failed && idx == old(idx)
        else r == ValFloat && !failed && idx == FirstFrom(samples, old(idx) + 1, ts)
      ensures Increasing(samples) ==> idx >= old(idx)
      ensures r == ValNone && !old(failed) ==> samples[|samples| - 1].ts < ts
    {
      if failed {
        return ValNone;
      }
      if idx > -1 {
        if idx == |samples| {
          return Panics;
        }
        if samples[idx].ts >= ts {
          return ValFloat;
        }
      }
      if |samples| == 0 {
        return Panics;
      }
      if samples[|samples| - 1].ts < ts {
        if Increasing(samples) {
          FirstFromIsFirst(samples, idx + 1, ts, |samples|);
        }
        failed := true;
        return ValNone;
      }
      var found := Search(|samples| - 1, ts);
      if Increasing(samples) {
        InTimeOrder(samples, found, idx);
        FirstFromIsFirst(samples, idx + 1, ts, found);
      }
      idx := found;
      r := ValFloat;
    }

    /** What the consumer of a new cursor sees. */
    method Drain() returns (items: seq<Item>)
      requires Valid() && idx == -1 && !failed
      modifies this
      ensures items == Floats(samples) && !failed
    {
      items := [];
      var next := Next();
      while next == ValFloat
        invariant Valid() && !failed && 0 <= idx <= |samples|
        invariant next == if idx < |samples| then ValFloat else ValNone
        invariant items == Floats(samples)[..idx]
        decreases |samples| - idx
      {
        items := items + [Float(samples[idx])];
        next := Next();
      }
    }
  }
}
