/** The PCM queue as it runs: a ring in a fixed buffer. */
module PcmQueue {
  import opened PcmModel

  // ---------------------------------------------------------------- the ring

  /** `x` on a circle of `n`, for `x` up to once around. */
  function Wrap(x: nat, n: nat): nat
    requires x < 2 * n
  {
    if x < n then x else x - n
  }

  lemma WrapIs(x: nat, n: nat)
    requires 0 < n && x < 2 * n
    ensures x % n == Wrap(x, n)
  {
    if x >= n { ModOnce(x, n); } else { ModNone(x, n); }
  }

  lemma ModNone(x: nat, n: nat)
    requires x < n
    ensures x % n == x
  {
  }

  lemma ModOnce(x: nat, n: nat)
    requires 0 < n <= x < 2 * n
    ensures x % n == x - n
  {
    var q := x / n;
    assert x == n * q + x % n;
    assert q >= 2 ==> n * q >= 2 * n;
    assert q <= 0 ==> n * q <= 0;
  }

  ghost function Read(b: seq<Sample>, head: nat, depth: nat): (s: seq<Sample>)
    requires head < |b| && depth <= |b|
    ensures |s| == depth
    ensures forall i :: 0 <= i < depth ==> s[i] == b[Wrap(head + i, |b|)]
  {
    seq(depth, i requires 0 <= i < depth => b[Wrap(head + i, |b|)])
  }

  lemma ReadDropped(b: seq<Sample>, head: nat, depth: nat, take: nat)
    requires head < |b| && take <= depth <= |b|
    ensures Read(b, Wrap(head + take, |b|), depth - take) == Read(b, head, depth)[take..]
  {
  }

  /** `data` written from `at` on, the rest unchanged. */
  ghost predicate Wrote(before: seq<Sample>, after: seq<Sample>, at: nat, data: seq<Sample>)
    requires |before| == |after| && at < |before| && |data| <= |before|
  {
    && (forall i :: 0 <= i < |data| ==> after[Wrap(at + i, |before|)] == data[i])
    && (forall j :: 0 <= j < |before| && !InReach(at, |data|, |before|, j) ==> after[j] == before[j])
  }

  predicate InReach(at: nat, n: nat, size: nat, j: nat) {
    at <= j < at + n || j + size < at + n
  }

  lemma ReadAppended(before: seq<Sample>, after: seq<Sample>, head: nat, depth: nat, data: seq<Sample>)
    requires head < |before| == |after| && depth + |data| <= |before|
    requires depth < |before| || data == []
    requires Wrote(before, after, Wrap(head + depth, |before|), data)
    ensures Read(after, head, depth + |data|) == Read(before, head, depth) + data
  {
    var n := |before|;
    var at := Wrap(head + depth, n);
    forall i | 0 <= i < depth + |data|
      ensures after[Wrap(head + i, n)] == (Read(before, head, depth) + data)[i]
    {
      if i >= depth {
        assert Wrap(head + i, n) == Wrap(at + (i - depth), n);
      } else {
        assert !InReach(at, |data|, n, Wrap(head + i, n));
      }
    }
  }

  /** `data` in place of what stood at `at`. */
  function Splice(b: seq<Sample>, at: nat, data: seq<Sample>): (r: seq<Sample>)
    requires at + |data| <= |b|
    ensures |r| == |b|
  {
    b[..at] + data + b[at + |data|..]
  }

  lemma SpliceAt(b: seq<Sample>, at: nat, data: seq<Sample>, j: nat)
    requires at + |data| <= |b| && j < |b|
    ensures Splice(b, at, data)[j] == if at <= j < at + |data| then data[j - at] else b[j]
  {
  }

  lemma TwoCopies(before: seq<Sample>, at: nat, data: seq<Sample>, first: nat)
    requires at < |before| && |data| <= |before| && first == Least(|data|, |before| - at)
    ensures Wrote(before, if |data| > first then Splice(Splice(before, at, data[..first]), 0, data[first..])
                          else Splice(before, at, data[..first]), at, data)
  {
    hide Splice;
    var n := |before|;
    var once := Splice(before, at, data[..first]);
    var after := if |data| > first then Splice(once, 0, data[first..]) else once;
    forall i | 0 <= i < |data| ensures after[Wrap(at + i, n)] == data[i] {
      SpliceAt(before, at, data[..first], Wrap(at + i, n));
      if |data| > first { SpliceAt(once, 0, data[first..], Wrap(at + i, n)); }
    }
    forall j | 0 <= j < n && !InReach(at, |data|, n, j) ensures after[j] == before[j] {
      SpliceAt(before, at, data[..first], j);
      if |data| > first { SpliceAt(once, 0, data[first..], j); }
    }
  }

  /** The two parts a pop copies are the front of the queue. */
  lemma TwoParts(b: seq<Sample>, head: nat, depth: nat, out: seq<Sample>, take: nat, first: nat)
    requires head < |b| && 0 < take <= depth <= |b| && take <= |out| && first == Least(take, |b| - head)
    ensures var once := Splice(out, 0, b[head..head + first]);
            var after := if take > first then Splice(once, first, b[..take - first]) else once;
            after[..take] == Read(b, head, depth)[..take] && after[take..] == out[take..]
  {
    hide Splice;
    var once := Splice(out, 0, b[head..head + first]);
    var after := if take > first then Splice(once, first, b[..take - first]) else once;
    forall i | 0 <= i < |out| ensures after[i] == if i < take then b[Wrap(head + i, |b|)] else out[i] {
      SpliceAt(out, 0, b[head..head + first], i);
      if take > first { SpliceAt(once, first, b[..take - first], i); }
    }
  }

  /** A push drops from the queue first and then from its own front: what is left is the newest that fits. */
  lemma FitsNewest(queue: seq<Sample>, samples: seq<Sample>, capacity: nat, d: nat, skip: nat)
    requires |queue| <= capacity && capacity > 0 && samples != []
    requires d == if |samples| > capacity - |queue| then Least(|queue|, |samples| - (capacity - |queue|)) else 0
    requires skip == if |samples| > capacity - (|queue| - d) then |samples| - (capacity - (|queue| - d)) else 0
    ensures skip < |samples| && |queue| - d + |samples| - skip <= capacity
    ensures queue[d..] + samples[skip..] == Newest(queue + samples, capacity)
  {
    var all := queue + samples;
    if skip == 0 {
      assert samples[skip..] == samples && all[d..] == queue[d..] + samples;
    } else {
      assert queue[d..] == [] && all[|queue| + skip..] == samples[skip..];
    }
  }

  class AudioPcmQueue {
    const bounds: Bounds
    const buffer: array<Sample>
    var head: nat
    var depth: nat
    var stats: Stats

    ghost predicate Valid()
      reads this
    {
      && Settled(bounds) && buffer.Length == bounds.capacity
      && head < bounds.capacity && depth <= bounds.capacity
    }

    ghost function Contents(): (s: seq<Sample>)
      requires Valid()
      reads this, buffer
    {
      Read(buffer[..], head, depth)
    }

    ghost function Snapshot(): State
      requires Valid()
      reads this, buffer
    {
      State(Contents(), stats)
    }

    constructor (capacity: nat, highWater: nat, target: nat)
      ensures Valid() && fresh(buffer) && bounds == Settle(capacity, highWater, target) && Snapshot() == INITIAL
    {
      bounds := Settle(capacity, highWater, target);
      buffer := new Sample[if capacity == 0 then 1 else capacity](_ => 0);
      head, depth, stats := 0, 0, INITIAL.stats;
    }

    method DropFront(elements: nat) returns (take: nat)
      requires Valid()
      modifies this`head, this`depth
      ensures Valid() && take == Least(elements, old(depth)) && Contents() == old(Contents())[take..]
              && depth == old(depth) - take
    {
      take := Least(elements, depth);
      ReadDropped(buffer[..], head, depth, take);
      WrapIs(head + take, bounds.capacity);
      head := (head + take) % bounds.capacity;
      depth := depth - take;
    }

    method Copy(data: seq<Sample>, at: nat)
      requires Valid() && at + |data| <= bounds.capacity
      modifies buffer
      ensures buffer[..] == Splice(old(buffer[..]), at, data)
    {
      for i := 0 to |data|
        invariant forall k :: 0 <= k < i ==> buffer[at + k] == data[k]
        invariant forall k :: 0 <= k < at || at + i <= k < buffer.Length ==> buffer[k] == old(buffer[k])
      {
        buffer[at + i] := data[i];
      }
    }

    method Append(data: seq<Sample>)
      requires Valid() && data != [] && depth + |data| <= bounds.capacity
      modifies buffer
      ensures Read(buffer[..], head, depth + |data|) == old(Contents()) + data
    {
      hide Splice, Read, Wrote;
      ghost var before := buffer[..];
      WrapIs(head + depth, bounds.capacity);
      var at := (head + depth) % bounds.capacity;
      var first := Least(|data|, bounds.capacity - at);
      Copy(data[..first], at);
      if |data| > first { Copy(data[first..], 0); }
      TwoCopies(before, at, data, first);
      ReadAppended(before, buffer[..], head, depth, data);
    }

    /** Capacity first: the oldest audio makes room, then the input's own front is skipped. */
    method Fit(samples: seq<Sample>) returns (dropped: nat)
      requires Valid() && samples != []
      modifies this`head, this`depth, buffer
      ensures Valid() && Contents() == Newest(old(Contents()) + samples, bounds.capacity)
      ensures dropped == old(depth) + |samples| - depth
    {
      hide Newest, Read, Wrap;
      ghost var queue := Contents();
      var data := samples;
      var front, skip := 0, 0;
      if |data| > bounds.capacity - depth {
        front := DropFront(Least(depth, |data| - (bounds.capacity - depth)));
      }
      if |data| > bounds.capacity - depth {
        skip := |data| - (bounds.capacity - depth);
        data := data[skip..];
      }
      assert queue[0..] == queue && samples[0..] == samples;
      FitsNewest(queue, samples, bounds.capacity, front, skip);
      Append(data);
      depth := depth + |data|;
      return front + skip;
    }

    /** Then the live policy: above the high water mark the queue drops back to the target. */
    method Push(samples: seq<Sample>)
      requires Valid()
      modifies this, buffer
      ensures Valid() && Snapshot() == PcmModel.Push(bounds, old(Snapshot()), samples)
    {
      hide Newest, Read, Kept, Wrap;
      if samples == [] { return; }
      ghost var queue := Contents();
      var before := stats;
      var dropped := Fit(samples);
      KeptIs(bounds, queue, samples, Contents());
      if depth > bounds.highWater && depth > bounds.target {
        var over := DropFront(depth - bounds.target);
        dropped := dropped + over;
      }
      stats := Stats(before.pushed + |samples|, before.popped, before.dropped + dropped, before.underruns,
                     if depth > before.depthHigh then depth else before.depthHigh);
    }

    static lemma KeptIs(b: Bounds, queue: seq<Sample>, samples: seq<Sample>, fitting: seq<Sample>)
      requires Settled(b) && fitting == Newest(queue + samples, b.capacity)
      ensures Kept(b, queue, samples)
              == if |fitting| > b.highWater && |fitting| > b.target then fitting[|fitting| - b.target..] else fitting
    {
    }

    method CopyOut(out: array<Sample>, into: nat, from: nat, n: nat)
      requires Valid() && out != buffer && into + n <= out.Length && from + n <= bounds.capacity
      modifies out
      ensures out[..] == Splice(old(out[..]), into, buffer[from..from + n])
    {
      ghost var part := buffer[from..from + n];
      for i := 0 to n
        invariant forall k :: 0 <= k < i ==> out[into + k] == part[k]
        invariant forall k :: 0 <= k < into || into + i <= k < out.Length ==> out[k] == old(out[k])
      {
        assert part[i] == buffer[from + i];
        out[into + i] := buffer[from + i];
      }
    }

    method Pop(out: array<Sample>, room: nat) returns (take: nat)
      requires Valid() && room <= out.Length && out != buffer
      modifies this, out
      ensures Valid() && take <= out.Length && Popped(Snapshot(), out[..take]) == PcmModel.Pop(old(Snapshot()), room)
      ensures out[take..] == old(out[..])[take..]
    {
      hide Read, Wrap;
      take := Least(room, depth);
      if take > 0 {
        CopyFront(out, take);
        ReadDropped(buffer[..], head, depth, take);
        WrapIs(head + take, bounds.capacity);
        head := (head + take) % bounds.capacity;
        depth := depth - take;
        stats := stats.(popped := stats.popped + take);
      } else if room > 0 {
        stats := stats.(underruns := stats.underruns + 1);
      }
    }

    /** The front of the queue into `out`, in one copy or two. */
    method CopyFront(out: array<Sample>, take: nat)
      requires Valid() && 0 < take <= depth && take <= out.Length && out != buffer
      modifies out
      ensures out[..take] == Contents()[..take] && out[take..] == old(out[..])[take..]
    {
      hide Splice, Read;
      ghost var before := out[..];
      var first := Least(take, bounds.capacity - head);
      CopyOut(out, 0, head, first);
      if take > first { CopyOut(out, first, 0, take - first); }
      TwoParts(buffer[..], head, depth, before, take, first);
      PartsOf(head, first, take);
      assert out[..take] == out[..][..take] && out[take..] == out[..][take..];
    }

    lemma PartsOf(head: nat, first: nat, take: nat)
      requires head + first <= buffer.Length && first <= take <= buffer.Length + first
      ensures buffer[head..head + first] == buffer[..][head..head + first]
      ensures buffer[0..0 + (take - first)] == buffer[..][..take - first]
    {
    }

    method Clear()
      requires Valid()
      modifies this
      ensures Valid() && Snapshot() == PcmModel.Clear(old(Snapshot()))
    {
      stats := stats.(dropped := stats.dropped + depth);
      depth := 0;
      head := 0;
    }
  }
}
