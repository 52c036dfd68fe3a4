/** The queue as it runs, each method one critical section of its mutex. */
module VideoQueue {
  import opened Wire
  import opened AnnexB
  import L = AnnexBLaws
  import M = QueueModel

  lemma NoTypes()
    ensures forall t :: !HasType([], t)
  {
  }

  class BoundedVideoQueue {
    var queue: seq<M.Unit>
    var bytes: int
    var generation: int
    var resetSerial: int
    var waiting: bool

    ghost function Snapshot(): M.State
      reads this
    {
      M.State(queue, bytes, generation, resetSerial, waiting)
    }

    constructor ()
      ensures Snapshot() == M.INITIAL
    {
      queue, bytes, generation, resetSerial, waiting := [], 0, 1, 1, true;
    }

    /** Whether a decoder can start at these bytes: they split, and hold an SPS, a PPS and an IDR slice. */
    static method IsConfiguredIdr(unit: Bytes) returns (configured: bool)
      ensures configured == ConfiguredIdr(unit)
    {
      hide Split, NalType, HasType, L.StartCodeFree;
      var nalus := SplitAnnexB(unit);
      if nalus.None? { return false; }
      var ns := nalus.value;
      L.SplitIsClean(unit);
      var sps, pps, idr := false, false, false;
      NoTypes();
      for i := 0 to |ns|
        invariant sps == HasType(ns[..i], 7) && pps == HasType(ns[..i], 8) && idr == HasType(ns[..i], 5)
      {
        assert ns[..i + 1] == ns[..i] + [ns[i]] && L.Clean(ns[i]);
        HasTypeSnoc(ns[..i], ns[i], 7);
        HasTypeSnoc(ns[..i], ns[i], 8);
        HasTypeSnoc(ns[..i], ns[i], 5);
        sps := sps || NalType(ns[i]) == 7;
        pps := pps || NalType(ns[i]) == 8;
        idr := idr || NalType(ns[i]) == 5;
      }
      assert ns[..|ns|] == ns;
      return sps && pps && idr;
    }

    method Reset() returns (next: int)
      modifies this
      ensures Snapshot() == M.Reset(old(Snapshot())) && next == generation
    {
      queue, bytes, waiting, resetSerial := [], 0, true, resetSerial + 1;
      generation := generation + 1;
      return generation;
    }

    method Invalidate()
      modifies this
      ensures Snapshot() == M.Invalidate(old(Snapshot()))
    {
      queue, bytes, waiting, resetSerial := [], 0, true, resetSerial + 1;
    }

    method Push(unit: Bytes, timestampUs: int, unitGeneration: int) returns (accepted: bool)
      modifies this
      ensures M.Pushed(Snapshot(), accepted) == M.Push(old(Snapshot()), unit, timestampUs, unitGeneration)
    {
      hide ConfiguredIdr;
      if unit == [] { return false; }
      var key := IsConfiguredIdr(unit);
      if unitGeneration != generation { return false; }
      if |unit| > M.MAX_QUEUED || |queue| >= M.MAX_FRAMES || |unit| > M.MAX_QUEUED - bytes {
        queue, bytes, waiting, resetSerial := [], 0, true, resetSerial + 1;
        return false;
      }
      if waiting && !key { return false; }
      if key { waiting := false; }
      queue := queue + [M.Unit(unit, timestampUs, unitGeneration, resetSerial)];
      bytes := bytes + |unit|;
      return true;
    }

    method Pop() returns (out: Option<M.Unit>)
      modifies this
      ensures M.Popped(Snapshot(), out) == M.Pop(old(Snapshot()))
    {
      if queue == [] { return None; }
      out := Some(queue[0]);
      bytes := bytes - |out.value.bytes|;
      queue := queue[1..];
    }

    method IsCurrent(unit: M.Unit) returns (current: bool)
      ensures current == M.Current(Snapshot(), unit)
    {
      return unit.generation == generation && unit.resetSerial == resetSerial;
    }
  }
}
