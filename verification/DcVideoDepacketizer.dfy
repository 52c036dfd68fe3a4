/** The DataChannel video depacketizer as it runs: fields updated in place, loops in key order. */
module DcReceiver {
  import opened Wire
  import opened AnnexB
  import M = DcModel

  lemma PrintSnoc(ns: seq<Nal>, n: Nal)
    ensures Print(ns + [n]) == Print(ns) + Unit(n)
  {
    PrintAppend(ns, [n]);
    assert [n][1..] == [];
    assert Print([n]) == Unit(n) + Print([]);
  }

  class DcVideoDepacketizer {
    var pending: M.Pending
    var bytes: int
    var expected: U16
    var initialized: bool
    var waiting: bool
    var lastPli: int
    var lastIncrease: int
    var sps: Bytes
    var pps: Bytes
    var bitrate: int
    var period: nat    // bookkeeping, see DcModel.Delivery
    var position: nat  // bookkeeping, see DcModel.Delivery

    function Snapshot(): M.State
      reads this
    {
      M.State(pending, bytes, expected, initialized, waiting, lastPli, lastIncrease, sps, pps, bitrate, period,
        position)
    }

    constructor ()
      ensures Snapshot() == M.INITIAL
    {
      pending, bytes, expected, initialized, waiting := map[], 0, 0, false, true;
      lastPli, lastIncrease, sps, pps, bitrate, period, position := -1, -1, [], [], 3000000, 0, 0;
    }

    method Reset()
      modifies this
      ensures Snapshot() == M.Reset(old(Snapshot()))
    {
      pending, bytes, expected, initialized, waiting := map[], 0, 0, false, true;
      sps, pps, lastPli, lastIncrease, bitrate := [], [], -1, -1, 3000000;
    }

    method Erase(k: U16)
      requires k in pending
      modifies this
      ensures Snapshot() == M.Erase(old(Snapshot()), k)
    {
      bytes := bytes - pending[k].bytes;
      pending := pending - {k};
    }

    method Recover(now: int, b: M.Batch) returns (r: M.Batch)
      modifies this
      ensures M.Turn(Snapshot(), r) == M.Recover(M.Turn(old(Snapshot()), b), now)
    {
      r := b;
      waiting := true;
      if lastPli < 0 || now - lastPli >= M.PLI_US {
        lastPli, lastIncrease := now, now;
        bitrate := if bitrate * 85 / 100 > M.MIN_BITRATE then bitrate * 85 / 100 else M.MIN_BITRATE;
        r := M.Batch(b.frames, b.controls + [M.Pli] + [M.Bitrate(bitrate)]);
        assert b.controls + [M.Pli] + [M.Bitrate(bitrate)] == b.controls + [M.Pli, M.Bitrate(bitrate)];
      }
    }

    // -------------------------------------------------------------- assembling one frame

    static method Raw(chunks: seq<Bytes>) returns (raw: Bytes)
      ensures raw == Concat(chunks)
    {
      raw := [];
      assert chunks[..0] == [];
      for i := 0 to |chunks|
        invariant raw == Concat(chunks[..i])
      {
        ConcatSnoc(chunks[..i], chunks[i]);
        assert chunks[..i + 1] == chunks[..i] + [chunks[i]];
        raw := raw + chunks[i];
      }
      assert chunks[..|chunks|] == chunks;
    }

    /** The IDR flag and the last parameter sets of a unit list. */
    static method Inspect(nalus: seq<Nal>) returns (idr: bool, sps: Nal, pps: Nal)
      ensures idr == HasType(nalus, 5) && sps == M.LastOf(nalus, 7) && pps == M.LastOf(nalus, 8)
    {
      idr, sps, pps := false, [], [];
      assert nalus[..0] == [];
      for i := 0 to |nalus|
        invariant idr == HasType(nalus[..i], 5)
        invariant sps == M.LastOf(nalus[..i], 7)
        invariant pps == M.LastOf(nalus[..i], 8)
      {
        var n := nalus[i];
        ghost var seen := nalus[..i + 1];
        assert seen == nalus[..i] + [n] && seen[|seen| - 1] == n && seen[..|seen| - 1] == nalus[..i];
        HasTypeSnoc(nalus[..i], n, 5);
        if n != [] {
          if NalType(n) == 5 { idr := true; }
          else if NalType(n) == 7 { sps := n; }
          else if NalType(n) == 8 { pps := n; }
        }
      }
      assert nalus[..|nalus|] == nalus;
    }

    static method PrintAccessUnit(nalus: seq<Nal>, idr: bool, sps: Nal, pps: Nal) returns (data: Bytes)
      ensures data == Print(M.AccessUnit(nalus, idr, sps, pps))
    {
      data := [0, 0, 0, 1, 9, 0xf0];
      ghost var head := [M.AUD];
      assert head[1..] == [];
      assert data == Unit(M.AUD) + Print(head[1..]);
      if idr {
        data := AppendAnnexB(data, sps);
        PrintSnoc(head, sps);
        data := AppendAnnexB(data, pps);
        PrintSnoc(head + [sps], pps);
        assert head + [sps] + [pps] == head + [sps, pps];
        head := head + [sps, pps];
      }
      assert nalus[..0] == [];
      assert head + [] == head;
      for i := 0 to |nalus|
        invariant data == Print(head + M.KeptUnits(nalus[..i], idr))
      {
        var n := nalus[i];
        ghost var seen := nalus[..i + 1];
        assert seen[|seen| - 1] == n && seen[..|seen| - 1] == nalus[..i];
        ghost var before := head + M.KeptUnits(nalus[..i], idr);
        if M.Kept(n, idr) {
          data := AppendAnnexB(data, n);
          PrintSnoc(before, n);
          assert before + [n] == head + M.KeptUnits(seen, idr);
        } else {
          assert M.KeptUnits(seen, idr) == M.KeptUnits(nalus[..i], idr) + [] == M.KeptUnits(nalus[..i], idr);
        }
      }
      assert nalus[..|nalus|] == nalus;
    }

    method Assemble(f: M.Frame) returns (out: Option<M.Output>)
      modifies this
      ensures M.Assembly(Snapshot(), out) == M.Assemble(old(Snapshot()), f)
    {
      hide HasType, M.LastOf, M.AccessUnit, Print, Split, SplitLengths, Concat;
      var raw := Raw(f.chunks);
      var parsed := SplitAnnexB(raw);
      if parsed.None? {
        parsed := SplitLengthPrefixed4(raw);
        if parsed.None? { return None; }
      }
      var nalus := parsed.value;
      var idr, newSps, newPps := Inspect(nalus);
      if newSps != [] || newPps != [] {
        if newSps == [] || newPps == [] {
          sps, pps := [], [];
          return None;
        }
        sps, pps := newSps, newPps;
      }
      if f.stableFlags % 2 == 1 && !idr { return None; }
      if waiting && !idr { return None; }
      if idr && (sps == [] || pps == []) { return None; }
      var data := PrintAccessUnit(nalus, idr, sps, pps);
      if idr { waiting := false; }
      return Some(M.Output(data, f.timestamp));
    }

    // -------------------------------------------------------------- draining

    method ExpireFrames(now: int, b: M.Batch) returns (r: M.Batch)
      modifies this
      ensures M.Turn(Snapshot(), r) == M.Expire(M.Turn(old(Snapshot()), b), now)
    {
      hide M.Recover, M.Erase, M.Expired;
      r := b;
      for k := 0 to 0x1_0000
        invariant M.Turn(Snapshot(), r) == M.ExpireBelow(M.Turn(old(Snapshot()), b), k, now)
      {
        if k in pending && M.Expired(pending[k], now) {
          var needed := !initialized || SequenceDelta(k, expected) >= 0;
          Erase(k);
          if needed { r := Recover(now, r); }
        }
      }
    }

    method ChooseFirst()
      modifies this
      ensures Snapshot() == M.Initialize(old(Snapshot()))
    {
      if initialized { return; }
      var first: Option<U16> := None;
      for k := 0 to 0x1_0000
        invariant Snapshot() == old(Snapshot())
        invariant first == M.FirstBelow(pending, k)
      {
        if k in pending && M.Complete(pending[k]) && pending[k].stableFlags % 2 == 1
           && (first.None? || pending[k].arrival < pending[first.value].arrival) {
          first := Some(k);
        }
      }
      if first.None? { return; }
      expected, initialized, period, position := first.value, true, period + 1, first.value;
    }

    method FindNearest() returns (next: Option<U16>)
      ensures next == M.Nearest(Snapshot())
    {
      next := None;
      for k := 0 to 0x1_0000
        invariant next == M.NearestBelow(pending, expected, k)
      {
        if k in pending {
          var d := SequenceDelta(k, expected);
          if d >= 0 && (next.None? || d < SequenceDelta(next.value, expected)) { next := Some(k); }
        }
      }
    }

    method StepOver()
      requires expected in pending
      modifies this
      ensures Snapshot() == M.StepOver(old(Snapshot()))
    {
      Erase(expected);
      expected, position := (expected + 1) % 0x1_0000, position + 1;
    }

    method ConsumeExpected(now: int, b: M.Batch) returns (r: M.Batch)
      requires expected in pending
      modifies this
      ensures M.Turn(Snapshot(), r) == M.Consume(M.Turn(old(Snapshot()), b), now)
    {
      hide M.Assemble, M.Recover, M.StepOver;
      var out := Assemble(pending[expected]);
      if out.Some? {
        r := b.(frames := b.frames + [M.Delivery(out.value, expected, period, position)]);
      } else {
        r := Recover(now, b);
      }
      StepOver();
    }

    /** The loop that delivers, abandons and jumps, until it has to wait. */
    method AdvanceFrames(now: int, b: M.Batch) returns (r: M.Batch)
      modifies this
      ensures M.Turn(Snapshot(), r) == M.Advance(M.Turn(old(Snapshot()), b), now)
    {
      hide M.Consume, M.Recover, M.Nearest, M.StepOver, M.Complete;
      r := b;
      while pending != map[]
        invariant M.Advance(M.Turn(Snapshot(), r), now) == M.Advance(M.Turn(old(Snapshot()), b), now)
        decreases |pending|, if expected in pending then 0 else 1
      {
        ghost var t := M.Turn(Snapshot(), r);
        if expected in pending {
          var f := pending[expected];
          M.ErasedIsSmaller(pending, expected);
          if M.Complete(f) {
            r := ConsumeExpected(now, r);
            continue;
          }
          if now - f.arrival >= M.SKIP_US {
            StepOver();
            r := Recover(now, r);
            assert M.Turn(Snapshot(), r) == M.Abandon(t, now);
            continue;
          }
          return;
        }
        var next := FindNearest();
        if next.None? { return; }
        if now - pending[next.value].arrival < M.SKIP_US { return; }
        position := position + SequenceDelta(next.value, expected);
        expected := next.value;
        r := Recover(now, r);
        assert M.Turn(Snapshot(), r) == M.Jump(t, next.value, now);
      }
    }

    method TrimStale()
      modifies this
      ensures Snapshot() == M.TrimBelow(old(Snapshot()), 0x1_0000)
    {
      hide M.Erase;
      for k := 0 to 0x1_0000
        invariant Snapshot() == M.TrimBelow(old(Snapshot()), k)
      {
        if k in pending && SequenceDelta(k, expected) < 0 { Erase(k); }
      }
    }

    method RaiseBitrate(now: int, b: M.Batch) returns (r: M.Batch)
      modifies this
      ensures M.Turn(Snapshot(), r) == M.RaiseRate(M.Turn(old(Snapshot()), b), now)
    {
      r := b;
      if !waiting && b.frames != [] {
        if lastIncrease < 0 {
          lastIncrease := now;
        } else if now - lastIncrease >= M.RAISE_US {
          bitrate := if bitrate + 300000 < M.MAX_BITRATE then bitrate + 300000 else M.MAX_BITRATE;
          lastIncrease := now;
          r := r.(controls := r.controls + [M.Bitrate(bitrate)]);
        }
      }
    }

    method Drain(now: int, b: M.Batch) returns (r: M.Batch)
      modifies this
      ensures M.Turn(Snapshot(), r) == M.Drain(M.Turn(old(Snapshot()), b), now)
    {
      hide M.Expire, M.Initialize, M.Advance, M.TrimBelow, M.RaiseRate;
      r := ExpireFrames(now, b);
      ChooseFirst();
      if !initialized { return; }
      r := AdvanceFrames(now, r);
      TrimStale();
      r := RaiseBitrate(now, r);
    }

    // -------------------------------------------------------------- packets

    method StoreChunk(c: M.Chunk, now: int, b: M.Batch) returns (r: M.Batch)
      requires c.index < c.count
      modifies this
      ensures M.Turn(Snapshot(), r) == M.Store(M.Turn(old(Snapshot()), b), c, now)
    {
      hide M.Recover, M.SameHeader, M.AddChunk;
      r := b;
      if c.seqNo !in pending { pending := pending[c.seqNo := M.FreshFrame(c, now)]; }
      var f := pending[c.seqNo];
      ghost var s := Snapshot();
      assert old(pending)[c.seqNo := f] == pending;
      if !M.SameHeader(f, c) {
        Erase(c.seqNo);
        r := Recover(now, r);
      } else {
        HeaderCount(f, c);
        if f.chunks[c.index] == [] {
          pending := pending[c.seqNo := M.AddChunk(f, c)];
          bytes := bytes + |c.payload|;
        } else if f.chunks[c.index] != c.payload {
          Erase(c.seqNo);
          r := Recover(now, r);
        }
      }
    }

    static lemma HeaderCount(f: M.Frame, c: M.Chunk)
      requires M.SameHeader(f, c)
      ensures f.count == c.count
    {
    }

    method ProcessPacketAt(p: Bytes, now: int) returns (r: M.Batch)
      modifies this
      ensures M.Turn(Snapshot(), r) == M.Process(old(Snapshot()), p, now)
    {
      hide M.Drain, M.Store, M.Recover, M.ParseChunk;
      r := M.EMPTY_BATCH;
      var parsed := M.ParseChunk(p);
      if now < 0 || parsed.None? { return; }
      var c := parsed.value;
      r := Drain(now, r);
      if initialized && SequenceDelta(c.seqNo, expected) < 0 { return; }
      if (c.seqNo !in pending && |pending| >= M.MAX_PENDING_FRAMES) || bytes + |c.payload| > M.MAX_PENDING_BYTES {
        pending, bytes, initialized := map[], 0, false;
        r := Recover(now, r);
      } else {
        r := StoreChunk(c, now, r);
        r := Drain(now, r);
      }
    }

    method OnTimerTickAt(now: int) returns (r: M.Batch)
      modifies this
      ensures M.Turn(Snapshot(), r) == M.Tick(old(Snapshot()), now)
    {
      hide M.Drain, M.Recover;
      r := M.EMPTY_BATCH;
      if now < 0 { return; }
      r := Drain(now, r);
      if waiting { r := Recover(now, r); }
    }
  }
}
