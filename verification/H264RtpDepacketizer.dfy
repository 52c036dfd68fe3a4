/** The RTP depacketizer as it runs: one buffer for the access unit, one for the fragmented unit, and flags. */
module RtpReceiver {
  import opened Wire
  import opened AnnexB
  import opened RtpWire
  import M = RtpModel

  /** What the units from `offset` on begin with. */
  lemma StapStep(p: Bytes, offset: nat, found: nat)
    requires offset < |p|
    ensures var left := |p| - offset - 2;
            var units := M.StapUnits(p[offset..], found);
            if left < 0 then units == None
            else
              var length := Be16(p[offset], p[offset + 1]);
              if length == 0 || length > left || found >= MAX_NALUS then units == None
              else
                var n := p[offset + 2..offset + 2 + length];
                units == if ValidNalu(n) then After([n], M.StapUnits(p[offset + 2 + length..], found + 1)) else None
  {
    hide ValidNalu, Be16, After;
    var rest := p[offset..];
    if |rest| >= 2 {
      var length := Be16(rest[0], rest[1]);
      if length <= |rest| - 2 {
        assert rest[2..2 + length] == p[offset + 2..offset + 2 + length];
        assert rest[2 + length..] == p[offset + 2 + length..];
      }
    }
  }

  lemma AfterNone(ns: seq<Nal>)
    ensures After(ns, None) == None
  {
  }

  lemma NoneRead()
    ensures M.TotalSize([]) == 0 && forall found: nat :: M.StapUnits([], found) == Some([])
  {
  }

  lemma OneMore(ns: seq<Nal>, n: Nal)
    ensures M.TotalSize(ns + [n]) == M.TotalSize(ns) + |n| + 4
  {
    var longer := ns + [n];
    assert longer[..|ns|] == ns;
  }

  class H264RtpDepacketizer {
    var au: Bytes
    var fu: Bytes
    var sps: Bytes
    var pps: Bytes
    var timestamp: U32
    var ssrc: U32
    var sequence: U16
    var fuHeader: Byte
    var haveSsrc: bool
    var haveSequence: bool
    var haveTimestamp: bool
    var waiting: bool
    var damaged: bool
    var idr: bool
    var vcl: bool
    var hasSps: bool
    var hasPps: bool

    function Collected(): M.Content
      reads this
    {
      M.Content(au, fu, fuHeader, sps, pps, idr, vcl, hasSps, hasPps)
    }

    function Snapshot(): M.State
      reads this
    {
      M.State(Collected(), timestamp, ssrc, sequence, haveSsrc, haveSequence, haveTimestamp, waiting, damaged)
    }

    constructor ()
      ensures Snapshot() == M.INITIAL
    {
      au, fu, sps, pps, timestamp, ssrc, sequence, fuHeader := [], [], [], [], 0, 0, 0, 0;
      haveSsrc, haveSequence, haveTimestamp, waiting := false, false, false, true;
      damaged, idr, vcl, hasSps, hasPps := false, false, false, false, false;
    }

    method ClearFlags()
      modifies this
      ensures Snapshot() == old(Snapshot()).(c := M.ClearFlags(old(Collected())))
    {
      idr, vcl, hasSps, hasPps := false, false, false, false;
    }

    method ClearAu()
      modifies this
      ensures Snapshot() == M.ClearAu(old(Snapshot()))
    {
      au, fu, damaged := [], [], false;
      ClearFlags();
    }

    method Reset()
      modifies this
      ensures Snapshot() == M.Reset(old(Snapshot()))
    {
      ClearAu();
      sps, pps := [], [];
      waiting, haveSsrc, haveSequence, haveTimestamp := true, false, false, false;
    }

    method Lose(o: seq<M.Out>) returns (r: seq<M.Out>)
      modifies this
      ensures M.Turn(Snapshot(), r) == M.Lose(M.Turn(old(Snapshot()), o))
    {
      au, fu, damaged, waiting := [], [], true, true;
      r := o + [M.RequestKeyframe];
    }

    method Remember(n: Nal)
      requires n != []
      modifies this
      ensures Snapshot() == old(Snapshot()).(c := M.Remember(old(Collected()), n))
    {
      if NalType(n) == 7 {
        if sps != n { pps := []; }
        sps, hasSps := n, true;
      } else if NalType(n) == 8 {
        pps, hasPps := n, true;
      }
    }

    method Extend(n: Nal)
      requires n != []
      modifies this
      ensures Snapshot() == old(Snapshot()).(c := M.Extend(old(Collected()), n))
    {
      hide Unit;
      var kind := NalType(n);
      idr := idr || kind == 5;
      vcl := vcl || 1 <= kind <= 5;
      au := AppendAnnexB(au, n);
    }

    method AppendNalu(n: Nal) returns (ok: bool)
      modifies this
      ensures M.Taken(Collected(), ok) == M.AppendNalu(old(Collected()), n)
      ensures Snapshot() == old(Snapshot()).(c := Collected())
    {
      hide M.Remember, M.Extend;
      if !ValidNalu(n) || |n| > MAX_ACCESS_UNIT_BYTES - 4 || |au| > MAX_ACCESS_UNIT_BYTES - |n| - 4 { return false; }
      if (NalType(n) == 7 || NalType(n) == 8) && |n| > M.MAX_PARAMETER_SET { return false; }
      Remember(n);
      Extend(n);
      return true;
    }

    /** The parameter sets put before an IDR that brought none. */
    method MissingSets() returns (o: Bytes)
      ensures o == M.Missing(Collected())
    {
      hide Unit;
      o := [];
      if !hasSps { o := AppendAnnexB(o, sps); }
      if !hasPps { o := AppendAnnexB(o, pps); }
      assert [] + Unit(pps) == Unit(pps);
    }

    method Emit(o: seq<M.Out>) returns (r: seq<M.Out>)
      modifies this
      ensures M.Turn(Snapshot(), r) == M.Emit(M.Turn(old(Snapshot()), o))
    {
      hide M.Missing, M.ClearAu;
      var good := !damaged && fu == [] && vcl && (!waiting || idr) && (!idr || (sps != [] && pps != []));
      var output: Bytes := [];
      var wait := waiting;
      if good {
        if idr {
          output := MissingSets();
          wait := false;
        }
        if |au| > MAX_ACCESS_UNIT_BYTES - |output| {
          output, wait := [], true;
        } else {
          output := output + au;
        }
      } else if vcl || fu != [] {
        wait := true;
      }
      var at := timestamp;
      ClearAu();
      waiting := wait;
      r := o;
      if output != [] {
        r := o + [M.Deliver(output, at)];
      } else if waiting {
        r := o + [M.RequestKeyframe];
      }
    }

    /** The length-prefixed units behind a STAP-A header, with their printed size. */
    static method ReadStap(p: Bytes) returns (units: Option<seq<Nal>>, total: nat)
      requires p != []
      ensures units == M.StapUnits(p[1..], 0)
      ensures units.Some? ==> total == M.TotalSize(units.value)
    {
      hide ValidNalu, Be16, After, M.StapUnits, M.TotalSize;
      var nalus: seq<Nal> := [];
      var offset := 1;
      total := 0;
      ghost var all := M.StapUnits(p[1..], 0);
      AfterAfter([], [], all);
      NoneRead();
      while offset < |p|
        invariant 1 <= offset <= |p|
        invariant all == After(nalus, M.StapUnits(p[offset..], |nalus|))
        invariant total == M.TotalSize(nalus)
        decreases |p| - offset
      {
        StapStep(p, offset, |nalus|);
        AfterNone(nalus);
        if |p| - offset < 2 { return None, total; }
        var length := Be16(p[offset], p[offset + 1]);
        offset := offset + 2;
        if length == 0 || length > |p| - offset || |nalus| >= MAX_NALUS { return None, total; }
        var n := p[offset..offset + length];
        if !ValidNalu(n) { return None, total; }
        AfterAfter(nalus, n, M.StapUnits(p[offset + length..], |nalus| + 1));
        total := total + length + 4;
        OneMore(nalus, n);
        nalus := nalus + [n];
        offset := offset + length;
      }
      assert p[offset..] == [];
      AfterAfter(nalus, [], all);
      return Some(nalus), total;
    }

    method TakeStap(p: Bytes) returns (ok: bool)
      requires p != []
      modifies this
      ensures M.Taken(Collected(), ok) == M.TakeStap(old(Collected()), p)
      ensures Snapshot() == old(Snapshot()).(c := Collected())
    {
      hide M.StapUnits, M.TotalSize, M.AppendNalu;
      var units, total := ReadStap(p);
      if units.None? { return false; }
      var nalus := units.value;
      ok := fu == [] && nalus != [] && total <= MAX_ACCESS_UNIT_BYTES - |au|;
      if !ok { return; }
      ghost var s := Collected();
      assert nalus[..0] == [];
      for i := 0 to |nalus|
        invariant ok && M.Taken(Collected(), true) == M.AppendAll(s, nalus[..i])
        invariant Snapshot() == old(Snapshot()).(c := Collected())
      {
        ghost var seen := nalus[..i + 1];
        assert seen[..|seen| - 1] == nalus[..i] && seen[|seen| - 1] == nalus[i];
        ok := AppendNalu(nalus[i]);
        if !ok {
          AppendAllStops(s, nalus, i + 1);
          return;
        }
      }
      assert nalus[..|nalus|] == nalus;
    }

    /** A refused unit ends the appending. */
    static lemma AppendAllStops(s: M.Content, ns: seq<Nal>, i: nat)
      requires i <= |ns| && !M.AppendAll(s, ns[..i]).ok
      ensures M.AppendAll(s, ns) == M.AppendAll(s, ns[..i])
      decreases |ns|
    {
      hide M.AppendNalu;
      if i == |ns| {
        assert ns[..i] == ns;
      } else {
        assert ns[..|ns| - 1][..i] == ns[..i];
        AppendAllStops(s, ns[..|ns| - 1], i);
      }
    }

    method OpenFragment(first: bool, header: Byte) returns (ok: bool)
      modifies this
      ensures M.Taken(Collected(), ok) == M.OpenFragment(old(Collected()), first, header)
      ensures Snapshot() == old(Snapshot()).(c := Collected())
    {
      if first {
        if fu != [] { return false; }
        fuHeader := header;
        fu := fu + [header];
      } else if fu == [] || fuHeader != header {
        return false;
      }
      return true;
    }

    method ExtendFragment(part: Bytes, last: bool) returns (ok: bool)
      modifies this
      ensures M.Taken(Collected(), ok) == M.ExtendFragment(old(Collected()), part, last)
      ensures Snapshot() == old(Snapshot()).(c := Collected())
    {
      hide M.AppendNalu;
      if |part| > MAX_ACCESS_UNIT_BYTES - 4 || |fu| > MAX_ACCESS_UNIT_BYTES - 4 - |part|
         || |au| > MAX_ACCESS_UNIT_BYTES - 4 - |part| - |fu| { return false; }
      fu := fu + part;
      ok := true;
      if last {
        ok := AppendNalu(fu);
        fu := [];
      }
    }

    method TakeFragment(p: Bytes) returns (ok: bool)
      requires p != []
      modifies this
      ensures M.Taken(Collected(), ok) == M.TakeFragment(old(Collected()), p)
      ensures Snapshot() == old(Snapshot()).(c := Collected())
    {
      hide M.OpenFragment, M.ExtendFragment;
      if |p| < 3 || (p[1] / 32) % 2 == 1 || p[1] % 32 == 0 || p[1] % 32 > 23 || p[1] >= 192 { return false; }
      ok := OpenFragment(p[1] >= 128, M.FragmentHeader(p));
      if ok { ok := ExtendFragment(p[2..], (p[1] / 64) % 2 == 1); }
    }

    method TakePayload(p: Bytes) returns (ok: bool)
      requires p != []
      modifies this
      ensures M.Taken(Collected(), ok) == M.TakePayload(old(Collected()), p)
      ensures Snapshot() == old(Snapshot()).(c := Collected())
    {
      hide M.AppendNalu, M.TakeStap, M.TakeFragment;
      var kind := p[0] % 32;
      if 1 <= kind <= 23 {
        if fu == [] { ok := AppendNalu(p); } else { ok := false; }
      } else if kind == 24 {
        ok := TakeStap(p);
      } else if kind == 28 {
        ok := TakeFragment(p);
      } else {
        ok := false;
      }
    }

    method SwitchSource(p: RtpPacket)
      modifies this
      ensures Snapshot() == M.SwitchSource(old(Snapshot()), p)
    {
      hide M.Reset;
      if haveSsrc && p.ssrc != ssrc { Reset(); }
      haveSsrc, ssrc := true, p.ssrc;
    }

    method Boundary(p: RtpPacket, gap: bool, o: seq<M.Out>) returns (r: seq<M.Out>)
      modifies this
      ensures M.Turn(Snapshot(), r) == M.Boundary(M.Turn(old(Snapshot()), o), p, gap)
    {
      hide M.Emit, M.Lose;
      r := o;
      if haveTimestamp && p.timestamp != timestamp {
        if gap || fu != [] { r := Lose(r); }
        r := Emit(r);
      }
      timestamp, haveTimestamp := p.timestamp, true;
    }

    /** The part of ProcessRtpPacket before the payload. */
    method Enter(p: RtpPacket) returns (stale: bool, r: seq<M.Out>)
      modifies this
      ensures stale == M.Stale(old(Snapshot()), p)
      ensures stale ==> Snapshot() == old(Snapshot()).(haveSsrc := true, ssrc := p.ssrc) && r == []
      ensures !stale ==> M.Turn(Snapshot(), r) == M.Enter(old(Snapshot()), p)
    {
      hide M.Boundary, M.Lose, SequenceDelta;
      r := [];
      SwitchSource(p);
      var gap := false;
      if haveSequence {
        var delta := SequenceDelta(p.sequence, sequence);
        if delta <= 0 { return true, r; }
        gap := delta != 1;
      }
      sequence, haveSequence := p.sequence, true;
      r := Boundary(p, gap, r);
      if gap { r := Lose(r); }
      stale := false;
    }

    method ProcessRtpPacket(bytes: Bytes) returns (r: seq<M.Out>)
      modifies this
      ensures M.Turn(Snapshot(), r) == M.Process(old(Snapshot()), bytes)
    {
      hide M.Emit, M.Lose, M.Enter, M.Stale, M.TakePayload, ParseRtp;
      r := [];
      var parsed := ParseRtp(bytes);
      if parsed.None? { r := Lose(r); return; }
      var p := parsed.value;
      var stale;
      stale, r := Enter(p);
      if stale { return; }
      if damaged {
        if p.marker {
          ClearAu();
          haveTimestamp := false;
        }
        return;
      }
      if p.payload[0] >= 128 { r := Lose(r); return; }
      var ok := TakePayload(p.payload);
      if !ok { r := Lose(r); }
      if p.marker {
        r := Emit(r);
        haveTimestamp := false;
      }
    }
  }
}
