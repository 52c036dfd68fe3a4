/** The receiver engine as it runs: two depacketizer objects, two unwrappers and the policy fields. */
module Engine {
  import opened Wire
  import opened AnnexB
  import opened RtpWire
  import opened Timing
  import opened RtpReceiver
  import opened DcReceiver
  import M = EngineModel
  import Rtp = RtpModel
  import Dc = DcModel

  class ReceiverEngine {
    const rtpDepacketizer: H264RtpDepacketizer
    const dcDepacketizer: DcVideoDepacketizer
    const rtpUnwrapper: TimestampUnwrapper32
    const dcUnwrapper: TimestampUnwrapper32
    var payloadTypes: seq<Byte>
    var generation: nat
    var currentNs: nat
    var lastRequestNs: int
    var haveVideoSsrc: bool
    var videoSsrc: U32
    var dcVideo: bool
    var dcOpen: bool
    var needKeyframe: bool

    /** The parts are objects of their own. */
    ghost predicate Valid() {
      rtpUnwrapper != dcUnwrapper
    }

    ghost function Repr(): set<object> {
      {this, rtpDepacketizer, dcDepacketizer, rtpUnwrapper, dcUnwrapper}
    }

    function Policy(): M.Policy
      reads this
    {
      M.Policy(payloadTypes, generation, currentNs, lastRequestNs, haveVideoSsrc, videoSsrc, dcVideo, dcOpen,
        needKeyframe)
    }

    function Snapshot(): M.State
      reads this, rtpDepacketizer, dcDepacketizer, rtpUnwrapper, dcUnwrapper
    {
      M.State(rtpDepacketizer.Snapshot(), dcDepacketizer.Snapshot(), rtpUnwrapper.Snapshot(), dcUnwrapper.Snapshot(),
        Policy())
    }

    constructor ()
      ensures Valid() && fresh(Repr()) && Snapshot() == M.INITIAL
    {
      var rtp := new H264RtpDepacketizer();
      var dc := new DcVideoDepacketizer();
      var u := new TimestampUnwrapper32();
      var v := new TimestampUnwrapper32();
      rtpDepacketizer, dcDepacketizer, rtpUnwrapper, dcUnwrapper := rtp, dc, u, v;
      payloadTypes, generation, currentNs, lastRequestNs := [], 0, 0, -1;
      haveVideoSsrc, videoSsrc, dcVideo, dcOpen, needKeyframe := false, 0, false, false, true;
    }

    // -------------------------------------------------------------- keyframe requests and frames

    method TryDispatch(now: nat, o: seq<M.Effect>) returns (r: seq<M.Effect>)
      requires Valid()
      modifies this
      ensures Snapshot() == old(Snapshot()).(p := Policy())
      ensures M.Turn(Snapshot(), r) == M.TryDispatch(M.Turn(old(Snapshot()), o), now)
    {
      r := o;
      if lastRequestNs >= 0 && now - lastRequestNs < M.KEYFRAME_THROTTLE_NS { return; }
      lastRequestNs := now;
      r := o + [M.KeyframeRequest(if dcVideo || dcOpen then M.ControlChannel else M.Rtcp, now)];
    }

    method EmitFrame(data: Bytes, ticks: int, transport: M.Transport, o: seq<M.Effect>) returns (r: seq<M.Effect>)
      requires Valid()
      modifies this
      ensures Snapshot() == old(Snapshot()).(p := Policy())
      ensures M.Turn(Snapshot(), r) == M.EmitFrame(M.Turn(old(Snapshot()), o), data, ticks, transport)
    {
      hide ConfiguredIdr;
      var key := ConfiguredIdr(data);
      if key { needKeyframe := false; }
      r := o + [M.FrameOut(M.EncodedVideoFrame(data, ticks, transport, currentNs, generation, key))];
    }

    // -------------------------------------------------------------- depacketizer callbacks

    method OnRtpOut(c: Rtp.Out, o: seq<M.Effect>) returns (r: seq<M.Effect>)
      requires Valid()
      modifies this, rtpUnwrapper
      ensures M.Turn(Snapshot(), r) == M.OnRtpOut(M.Turn(old(Snapshot()), o), c)
    {
      hide M.EmitFrame, M.TryDispatch, Unwrapped;
      r := o;
      match c
      case Deliver(data, ticks) =>
        if dcVideo { return; }
        var t := rtpUnwrapper.Unwrap(ticks);
        r := EmitFrame(data, t, M.OverRtp, r);
      case RequestKeyframe =>
        r := r + [M.LossOut(currentNs)];
        needKeyframe := true;
        r := TryDispatch(currentNs, r);
    }

    method OnRtpOuts(cs: seq<Rtp.Out>, o: seq<M.Effect>) returns (r: seq<M.Effect>)
      requires Valid()
      modifies this, rtpUnwrapper
      ensures M.Turn(Snapshot(), r) == M.OnRtpOuts(M.Turn(old(Snapshot()), o), cs)
    {
      hide M.OnRtpOut;
      r := o;
      assert cs[..0] == [];
      for i := 0 to |cs|
        invariant M.Turn(Snapshot(), r) == M.OnRtpOuts(M.Turn(old(Snapshot()), o), cs[..i])
      {
        assert cs[..i + 1][..i] == cs[..i] && cs[..i + 1][i] == cs[i];
        r := OnRtpOut(cs[i], r);
      }
      assert cs[..|cs|] == cs;
    }

    method OnDelivery(d: Dc.Output, o: seq<M.Effect>) returns (r: seq<M.Effect>)
      requires Valid()
      modifies this, dcUnwrapper
      ensures M.Turn(Snapshot(), r) == M.OnDelivery(M.Turn(old(Snapshot()), o), d)
    {
      hide M.EmitFrame, Unwrapped;
      dcVideo := true;
      var t := dcUnwrapper.Unwrap(d.timestamp);
      r := EmitFrame(d.data, t, M.OverDataChannel, o);
    }

    /** Control messages first, then the access units. */
    method OnBatch(b: Dc.Batch, o: seq<M.Effect>) returns (r: seq<M.Effect>)
      requires Valid()
      modifies this, dcUnwrapper
      ensures M.Turn(Snapshot(), r) == M.OnBatch(M.Turn(old(Snapshot()), o), b)
    {
      hide M.OnDelivery;
      r := o;
      ghost var t := M.Turn(Snapshot(), o);
      assert b.controls[..0] == [] && b.frames[..0] == [];
      for i := 0 to |b.controls|
        invariant Snapshot() == old(Snapshot()) && M.Turn(Snapshot(), r) == M.OnControls(t, b.controls[..i])
      {
        assert b.controls[..i + 1][..i] == b.controls[..i] && b.controls[..i + 1][i] == b.controls[i];
        r := r + [M.ControlOut(b.controls[i])];
      }
      assert b.controls[..|b.controls|] == b.controls;
      for i := 0 to |b.frames|
        invariant M.Turn(Snapshot(), r) == M.OnDeliveries(M.OnControls(t, b.controls), b.frames[..i])
      {
        assert b.frames[..i + 1][..i] == b.frames[..i] && b.frames[..i + 1][i] == b.frames[i];
        r := OnDelivery(b.frames[i].out, r);
      }
      assert b.frames[..|b.frames|] == b.frames;
    }

    // -------------------------------------------------------------- events

    method NoteSource(ssrc: U32)
      requires Valid()
      modifies this, rtpUnwrapper
      ensures Snapshot() == M.NoteSource(old(Snapshot()), ssrc)
    {
      if !haveVideoSsrc || videoSsrc != ssrc {
        rtpUnwrapper.Reset();
        videoSsrc, haveVideoSsrc := ssrc, true;
      }
    }

    method ProcessRtpVideoPacket(bytes: Bytes, ns: nat) returns (r: seq<M.Effect>)
      requires Valid()
      modifies Repr()
      ensures M.Turn(Snapshot(), r) == M.Step(old(Snapshot()), M.RtpPacketEvent(bytes, ns))
    {
      hide ParseRtp, Rtp.Process, M.OnRtpOuts, M.NoteSource;
      currentNs := ns;
      r := [];
      var packet := ParseRtp(bytes);
      if packet.None? || packet.value.payloadType !in payloadTypes { return; }
      NoteSource(packet.value.ssrc);
      if dcVideo { return; }
      var outs := rtpDepacketizer.ProcessRtpPacket(bytes);
      r := OnRtpOuts(outs, r);
    }

    method ProcessDataChannelPacket(bytes: Bytes, ns: nat) returns (r: seq<M.Effect>)
      requires Valid()
      modifies Repr()
      ensures M.Turn(Snapshot(), r) == M.Step(old(Snapshot()), M.DcPacketEvent(bytes, ns))
    {
      hide Dc.Process, M.OnBatch;
      currentNs := ns;
      var b := dcDepacketizer.ProcessPacketAt(bytes, ns / 1000);
      r := OnBatch(b, []);
    }

    method OnTimer(ns: nat) returns (r: seq<M.Effect>)
      requires Valid()
      modifies Repr()
      ensures M.Turn(Snapshot(), r) == M.Step(old(Snapshot()), M.TimerEvent(ns))
    {
      hide Dc.Tick, M.OnBatch, M.TryDispatch;
      currentNs := ns;
      var b := dcDepacketizer.OnTimerTickAt(ns / 1000);
      r := OnBatch(b, []);
      if needKeyframe { r := TryDispatch(ns, r); }
    }

    method OnDataChannelVideoClosed()
      requires Valid()
      modifies Repr()
      ensures Snapshot() == M.Step(old(Snapshot()), M.DcClosed).s
    {
      hide Dc.Reset, Rtp.Reset;
      dcVideo, dcOpen := false, false;
      dcDepacketizer.Reset();
      dcUnwrapper.Reset();
      rtpDepacketizer.Reset();
      rtpUnwrapper.Reset();
      needKeyframe := true;
    }

    method RequestKeyframe(ns: nat) returns (r: seq<M.Effect>)
      requires Valid()
      modifies this
      ensures M.Turn(Snapshot(), r) == M.Step(old(Snapshot()), M.RequestEvent(ns))
    {
      needKeyframe := true;
      r := TryDispatch(ns, []);
    }

    method Reset()
      requires Valid()
      modifies Repr()
      ensures Snapshot() == M.Step(old(Snapshot()), M.ResetEvent).s
    {
      hide M.CloseDc;
      OnDataChannelVideoClosed();
      haveVideoSsrc, videoSsrc, lastRequestNs := false, 0, -1;
    }

    method OnVideoDataChannelOpened()
      requires Valid()
      modifies this
      ensures Snapshot() == M.Step(old(Snapshot()), M.DcOpened).s
    {
      dcOpen := true;
    }
  }
}
