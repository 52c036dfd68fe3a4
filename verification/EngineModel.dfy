/** The receiver engine as a function of its state: it feeds two depacketizers, lets the DataChannel win over RTP,
    and routes keyframe requests. Handlers do not call back into the engine. */
module EngineModel {
  import opened Wire
  import opened AnnexB
  import opened RtpWire
  import opened Timing
  import Rtp = RtpModel
  import Dc = DcModel

  const KEYFRAME_THROTTLE_NS: int := 50_000_000

  datatype Transport = OverRtp | OverDataChannel

  datatype Frame = EncodedVideoFrame(annexB: Bytes, mediaTicks: int, transport: Transport, receivedNs: nat,
                                     generation: nat, randomAccess: bool)

  datatype Route = Rtcp | ControlChannel

  /** The handler calls the engine makes. The time of a request is not passed to its handler. */
  datatype Effect =
    | FrameOut(frame: Frame)
    | KeyframeRequest(route: Route, atNs: nat)
    | ControlOut(control: Dc.Control)
    | LossOut(atNs: nat)

  datatype Policy = Policy(payloadTypes: seq<Byte>, generation: nat, currentNs: nat, lastRequestNs: int,
                           haveVideoSsrc: bool, videoSsrc: U32, dcVideo: bool, dcOpen: bool, needKeyframe: bool)

  datatype State = State(rtp: Rtp.State, dc: Dc.State, rtpUnwrapper: Unwrapper, dcUnwrapper: Unwrapper, p: Policy)

  datatype Turn = Turn(s: State, effects: seq<Effect>)

  const INITIAL := State(Rtp.INITIAL, Dc.INITIAL, FRESH, FRESH, Policy([], 0, 0, -1, false, 0, false, false, true))

  function Do(t: Turn, e: Effect): Turn {
    t.(effects := t.effects + [e])
  }

  function SetPolicy(t: Turn, p: Policy): Turn {
    t.(s := t.s.(p := p))
  }

  function TryDispatch(t: Turn, now: nat): Turn {
    var p := t.s.p;
    if p.lastRequestNs >= 0 && now - p.lastRequestNs < KEYFRAME_THROTTLE_NS then t
    else Do(SetPolicy(t, p.(lastRequestNs := now)),
            KeyframeRequest(if p.dcVideo || p.dcOpen then ControlChannel else Rtcp, now))
  }

  function EmitFrame(t: Turn, data: Bytes, ticks: int, transport: Transport): Turn {
    var p := t.s.p;
    var key := ConfiguredIdr(data);
    Do(SetPolicy(t, p.(needKeyframe := p.needKeyframe && !key)),
       FrameOut(EncodedVideoFrame(data, ticks, transport, p.currentNs, p.generation, key)))
  }

  // ---------------------------------------------------------------- depacketizer callbacks

  function OnRtpOut(t: Turn, o: Rtp.Out): Turn {
    match o
    case Deliver(data, ticks) =>
      if t.s.p.dcVideo then t
      else
        var u := Unwrapped(t.s.rtpUnwrapper, ticks);
        EmitFrame(t.(s := t.s.(rtpUnwrapper := u)), data, u.unwrapped, OverRtp)
    case RequestKeyframe =>
      var lost := Do(t, LossOut(t.s.p.currentNs));
      TryDispatch(SetPolicy(lost, lost.s.p.(needKeyframe := true)), lost.s.p.currentNs)
  }

  function OnRtpOuts(t: Turn, outs: seq<Rtp.Out>): Turn
    decreases |outs|
  {
    if outs == [] then t else OnRtpOut(OnRtpOuts(t, outs[..|outs| - 1]), outs[|outs| - 1])
  }

  function OnControls(t: Turn, cs: seq<Dc.Control>): Turn
    decreases |cs|
  {
    if cs == [] then t else Do(OnControls(t, cs[..|cs| - 1]), ControlOut(cs[|cs| - 1]))
  }

  /** The first DataChannel access unit wins the path. */
  function OnDelivery(t: Turn, o: Dc.Output): Turn {
    var u := Unwrapped(t.s.dcUnwrapper, o.timestamp);
    var won := t.s.(dcUnwrapper := u, p := t.s.p.(dcVideo := true));
    EmitFrame(t.(s := won), o.data, u.unwrapped, OverDataChannel)
  }

  function OnDeliveries(t: Turn, fs: seq<Dc.Delivery>): Turn
    decreases |fs|
  {
    if fs == [] then t else OnDelivery(OnDeliveries(t, fs[..|fs| - 1]), fs[|fs| - 1].out)
  }

  function OnBatch(t: Turn, b: Dc.Batch): Turn {
    OnDeliveries(OnControls(t, b.controls), b.frames)
  }

  // ---------------------------------------------------------------- events

  /** The packet reaches the RTP depacketizer. */
  predicate Feeds(s: State, bytes: Bytes) {
    match ParseRtp(bytes)
    case None => false
    case Some(p) => p.payloadType in s.p.payloadTypes && !s.p.dcVideo
  }

  /** A new source starts a new timestamp domain. */
  function NoteSource(s: State, ssrc: U32): State {
    if s.p.haveVideoSsrc && s.p.videoSsrc == ssrc then s
    else s.(rtpUnwrapper := FRESH, p := s.p.(videoSsrc := ssrc, haveVideoSsrc := true))
  }

  function At(s: State, ns: nat): State {
    s.(p := s.p.(currentNs := ns))
  }

  function ProcessRtp(s: State, bytes: Bytes, ns: nat): Turn {
    var a := At(s, ns);
    match ParseRtp(bytes)
    case None => Turn(a, [])
    case Some(p) =>
      if p.payloadType !in a.p.payloadTypes then Turn(a, [])
      else
        var n := NoteSource(a, p.ssrc);
        if n.p.dcVideo then Turn(n, [])
        else
          var r := Rtp.Process(n.rtp, bytes);
          OnRtpOuts(Turn(n.(rtp := r.s), []), r.outs)
  }

  function ProcessDc(s: State, bytes: Bytes, ns: nat): Turn {
    var a := At(s, ns);
    var r := Dc.Process(a.dc, bytes, ns / 1000);
    OnBatch(Turn(a.(dc := r.s), []), r.b)
  }

  function OnTimer(s: State, ns: nat): Turn {
    var a := At(s, ns);
    var r := Dc.Tick(a.dc, ns / 1000);
    var t := OnBatch(Turn(a.(dc := r.s), []), r.b);
    if t.s.p.needKeyframe then TryDispatch(t, ns) else t
  }

  /** Both paths lose their packet state. */
  function CloseDc(s: State): State {
    State(Rtp.Reset(s.rtp), Dc.Reset(s.dc), FRESH, FRESH, s.p.(dcVideo := false, dcOpen := false, needKeyframe := true))
  }

  function Reset(s: State): State {
    var c := CloseDc(s);
    c.(p := c.p.(haveVideoSsrc := false, videoSsrc := 0, lastRequestNs := -1))
  }

  function RequestKeyframe(s: State, ns: nat): Turn {
    TryDispatch(Turn(s.(p := s.p.(needKeyframe := true)), []), ns)
  }

  datatype Event =
    | RtpPacketEvent(bytes: Bytes, ns: nat)
    | DcPacketEvent(bytes: Bytes, ns: nat)
    | TimerEvent(ns: nat)
    | RequestEvent(ns: nat)
    | DcOpened
    | DcClosed
    | ResetEvent
    | SetPayloadTypes(types: seq<Byte>)
    | SetGeneration(generation: nat)

  function Step(s: State, e: Event): Turn {
    match e
    case RtpPacketEvent(b, ns) => ProcessRtp(s, b, ns)
    case DcPacketEvent(b, ns) => ProcessDc(s, b, ns)
    case TimerEvent(ns) => OnTimer(s, ns)
    case RequestEvent(ns) => RequestKeyframe(s, ns)
    case DcOpened => Turn(s.(p := s.p.(dcOpen := true)), [])
    case DcClosed => Turn(CloseDc(s), [])
    case ResetEvent => Turn(Reset(s), [])
    case SetPayloadTypes(types) => Turn(s.(p := s.p.(payloadTypes := types)), [])
    case SetGeneration(g) => Turn(s.(p := s.p.(generation := g)), [])
  }
}
