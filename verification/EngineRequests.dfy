/** Keyframe recovery of the engine over runs: when a keyframe is still needed, and how soon it is asked for again. */
module EngineRequests {
  import opened Wire
  import opened AnnexB
  import opened RtpWire
  import opened Timing
  import opened EngineModel
  import opened EngineChain
  import opened EngineEffects
  import Rtp = RtpModel
  import Dc = DcModel

  /** What bears on the need for a keyframe, as the handlers and the caller see it: a loss, a
      request or a restart, and a frame a decoder can start at. */
  datatype Sign = Needed | Started

  function SignOf(e: Effect): seq<Sign> {
    match e
    case FrameOut(f) => if ConfiguredIdr(f.annexB) then [Started] else []
    case LossOut(_) => [Needed]
    case _ => []
  }

  function SignsOf(effects: seq<Effect>): seq<Sign> {
    if effects == [] then [] else SignsOf(effects[..|effects| - 1]) + SignOf(effects[|effects| - 1])
  }

  /** What the caller's own event says. */
  function CallSign(e: Event): seq<Sign> {
    if e.RequestEvent? || e.DcClosed? || e.ResetEvent? then [Needed] else []
  }

  /** A keyframe is needed unless a frame to start at came since it last was. */
  predicate StillNeeded(signs: seq<Sign>) {
    signs == [] || signs[|signs| - 1] == Needed
  }

  ghost predicate Tells(past: seq<Sign>, t: Turn) {
    t.s.p.needKeyframe == StillNeeded(past + SignsOf(t.effects))
  }

  lemma SignsSnoc(effects: seq<Effect>, e: Effect)
    ensures SignsOf(effects + [e]) == SignsOf(effects) + SignOf(e)
  {
    assert (effects + [e])[..|effects|] == effects;
  }

  lemma {:induction false} SignsConcat(xs: seq<Effect>, ys: seq<Effect>)
    ensures SignsOf(xs + ys) == SignsOf(xs) + SignsOf(ys)
    decreases |ys|
  {
    hide SignOf;
    if ys == [] {
      assert xs + ys == xs;
    } else {
      assert (xs + ys)[..|xs + ys| - 1] == xs + ys[..|ys| - 1];
      SignsConcat(xs, ys[..|ys| - 1]);
    }
  }

  lemma TellsDependsOn(past: seq<Sign>, t: Turn, u: Turn)
    requires u.effects == t.effects && u.s.p.needKeyframe == t.s.p.needKeyframe
    ensures Tells(past, t) == Tells(past, u)
  {
  }

  // ---------------------------------------------------------------- the callbacks

  /** One more effect: its sign, if it has one, decides. */
  lemma DoTells(past: seq<Sign>, t: Turn, u: Turn, e: Effect)
    requires Tells(past, t) && u.effects == t.effects + [e]
    requires u.s.p.needKeyframe == if SignOf(e) == [] then t.s.p.needKeyframe else SignOf(e) == [Needed]
    ensures Tells(past, u)
  {
    SignsSnoc(t.effects, e);
    AtMostOneSign(e);
    StillSnoc(past, SignsOf(t.effects), SignOf(e));
    hide SignOf, SignsOf, StillNeeded;
  }

  lemma AtMostOneSign(e: Effect)
    ensures |SignOf(e)| <= 1
  {
    hide ConfiguredIdr;
  }

  lemma StillSnoc(past: seq<Sign>, signs: seq<Sign>, more: seq<Sign>)
    requires |more| <= 1
    ensures StillNeeded(past + (signs + more)) == if more == [] then StillNeeded(past + signs) else more == [Needed]
  {
    var all := past + (signs + more);
    if more == [] {
      assert all == past + signs;
    } else {
      assert all[|all| - 1] == more[0];
    }
  }

  lemma EmitTells(past: seq<Sign>, t: Turn, data: Bytes, ticks: int, transport: Transport)
    requires Tells(past, t)
    ensures Tells(past, EmitFrame(t, data, ticks, transport))
  {
    hide ConfiguredIdr, Tells;
    var u := EmitFrame(t, data, ticks, transport);
    DoTells(past, t, u, u.effects[|t.effects|]);
  }

  lemma DispatchTells(past: seq<Sign>, t: Turn, now: nat)
    requires Tells(past, t)
    ensures Tells(past, TryDispatch(t, now))
  {
    hide Tells;
    var u := TryDispatch(t, now);
    if u != t { DoTells(past, t, u, u.effects[|t.effects|]); }
  }

  lemma RtpOutTells(past: seq<Sign>, t: Turn, o: Rtp.Out)
    requires Tells(past, t)
    ensures Tells(past, OnRtpOut(t, o))
  {
    hide Tells, EmitFrame, TryDispatch, Unwrapped;
    match o
    case Deliver(data, ticks) =>
      if !t.s.p.dcVideo {
        var u := Unwrapped(t.s.rtpUnwrapper, ticks);
        TellsDependsOn(past, t, t.(s := t.s.(rtpUnwrapper := u)));
        EmitTells(past, t.(s := t.s.(rtpUnwrapper := u)), data, u.unwrapped, OverRtp);
      }
    case RequestKeyframe =>
      var lost := Do(t, LossOut(t.s.p.currentNs));
      var asked := SetPolicy(lost, lost.s.p.(needKeyframe := true));
      DoTells(past, t, asked, LossOut(t.s.p.currentNs));
      DispatchTells(past, asked, lost.s.p.currentNs);
  }

  lemma {:induction false} RtpOutsTell(past: seq<Sign>, t: Turn, outs: seq<Rtp.Out>)
    requires Tells(past, t)
    ensures Tells(past, OnRtpOuts(t, outs))
    decreases |outs|
  {
    hide Tells, OnRtpOut;
    if outs != [] {
      RtpOutsTell(past, t, outs[..|outs| - 1]);
      RtpOutTells(past, OnRtpOuts(t, outs[..|outs| - 1]), outs[|outs| - 1]);
    }
  }

  lemma {:induction false} ControlsTell(past: seq<Sign>, t: Turn, cs: seq<Dc.Control>)
    requires Tells(past, t)
    ensures Tells(past, OnControls(t, cs))
    decreases |cs|
  {
    hide Tells;
    if cs != [] {
      ControlsTell(past, t, cs[..|cs| - 1]);
      DoTells(past, OnControls(t, cs[..|cs| - 1]), OnControls(t, cs), ControlOut(cs[|cs| - 1]));
    }
  }

  lemma {:induction false} DeliveriesTell(past: seq<Sign>, t: Turn, fs: seq<Dc.Delivery>)
    requires Tells(past, t)
    ensures Tells(past, OnDeliveries(t, fs))
    decreases |fs|
  {
    hide Tells, EmitFrame, Unwrapped;
    if fs != [] {
      var r, o := OnDeliveries(t, fs[..|fs| - 1]), fs[|fs| - 1].out;
      DeliveriesTell(past, t, fs[..|fs| - 1]);
      var u := Unwrapped(r.s.dcUnwrapper, o.timestamp);
      var won := r.(s := r.s.(dcUnwrapper := u, p := r.s.p.(dcVideo := true)));
      TellsDependsOn(past, r, won);
      EmitTells(past, won, o.data, u.unwrapped, OverDataChannel);
    }
  }

  lemma BatchTells(past: seq<Sign>, t: Turn, b: Dc.Batch)
    requires Tells(past, t)
    ensures Tells(past, OnBatch(t, b))
  {
    hide Tells;
    ControlsTell(past, t, b.controls);
    DeliveriesTell(past, OnControls(t, b.controls), b.frames);
  }

  // ---------------------------------------------------------------- one event

  lemma RtpEventTells(past: seq<Sign>, s: State, b: Bytes, ns: nat)
    requires Tells(past, Turn(s, []))
    ensures Tells(past, ProcessRtp(s, b, ns))
  {
    hide Tells, Rtp.Process, ParseRtp, OnRtpOuts;
    var a := At(s, ns);
    TellsDependsOn(past, Turn(s, []), Turn(a, []));
    if ParseRtp(b).Some? {
      var n := NoteSource(a, ParseRtp(b).value.ssrc);
      TellsDependsOn(past, Turn(s, []), Turn(n, []));
      var r := Rtp.Process(n.rtp, b);
      TellsDependsOn(past, Turn(s, []), Turn(n.(rtp := r.s), []));
      RtpOutsTell(past, Turn(n.(rtp := r.s), []), r.outs);
    }
  }

  lemma DcEventTells(past: seq<Sign>, s: State, ns: nat, r: Dc.Turn)
    requires Tells(past, Turn(s, []))
    ensures Tells(past, OnBatch(Turn(At(s, ns).(dc := r.s), []), r.b))
  {
    hide Tells, OnBatch;
    var t := Turn(At(s, ns).(dc := r.s), []);
    TellsDependsOn(past, Turn(s, []), t);
    BatchTells(past, t, r.b);
  }

  /** A call that says a keyframe is needed. */
  lemma CallTells(past: seq<Sign>, r: State)
    requires r.p.needKeyframe
    ensures Tells(past + [Needed], Turn(r, []))
  {
    assert past + [Needed] + [] == past + [Needed];
  }

  lemma StepTells(past: seq<Sign>, s: State, e: Event)
    requires Tells(past, Turn(s, []))
    ensures Tells(past + CallSign(e), Step(s, e))
  {
    hide Tells, ProcessRtp, Dc.Process, Dc.Tick, OnBatch, TryDispatch;
    assert past + [] == past;
    match e
    case RtpPacketEvent(b, ns) => RtpEventTells(past, s, b, ns);
    case DcPacketEvent(b, ns) => DcEventTells(past, s, ns, Dc.Process(s.dc, b, ns / 1000));
    case TimerEvent(ns) =>
      var r := Dc.Tick(s.dc, ns / 1000);
      DcEventTells(past, s, ns, r);
      DispatchTells(past, OnBatch(Turn(At(s, ns).(dc := r.s), []), r.b), ns);
    case RequestEvent(ns) =>
      CallTells(past, s.(p := s.p.(needKeyframe := true)));
      DispatchTells(past + [Needed], Turn(s.(p := s.p.(needKeyframe := true)), []), ns);
    case DcClosed => CallTells(past, Step(s, e).s);
    case ResetEvent => CallTells(past, Step(s, e).s);
    case _ => TellsDependsOn(past, Turn(s, []), Step(s, e));
  }

  // ---------------------------------------------------------------- runs

  /** The signs of a run in order: of each event first what the caller says, then what the handlers see. */
  function Signs(es: seq<Event>): seq<Sign> {
    if es == [] then []
    else Signs(es[..|es| - 1]) + CallSign(es[|es| - 1]) + SignsOf(Step(Run(es[..|es| - 1]).s, es[|es| - 1]).effects)
  }

  /** In every run a keyframe is needed exactly until a frame with SPS, PPS and IDR comes, and again from the next loss,
      request, close or reset on. */
  lemma {:induction false} NeedIs(es: seq<Event>)
    ensures Run(es).s.p.needKeyframe <==> StillNeeded(Signs(es))
  {
    hide Step, Items, CallSign, SignsOf;
    if es != [] {
      var h, e, past := Run(es[..|es| - 1]), es[|es| - 1], Signs(es[..|es| - 1]);
      NeedIs(es[..|es| - 1]);
      NoSigns(past);
      StepTells(past, h.s, e);
    }
  }

  lemma NoSigns(past: seq<Sign>)
    ensures past + SignsOf([]) == past
  {
  }

  // ---------------------------------------------------------------- asking again

  /** The time an event carries. */
  function TimeOf(e: Event): int {
    match e
    case RtpPacketEvent(_, ns) => ns
    case DcPacketEvent(_, ns) => ns
    case TimerEvent(ns) => ns
    case RequestEvent(ns) => ns
    case _ => -1
  }

  /** No event is earlier than one before it. */
  ghost predicate Monotone(es: seq<Event>) {
    forall i, j :: 0 <= i < j < |es| && TimeOf(es[j]) >= 0 ==> TimeOf(es[i]) <= TimeOf(es[j])
  }

  lemma DispatchAsks(t: Turn, now: nat)
    ensures var last := TryDispatch(t, now).s.p.lastRequestNs;
            last >= 0 && now - last < KEYFRAME_THROTTLE_NS
    ensures TryDispatch(t, now).s.p.needKeyframe == t.s.p.needKeyframe
  {
  }

  /** A tick asks again if a keyframe is still needed and the last request is 50 ms old. */
  lemma TickAsks(s: State, ns: nat)
    ensures var p := OnTimer(s, ns).s.p;
            p.needKeyframe ==> p.lastRequestNs >= 0 && ns - p.lastRequestNs < KEYFRAME_THROTTLE_NS
  {
    hide Dc.Tick, OnBatch, TryDispatch;
    var r := Dc.Tick(s.dc, ns / 1000);
    DispatchAsks(OnBatch(Turn(At(s, ns).(dc := r.s), []), r.b), ns);
  }

  // ---------------------------------------------------------------- no request lies ahead of the clock

  lemma {:induction false} RtpOutsAsk(t: Turn, outs: seq<Rtp.Out>)
    ensures var p := OnRtpOuts(t, outs).s.p;
            p.currentNs == t.s.p.currentNs && p.lastRequestNs in {t.s.p.lastRequestNs, t.s.p.currentNs}
    decreases |outs|
  {
    hide ConfiguredIdr, Unwrapped;
    if outs != [] { RtpOutsAsk(t, outs[..|outs| - 1]); }
  }

  lemma {:induction false} DeliveriesAsk(t: Turn, fs: seq<Dc.Delivery>)
    ensures OnDeliveries(t, fs).s.p.lastRequestNs == t.s.p.lastRequestNs
    decreases |fs|
  {
    hide ConfiguredIdr, Unwrapped;
    if fs != [] { DeliveriesAsk(t, fs[..|fs| - 1]); }
  }

  lemma BatchAsks(t: Turn, b: Dc.Batch)
    ensures OnBatch(t, b).s.p.lastRequestNs == t.s.p.lastRequestNs
  {
    hide OnDeliveries;
    ControlsKeep(t, b.controls);
    DeliveriesAsk(OnControls(t, b.controls), b.frames);
  }

  /** The remembered request is of now or of before, or forgotten. */
  lemma StepAsks(s: State, e: Event)
    ensures Step(s, e).s.p.lastRequestNs in {s.p.lastRequestNs, TimeOf(e), -1}
  {
    hide Rtp.Process, ParseRtp, OnRtpOuts, Dc.Process, Dc.Tick, OnBatch;
    match e
    case RtpPacketEvent(b, ns) =>
      if ParseRtp(b).Some? {
        var n := NoteSource(At(s, ns), ParseRtp(b).value.ssrc);
        var r := Rtp.Process(n.rtp, b);
        RtpOutsAsk(Turn(n.(rtp := r.s), []), r.outs);
      }
    case DcPacketEvent(b, ns) =>
      var r := Dc.Process(s.dc, b, ns / 1000);
      BatchAsks(Turn(At(s, ns).(dc := r.s), []), r.b);
    case TimerEvent(ns) =>
      var r := Dc.Tick(s.dc, ns / 1000);
      BatchAsks(Turn(At(s, ns).(dc := r.s), []), r.b);
    case _ =>
  }

  /** The remembered request was made at the time of an event. */
  lemma {:induction false} AskedAtAnEvent(es: seq<Event>)
    ensures var last := Run(es).s.p.lastRequestNs;
            last >= 0 ==> exists i :: 0 <= i < |es| && TimeOf(es[i]) == last
  {
    hide Step, Items, TimeOf;
    if es != [] {
      var earlier := es[..|es| - 1];
      AskedAtAnEvent(earlier);
      StepAsks(Run(earlier).s, es[|es| - 1]);
      var last := Run(es).s.p.lastRequestNs;
      if last >= 0 && last == Run(earlier).s.p.lastRequestNs {
        var i :| 0 <= i < |earlier| && TimeOf(earlier[i]) == last;
        assert TimeOf(es[i]) == last;
      }
    }
  }

  /** So in every run, after a tick either a frame to start at has come since a keyframe was
      last needed, or a keyframe has been requested in the 50 ms before; with a clock that never runs backwards no
      request lies ahead. */
  lemma RetriedByTick(es: seq<Event>, ns: nat)
    ensures var all := es + [TimerEvent(ns)];
            StillNeeded(Signs(all)) ==>
              && Requests(all) != []
              && ns - Requests(all)[|Requests(all)| - 1] < KEYFRAME_THROTTLE_NS
              && (Monotone(all) ==> Requests(all)[|Requests(all)| - 1] <= ns)
  {
    hide OnTimer, Items, Signs, Paced, RequestTimes, Throttled, TimeOf;
    var all := es + [TimerEvent(ns)];
    assert all[..|es|] == es;
    NeedIs(all);
    HandlersSee(all);
    TickAsks(Run(es).s, ns);
    PacedLast(Requests(all), Run(all).s);
    AskedAtAnEvent(all);
    if StillNeeded(Signs(all)) && Monotone(all) {
      var i :| 0 <= i < |all| && TimeOf(all[i]) == Run(all).s.p.lastRequestNs;
      TickTime(ns);
      assert all[|es|] == TimerEvent(ns);
    }
  }

  lemma TickTime(ns: nat)
    ensures TimeOf(TimerEvent(ns)) == ns
  {
  }

  lemma PacedLast(past: seq<int>, s: State)
    requires Paced(past, Turn(s, []))
    ensures if past == [] then s.p.lastRequestNs < 0 else s.p.lastRequestNs == past[|past| - 1] >= 0
  {
    assert past + RequestTimes([]) == past;
  }
}
