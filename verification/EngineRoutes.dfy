/** Which channel carries each keyframe request, over runs. */
module EngineRoutes {
  import opened Wire
  import opened AnnexB
  import opened RtpWire
  import opened Timing
  import opened EngineModel
  import opened EngineChain
  import Rtp = RtpModel
  import Dc = DcModel

  /** What bears on the channel, in order: the video DataChannel opens, a frame that came over
      it is handed out, both paths are closed or reset; and the requests themselves. */
  datatype Mark = Opened | DcFrame | Shut | Requested(route: Route)

  function MarkOf(e: Effect): seq<Mark> {
    match e
    case FrameOut(f) => if f.transport == OverDataChannel then [DcFrame] else []
    case KeyframeRequest(route, _) => [Requested(route)]
    case _ => []
  }

  function MarksOf(effects: seq<Effect>): seq<Mark> {
    if effects == [] then [] else MarksOf(effects[..|effects| - 1]) + MarkOf(effects[|effects| - 1])
  }

  function CallMark(e: Event): seq<Mark> {
    if e.DcOpened? then [Opened] else if e.DcClosed? || e.ResetEvent? then [Shut] else []
  }

  /** The marks of a run: of each event first the call, then what the handlers see. */
  function Marks(es: seq<Event>): seq<Mark> {
    if es == [] then []
    else Marks(es[..|es| - 1]) + CallMark(es[|es| - 1]) + MarksOf(Step(Run(es[..|es| - 1]).s, es[|es| - 1]).effects)
  }

  /** Since the last close or reset the DataChannel opened or a frame came over it. */
  predicate DataChannelUp(marks: seq<Mark>) {
    if marks == [] || marks[|marks| - 1].Shut? then false
    else marks[|marks| - 1].Opened? || marks[|marks| - 1].DcFrame? || DataChannelUp(marks[..|marks| - 1])
  }

  /** Every request took the control channel exactly while the DataChannel was up, and RTCP otherwise. */
  ghost predicate WellRouted(marks: seq<Mark>) {
    forall i :: 0 <= i < |marks| && marks[i].Requested? ==>
      marks[i].route == if DataChannelUp(marks[..i]) then ControlChannel else Rtcp
  }

  ghost predicate Routed(past: seq<Mark>, t: Turn) {
    && WellRouted(past + MarksOf(t.effects))
    && DataChannelUp(past + MarksOf(t.effects)) == (t.s.p.dcVideo || t.s.p.dcOpen)
  }

  lemma MarksSnoc(effects: seq<Effect>, e: Effect)
    ensures MarksOf(effects + [e]) == MarksOf(effects) + MarkOf(e)
  {
    assert (effects + [e])[..|effects|] == effects;
  }

  lemma UpSnoc(marks: seq<Mark>, m: Mark)
    ensures DataChannelUp(marks + [m])
            == if m.Shut? then false else if m.Requested? then DataChannelUp(marks) else true
  {
    assert (marks + [m])[..|marks|] == marks;
  }

  lemma RoutedSnoc(marks: seq<Mark>, m: Mark)
    requires WellRouted(marks)
    requires m.Requested? ==> m.route == if DataChannelUp(marks) then ControlChannel else Rtcp
    ensures WellRouted(marks + [m])
  {
    hide DataChannelUp;
    var all := marks + [m];
    forall i | 0 <= i < |all| && all[i].Requested?
      ensures all[i].route == if DataChannelUp(all[..i]) then ControlChannel else Rtcp
    {
      if i < |marks| { assert all[..i] == marks[..i] && all[i] == marks[i]; } else { assert all[..i] == marks; }
    }
  }

  lemma RoutedDependsOn(past: seq<Mark>, t: Turn, u: Turn)
    requires u.effects == t.effects && (u.s.p.dcVideo || u.s.p.dcOpen) == (t.s.p.dcVideo || t.s.p.dcOpen)
    ensures Routed(past, t) == Routed(past, u)
  {
  }

  /** An effect without a mark, or one whose mark fits. */
  lemma DoRouted(past: seq<Mark>, t: Turn, u: Turn, e: Effect)
    requires Routed(past, t) && u.effects == t.effects + [e]
    requires (u.s.p.dcVideo || u.s.p.dcOpen)
             == (if MarkOf(e) == [DcFrame] then true else t.s.p.dcVideo || t.s.p.dcOpen)
    requires e.KeyframeRequest? ==> e.route == if t.s.p.dcVideo || t.s.p.dcOpen then ControlChannel else Rtcp
    ensures Routed(past, u)
  {
    hide WellRouted, DataChannelUp, MarksOf;
    MarksSnoc(t.effects, e);
    var marks := past + MarksOf(t.effects);
    MarkIs(e);
    if MarkOf(e) == [] {
      assert past + (MarksOf(t.effects) + []) == marks;
    } else {
      var m := MarkOf(e)[0];
      assert past + (MarksOf(t.effects) + [m]) == marks + [m];
      UpSnoc(marks, m);
      RoutedSnoc(marks, m);
    }
  }

  lemma MarkIs(e: Effect)
    ensures MarkOf(e) == if e.KeyframeRequest? then [Requested(e.route)]
                         else if e.FrameOut? && e.frame.transport == OverDataChannel then [DcFrame] else []
  {
  }

  // ---------------------------------------------------------------- the callbacks

  lemma DispatchRouted(past: seq<Mark>, t: Turn, now: nat)
    requires Routed(past, t)
    ensures Routed(past, TryDispatch(t, now))
  {
    hide Routed;
    var u := TryDispatch(t, now);
    if u != t { DoRouted(past, t, u, u.effects[|t.effects|]); }
  }

  lemma RtpOutRouted(past: seq<Mark>, t: Turn, o: Rtp.Out)
    requires Routed(past, t)
    ensures Routed(past, OnRtpOut(t, o))
  {
    hide Routed, TryDispatch, Unwrapped, ConfiguredIdr;
    match o
    case Deliver(data, ticks) =>
      if !t.s.p.dcVideo {
        var u := OnRtpOut(t, o);
        DoRouted(past, t, u, u.effects[|t.effects|]);
      }
    case RequestKeyframe =>
      var lost := Do(t, LossOut(t.s.p.currentNs));
      var asked := SetPolicy(lost, lost.s.p.(needKeyframe := true));
      DoRouted(past, t, asked, LossOut(t.s.p.currentNs));
      DispatchRouted(past, asked, lost.s.p.currentNs);
  }

  lemma {:induction false} RtpOutsRouted(past: seq<Mark>, t: Turn, outs: seq<Rtp.Out>)
    requires Routed(past, t)
    ensures Routed(past, OnRtpOuts(t, outs))
    decreases |outs|
  {
    hide Routed, OnRtpOut;
    if outs != [] {
      RtpOutsRouted(past, t, outs[..|outs| - 1]);
      RtpOutRouted(past, OnRtpOuts(t, outs[..|outs| - 1]), outs[|outs| - 1]);
    }
  }

  lemma {:induction false} ControlsRouted(past: seq<Mark>, t: Turn, cs: seq<Dc.Control>)
    requires Routed(past, t)
    ensures Routed(past, OnControls(t, cs))
    decreases |cs|
  {
    hide Routed;
    if cs != [] {
      ControlsRouted(past, t, cs[..|cs| - 1]);
      DoRouted(past, OnControls(t, cs[..|cs| - 1]), OnControls(t, cs), ControlOut(cs[|cs| - 1]));
    }
  }

  lemma DeliveryRouted(past: seq<Mark>, t: Turn, o: Dc.Output)
    requires Routed(past, t)
    ensures Routed(past, OnDelivery(t, o))
  {
    hide Routed, Unwrapped, ConfiguredIdr;
    var u := OnDelivery(t, o);
    DoRouted(past, t, u, u.effects[|t.effects|]);
  }

  lemma {:induction false} DeliveriesRouted(past: seq<Mark>, t: Turn, fs: seq<Dc.Delivery>)
    requires Routed(past, t)
    ensures Routed(past, OnDeliveries(t, fs))
    decreases |fs|
  {
    hide Routed, OnDelivery;
    if fs != [] {
      DeliveriesRouted(past, t, fs[..|fs| - 1]);
      DeliveryRouted(past, OnDeliveries(t, fs[..|fs| - 1]), fs[|fs| - 1].out);
    }
  }

  // ---------------------------------------------------------------- one event

  lemma RtpEventRouted(past: seq<Mark>, s: State, b: Bytes, ns: nat)
    requires Routed(past, Turn(s, []))
    ensures Routed(past, ProcessRtp(s, b, ns))
  {
    hide Routed, Rtp.Process, ParseRtp, OnRtpOuts;
    var a := At(s, ns);
    RoutedDependsOn(past, Turn(s, []), Turn(a, []));
    if ParseRtp(b).Some? {
      var n := NoteSource(a, ParseRtp(b).value.ssrc);
      RoutedDependsOn(past, Turn(s, []), Turn(n, []));
      var r := Rtp.Process(n.rtp, b);
      RoutedDependsOn(past, Turn(s, []), Turn(n.(rtp := r.s), []));
      RtpOutsRouted(past, Turn(n.(rtp := r.s), []), r.outs);
    }
  }

  lemma DcEventRouted(past: seq<Mark>, s: State, ns: nat, r: Dc.Turn)
    requires Routed(past, Turn(s, []))
    ensures Routed(past, OnBatch(Turn(At(s, ns).(dc := r.s), []), r.b))
  {
    hide Routed, OnControls, OnDeliveries;
    var t := Turn(At(s, ns).(dc := r.s), []);
    RoutedDependsOn(past, Turn(s, []), t);
    ControlsRouted(past, t, r.b.controls);
    DeliveriesRouted(past, OnControls(t, r.b.controls), r.b.frames);
  }

  /** A call that opens or shuts the channel. */
  lemma CallRouted(past: seq<Mark>, s: State, m: Mark, r: State)
    requires Routed(past, Turn(s, [])) && !m.Requested? && (r.p.dcVideo || r.p.dcOpen) == !m.Shut?
    ensures Routed(past + [m], Turn(r, []))
  {
    hide DataChannelUp, WellRouted;
    assert past + MarksOf([]) == past && past + [m] + MarksOf([]) == past + [m];
    UpSnoc(past, m);
    RoutedSnoc(past, m);
  }

  lemma StepRouted(past: seq<Mark>, s: State, e: Event)
    requires Routed(past, Turn(s, []))
    ensures Routed(past + CallMark(e), Step(s, e))
  {
    hide Routed, ProcessRtp, Dc.Process, Dc.Tick, OnBatch, TryDispatch;
    assert past + [] == past;
    match e
    case RtpPacketEvent(b, ns) => RtpEventRouted(past, s, b, ns);
    case DcPacketEvent(b, ns) => DcEventRouted(past, s, ns, Dc.Process(s.dc, b, ns / 1000));
    case TimerEvent(ns) =>
      var r := Dc.Tick(s.dc, ns / 1000);
      DcEventRouted(past, s, ns, r);
      DispatchRouted(past, OnBatch(Turn(At(s, ns).(dc := r.s), []), r.b), ns);
    case RequestEvent(ns) =>
      RoutedDependsOn(past, Turn(s, []), Turn(s.(p := s.p.(needKeyframe := true)), []));
      DispatchRouted(past, Turn(s.(p := s.p.(needKeyframe := true)), []), ns);
    case DcOpened => CallRouted(past, s, Opened, Step(s, e).s);
    case DcClosed => CallRouted(past, s, Shut, Step(s, e).s);
    case ResetEvent => CallRouted(past, s, Shut, Step(s, e).s);
    case _ => RoutedDependsOn(past, Turn(s, []), Step(s, e));
  }

  // ---------------------------------------------------------------- runs

  /** In every run a keyframe request takes the control channel exactly if, since the last close or reset, the video
      DataChannel opened or a frame that came over it was handed out before; otherwise it goes out as RTCP. */
  lemma {:induction false} RequestsAreRouted(es: seq<Event>)
    ensures WellRouted(Marks(es))
    ensures DataChannelUp(Marks(es)) == (Run(es).s.p.dcVideo || Run(es).s.p.dcOpen)
  {
    hide Step, Items, CallMark, MarksOf, WellRouted, DataChannelUp;
    if es == [] {
      NoMarks();
    } else {
      var h, e, past := Run(es[..|es| - 1]), es[|es| - 1], Marks(es[..|es| - 1]);
      RequestsAreRouted(es[..|es| - 1]);
      NothingMore(past);
      StepRouted(past, h.s, e);
    }
  }

  lemma NoMarks()
    ensures WellRouted([]) && !DataChannelUp([])
  {
  }

  lemma NothingMore(past: seq<Mark>)
    ensures past + MarksOf([]) == past
  {
  }
}
