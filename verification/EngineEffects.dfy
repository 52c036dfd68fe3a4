/** What the handlers see: the frames are the logged deliveries in order, and keyframe requests are throttled. */
module EngineEffects {
  import opened Wire
  import opened AnnexB
  import opened RtpWire
  import opened Timing
  import opened EngineModel
  import opened EngineChain
  import Rtp = RtpModel
  import Dc = DcModel

  /** An access unit and the transport it came over. */
  datatype Received = Received(transport: Transport, data: Bytes)

  function FramesOf(effects: seq<Effect>): seq<Received> {
    if effects == [] then []
    else FramesOf(effects[..|effects| - 1]) + FrameOf(effects[|effects| - 1])
  }

  function FrameOf(e: Effect): seq<Received> {
    if e.FrameOut? then [Received(e.frame.transport, e.frame.annexB)] else []
  }

  function UnitsOf(log: seq<Item>): seq<Received> {
    if log == [] then []
    else
      UnitsOf(log[..|log| - 1])
      + (if log[|log| - 1].Delivered? then [Received(log[|log| - 1].transport, log[|log| - 1].data)] else [])
  }

  function RequestTime(e: Effect): seq<int> {
    if e.KeyframeRequest? then [e.atNs] else []
  }

  function RequestTimes(effects: seq<Effect>): seq<int> {
    if effects == [] then [] else RequestTimes(effects[..|effects| - 1]) + RequestTime(effects[|effects| - 1])
  }

  ghost predicate Throttled(times: seq<int>) {
    forall i, j :: 0 <= i < j < |times| ==> times[j] - times[i] >= KEYFRAME_THROTTLE_NS
  }

  /** The requests of earlier steps and of this one keep their distance, and the policy remembers the last. */
  ghost predicate Paced(past: seq<int>, t: Turn) {
    var times := past + RequestTimes(t.effects);
    && Throttled(times)
    && (if |times| == 0 then t.s.p.lastRequestNs < 0 else t.s.p.lastRequestNs == times[|times| - 1] >= 0)
  }

  lemma EffectsSnoc(effects: seq<Effect>, e: Effect)
    ensures FramesOf(effects + [e]) == FramesOf(effects) + FrameOf(e)
    ensures RequestTimes(effects + [e]) == RequestTimes(effects) + RequestTime(e)
  {
    assert (effects + [e])[..|effects|] == effects;
  }

  // ---------------------------------------------------------------- the two facts step by step

  /** An effect that is neither a frame nor a request. */
  lemma OtherEffect(past: seq<int>, t: Turn, e: Effect)
    requires !e.FrameOut? && !e.KeyframeRequest?
    ensures FramesOf(Do(t, e).effects) == FramesOf(t.effects)
    ensures Paced(past, t) ==> Paced(past, Do(t, e))
  {
    EffectsSnoc(t.effects, e);
    assert FramesOf(t.effects) + [] == FramesOf(t.effects);
    assert RequestTimes(t.effects) + [] == RequestTimes(t.effects);
  }

  lemma PacedDependsOn(past: seq<int>, t: Turn, u: Turn)
    requires u.effects == t.effects && u.s.p.lastRequestNs == t.s.p.lastRequestNs
    ensures Paced(past, t) == Paced(past, u)
  {
  }

  lemma EmitEffect(past: seq<int>, t: Turn, data: Bytes, ticks: int, transport: Transport)
    ensures FramesOf(EmitFrame(t, data, ticks, transport).effects) == FramesOf(t.effects) + [Received(transport, data)]
    ensures Paced(past, t) ==> Paced(past, EmitFrame(t, data, ticks, transport))
  {
    hide ConfiguredIdr;
    var e := EmitFrame(t, data, ticks, transport);
    EffectsSnoc(t.effects, e.effects[|t.effects|]);
    assert RequestTimes(t.effects) + [] == RequestTimes(t.effects);
    PacedDependsOn(past, Turn(t.s, e.effects), e);
  }

  lemma ThrottledSnoc(times: seq<int>, now: int)
    requires Throttled(times) && (times != [] ==> now - times[|times| - 1] >= KEYFRAME_THROTTLE_NS)
    ensures Throttled(times + [now])
  {
  }

  lemma DispatchEffect(past: seq<int>, t: Turn, now: nat)
    ensures FramesOf(TryDispatch(t, now).effects) == FramesOf(t.effects)
    ensures Paced(past, t) ==> Paced(past, TryDispatch(t, now))
  {
    hide Throttled, FramesOf, RequestTimes;
    var u := TryDispatch(t, now);
    if u != t {
      var e := u.effects[|t.effects|];
      EffectsSnoc(t.effects, e);
      Regroup(FramesOf(t.effects), [], []);
      var times := past + RequestTimes(t.effects);
      LaterTime(past, RequestTimes(t.effects), now);
      if Paced(past, t) { ThrottledSnoc(times, now); }
    }
  }

  lemma LaterTime(past: seq<int>, times: seq<int>, now: int)
    ensures past + (times + [now]) == (past + times) + [now]
  {
  }

  lemma RtpOutEffect(past: seq<int>, t: Turn, o: Rtp.Out)
    requires !t.s.p.dcVideo
    ensures FramesOf(OnRtpOut(t, o).effects) == FramesOf(t.effects) + UnitsOf(RtpItems([o]))
    ensures Paced(past, t) ==> Paced(past, OnRtpOut(t, o))
  {
    hide Paced, EmitFrame, TryDispatch, Unwrapped;
    ItemsOfOne(o);
    match o
    case Deliver(data, ticks) =>
      var u := Unwrapped(t.s.rtpUnwrapper, ticks);
      PacedDependsOn(past, t, t.(s := t.s.(rtpUnwrapper := u)));
      EmitEffect(past, t.(s := t.s.(rtpUnwrapper := u)), data, u.unwrapped, OverRtp);
    case RequestKeyframe =>
      var lost := Do(t, LossOut(t.s.p.currentNs));
      OtherEffect(past, t, LossOut(t.s.p.currentNs));
      var asked := SetPolicy(lost, lost.s.p.(needKeyframe := true));
      PacedDependsOn(past, lost, asked);
      DispatchEffect(past, asked, lost.s.p.currentNs);
      assert FramesOf(t.effects) + [] == FramesOf(t.effects);
  }

  lemma ItemsOfOne(o: Rtp.Out)
    ensures RtpItems([o]) == if o.Deliver? then [Delivered(OverRtp, o.data, 0)] else []
    ensures UnitsOf(RtpItems([o])) == if o.Deliver? then [Received(OverRtp, o.data)] else []
  {
    assert [o][..0] == [];
    assert RtpItems([o]) == RtpItems([]) + (if o.Deliver? then [Delivered(OverRtp, o.data, 0)] else []);
    if o.Deliver? {
      var i := Delivered(OverRtp, o.data, 0);
      assert RtpItems([o]) == [i] && [i][..0] == [];
    }
  }

  lemma {:induction false} UnitsConcat(xs: seq<Item>, ys: seq<Item>)
    ensures UnitsOf(xs + ys) == UnitsOf(xs) + UnitsOf(ys)
    decreases |ys|
  {
    if ys == [] {
      assert xs + ys == xs;
    } else {
      assert (xs + ys)[..|xs + ys| - 1] == xs + ys[..|ys| - 1];
      UnitsConcat(xs, ys[..|ys| - 1]);
    }
  }

  lemma {:induction false} FramesConcat(xs: seq<Effect>, ys: seq<Effect>)
    ensures FramesOf(xs + ys) == FramesOf(xs) + FramesOf(ys)
    ensures RequestTimes(xs + ys) == RequestTimes(xs) + RequestTimes(ys)
    decreases |ys|
  {
    hide FrameOf, RequestTime;
    if ys == [] {
      assert xs + ys == xs;
    } else {
      assert (xs + ys)[..|xs + ys| - 1] == xs + ys[..|ys| - 1];
      FramesConcat(xs, ys[..|ys| - 1]);
    }
  }

  lemma RtpItemsSnoc(outs: seq<Rtp.Out>, o: Rtp.Out)
    ensures RtpItems(outs + [o]) == RtpItems(outs) + RtpItems([o])
  {
    assert (outs + [o])[..|outs|] == outs;
    ItemsOfOne(o);
  }

  lemma {:induction false} RtpOutsEffect(past: seq<int>, t: Turn, outs: seq<Rtp.Out>)
    requires !t.s.p.dcVideo
    ensures FramesOf(OnRtpOuts(t, outs).effects) == FramesOf(t.effects) + UnitsOf(RtpItems(outs))
    ensures Paced(past, t) ==> Paced(past, OnRtpOuts(t, outs))
    decreases |outs|
  {
    hide Paced, OnRtpOut, RtpItems, FramesOf, UnitsOf;
    if outs == [] {
      NoItems();
      assert FramesOf(t.effects) + [] == FramesOf(t.effects);
    } else {
      var init, o := outs[..|outs| - 1], outs[|outs| - 1];
      RtpOutsEffect(past, t, init);
      RtpOutsKeep(t, init);
      RtpOutEffect(past, OnRtpOuts(t, init), o);
      assert outs == init + [o];
      RtpItemsSnoc(init, o);
      UnitsConcat(RtpItems(init), RtpItems([o]));
      Regroup(FramesOf(t.effects), UnitsOf(RtpItems(init)), UnitsOf(RtpItems([o])));
    }
  }

  lemma Regroup(a: seq<Received>, b: seq<Received>, c: seq<Received>)
    ensures a + b + c == a + (b + c) && a + [] == a
  {
  }

  lemma NoItems()
    ensures UnitsOf(RtpItems([])) == [] && UnitsOf(DcItems([])) == []
  {
  }

  lemma {:induction false} ControlsEffect(past: seq<int>, t: Turn, cs: seq<Dc.Control>)
    ensures FramesOf(OnControls(t, cs).effects) == FramesOf(t.effects)
    ensures Paced(past, t) ==> Paced(past, OnControls(t, cs))
    decreases |cs|
  {
    hide Paced;
    if cs != [] {
      ControlsEffect(past, t, cs[..|cs| - 1]);
      OtherEffect(past, OnControls(t, cs[..|cs| - 1]), ControlOut(cs[|cs| - 1]));
    }
  }

  lemma {:induction false} DeliveriesEffect(past: seq<int>, t: Turn, fs: seq<Dc.Delivery>)
    ensures FramesOf(OnDeliveries(t, fs).effects) == FramesOf(t.effects) + UnitsOf(DcItems(fs))
    ensures Paced(past, t) ==> Paced(past, OnDeliveries(t, fs))
    decreases |fs|
  {
    hide Paced, EmitFrame, Unwrapped, FramesOf, UnitsOf, DcItems;
    if fs == [] {
      NoItems();
      assert FramesOf(t.effects) + [] == FramesOf(t.effects);
    } else {
      var init, d := fs[..|fs| - 1], fs[|fs| - 1];
      DeliveriesEffect(past, t, init);
      var r := OnDeliveries(t, init);
      var u := Unwrapped(r.s.dcUnwrapper, d.out.timestamp);
      var won := r.(s := r.s.(dcUnwrapper := u, p := r.s.p.(dcVideo := true)));
      PacedDependsOn(past, r, won);
      EmitEffect(past, won, d.out.data, u.unwrapped, OverDataChannel);
      DcItemsLast(init, fs);
      Regroup(FramesOf(t.effects), UnitsOf(DcItems(init)), [Received(OverDataChannel, d.out.data)]);
    }
  }

  lemma DcItemsLast(init: seq<Dc.Delivery>, fs: seq<Dc.Delivery>)
    requires fs != [] && init == fs[..|fs| - 1]
    ensures UnitsOf(DcItems(fs)) == UnitsOf(DcItems(init)) + [Received(OverDataChannel, fs[|fs| - 1].out.data)]
  {
    var d := fs[|fs| - 1];
    var i := Delivered(OverDataChannel, d.out.data, d.seqNo);
    assert DcItems(fs) == DcItems(init) + [i];
    assert (DcItems(init) + [i])[..|DcItems(init)|] == DcItems(init);
  }

  lemma BatchEffect(past: seq<int>, t: Turn, b: Dc.Batch)
    ensures FramesOf(OnBatch(t, b).effects) == FramesOf(t.effects) + UnitsOf(DcItems(b.frames))
    ensures Paced(past, t) ==> Paced(past, OnBatch(t, b))
  {
    hide Paced;
    ControlsEffect(past, t, b.controls);
    DeliveriesEffect(past, OnControls(t, b.controls), b.frames);
  }

  // ---------------------------------------------------------------- one event

  lemma Quiet(past: seq<int>, s: State, r: State)
    requires r.p.lastRequestNs == s.p.lastRequestNs
    ensures FramesOf([]) == [] && (Paced(past, Turn(s, [])) ==> Paced(past, Turn(r, [])))
  {
    PacedDependsOn(past, Turn(s, []), Turn(r, []));
  }

  lemma RtpEventEffect(past: seq<int>, s: State, b: Bytes, ns: nat)
    ensures FramesOf(ProcessRtp(s, b, ns).effects) == UnitsOf(Items(s, RtpPacketEvent(b, ns)))
    ensures Paced(past, Turn(s, [])) ==> Paced(past, ProcessRtp(s, b, ns))
  {
    hide Paced, Rtp.Process, ParseRtp, OnRtpOuts, RtpItems;
    var a := At(s, ns);
    Quiet(past, s, ProcessRtp(s, b, ns).s.(p := a.p));
    if ParseRtp(b).Some? {
      var n := NoteSource(a, ParseRtp(b).value.ssrc);
      NoteKeeps(s, ns, ParseRtp(b).value.ssrc);
      Quiet(past, s, n);
      Quiet(past, s, a);
      if Feeds(s, b) {
        var r := Rtp.Process(n.rtp, b);
        Quiet(past, s, n.(rtp := r.s));
        RtpOutsEffect(past, Turn(n.(rtp := r.s), []), r.outs);
        SeenUnit(s.rtp, b, r.outs);
        assert [] + UnitsOf(RtpItems(r.outs)) == UnitsOf(RtpItems(r.outs));
      }
    } else {
      Quiet(past, s, a);
    }
  }

  lemma SeenUnit(before: Rtp.State, b: Bytes, outs: seq<Rtp.Out>)
    ensures UnitsOf([Seen(before, b)] + RtpItems(outs)) == UnitsOf(RtpItems(outs))
  {
    UnitsConcat([Seen(before, b)], RtpItems(outs));
    assert [Seen(before, b)][..0] == [];
    assert UnitsOf([Seen(before, b)]) == [];
    assert [] + UnitsOf(RtpItems(outs)) == UnitsOf(RtpItems(outs));
  }

  lemma DcEventEffect(past: seq<int>, s: State, ns: nat, r: Dc.Turn)
    ensures var t := OnBatch(Turn(At(s, ns).(dc := r.s), []), r.b);
            && FramesOf(t.effects) == UnitsOf(DcItems(r.b.frames))
            && (Paced(past, Turn(s, [])) ==> Paced(past, t))
  {
    hide Paced, OnBatch, DcItems;
    var t := Turn(At(s, ns).(dc := r.s), []);
    Quiet(past, s, t.s);
    BatchEffect(past, t, r.b);
    assert [] + UnitsOf(DcItems(r.b.frames)) == UnitsOf(DcItems(r.b.frames));
  }

  lemma StepEffect(past: seq<int>, s: State, e: Event)
    requires !e.ResetEvent? ==> Paced(past, Turn(s, []))
    ensures FramesOf(Step(s, e).effects) == UnitsOf(Items(s, e))
    ensures Paced(if e.ResetEvent? then [] else past, Step(s, e))
  {
    hide Paced, ProcessRtp, Dc.Process, Dc.Tick, OnBatch, TryDispatch, RtpItems, DcItems;
    assert UnitsOf([Cut]) == [] by { assert [Cut][..0] == []; }
    match e
    case RtpPacketEvent(b, ns) => RtpEventEffect(past, s, b, ns);
    case DcPacketEvent(b, ns) => DcEventEffect(past, s, ns, Dc.Process(s.dc, b, ns / 1000));
    case TimerEvent(ns) =>
      var r := Dc.Tick(s.dc, ns / 1000);
      DcEventEffect(past, s, ns, r);
      DispatchEffect(past, OnBatch(Turn(At(s, ns).(dc := r.s), []), r.b), ns);
    case RequestEvent(ns) =>
      Quiet(past, s, s.(p := s.p.(needKeyframe := true)));
      DispatchEffect(past, Turn(s.(p := s.p.(needKeyframe := true)), []), ns);
    case ResetEvent => NotYetAsked(Step(s, e).s);
    case _ => Quiet(past, s, Step(s, e).s);
  }

  lemma NotYetAsked(s: State)
    requires s.p.lastRequestNs < 0
    ensures Paced([], Turn(s, [])) && FramesOf([]) == []
  {
  }

  // ---------------------------------------------------------------- runs

  /** The requests made since the last reset. */
  function Requests(es: seq<Event>): seq<int> {
    if es == [] then []
    else (if es[|es| - 1].ResetEvent? then [] else Requests(es[..|es| - 1]))
         + RequestTimes(Step(Run(es[..|es| - 1]).s, es[|es| - 1]).effects)
  }

  /** In every run the frame handler sees exactly the logged deliveries, in order, and between resets two keyframe
      requests are at least 50 ms apart, whatever the clock does. */
  lemma {:induction false} HandlersSee(es: seq<Event>)
    ensures FramesOf(Run(es).effects) == UnitsOf(Run(es).log)
    ensures Throttled(Requests(es)) && Paced(Requests(es), Turn(Run(es).s, []))
  {
    if es == [] {
      NotYetAsked(INITIAL);
    } else {
      hide Step, Items, Paced;
      var h, e := Run(es[..|es| - 1]), es[|es| - 1];
      HandlersSee(es[..|es| - 1]);
      var past := Requests(es[..|es| - 1]);
      StepEffect(past, h.s, e);
      UnitsConcat(h.log, Items(h.s, e));
      FramesConcat(h.effects, Step(h.s, e).effects);
      PacedMoves(if e.ResetEvent? then [] else past, Step(h.s, e));
    }
  }

  /** The requests of a step become past ones. */
  lemma PacedMoves(past: seq<int>, t: Turn)
    requires Paced(past, t)
    ensures Throttled(past + RequestTimes(t.effects)) && Paced(past + RequestTimes(t.effects), Turn(t.s, []))
  {
    var times := past + RequestTimes(t.effects);
    assert times + RequestTimes([]) == times;
  }
}
