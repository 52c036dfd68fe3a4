/** The safety of the delivered stream: over every interleaving of packets, ticks, closes and resets, a decoder can
    use each access unit the engine hands out. */
module EngineChain {
  import opened Wire
  import opened AnnexB
  import opened AnnexBLaws
  import opened RtpWire
  import opened Timing
  import opened EngineModel
  import Rtp = RtpModel
  import RtpChain
  import Dc = DcModel
  import DcOrder

  /** What happened, as far as decodability goes: RTP packets that reached the depacketizer with its state before
      each, access units handed out, and the points where both paths were reset. */
  datatype Item =
    | Seen(before: Rtp.State, bytes: Bytes)
    | Delivered(transport: Transport, data: Bytes, seqNo: U16)
    | Cut

  function RtpItems(outs: seq<Rtp.Out>): seq<Item>
    decreases |outs|
  {
    if outs == [] then []
    else RtpItems(outs[..|outs| - 1]) + (match outs[|outs| - 1]
                                         case Deliver(data, _) => [Delivered(OverRtp, data, 0)]
                                         case RequestKeyframe => [])
  }

  function DcItems(fs: seq<Dc.Delivery>): seq<Item>
    decreases |fs|
  {
    if fs == [] then []
    else DcItems(fs[..|fs| - 1]) + [Delivered(OverDataChannel, fs[|fs| - 1].out.data, fs[|fs| - 1].seqNo)]
  }

  function Items(s: State, e: Event): seq<Item> {
    match e
    case RtpPacketEvent(b, ns) => if Feeds(s, b) then [Seen(s.rtp, b)] + RtpItems(Rtp.Process(s.rtp, b).outs) else []
    case DcPacketEvent(b, ns) => DcItems(Dc.Process(s.dc, b, ns / 1000).b.frames)
    case TimerEvent(ns) => DcItems(Dc.Tick(s.dc, ns / 1000).b.frames)
    case DcClosed => [Cut]
    case ResetEvent => [Cut]
    case _ => []
  }

  /** The last thing before that was not merely an RTP packet. */
  function Prev(log: seq<Item>): Option<Item> {
    if log == [] then None
    else if log[|log| - 1].Seen? then Prev(log[..|log| - 1]) else Some(log[|log| - 1])
  }

  /** Every RTP packet since then was a late copy or the direct successor of the one before it. */
  ghost predicate CleanSince(log: seq<Item>) {
    if log == [] then true
    else match log[|log| - 1]
      case Seen(before, bytes) => RtpChain.Linked(before, bytes) && CleanSince(log[..|log| - 1])
      case _ => true
  }

  /** The unit is an IDR with its parameter sets, or it continues the unit handed out before it: same transport, no
      reset in between, and nothing lost: the next frame number, or an unbroken packet sequence. */
  ghost predicate Playable(before: seq<Item>, d: Item)
    requires d.Delivered?
  {
    || CarriesIdr(d.data)
    || match Prev(before)
       case Some(Delivered(tr, _, n)) =>
         tr == d.transport && (if tr == OverRtp then CleanSince(before) else d.seqNo == (n + 1) % 0x1_0000)
       case _ => false
  }

  ghost predicate AllPlayable(log: seq<Item>) {
    forall j :: 0 <= j < |log| && log[j].Delivered? ==> Playable(log[..j], log[j])
  }

  // ---------------------------------------------------------------- the invariant

  ghost predicate RtpReady(log: seq<Item>) {
    match Prev(log)
    case Some(Delivered(tr, _, _)) => tr == OverRtp && CleanSince(log)
    case _ => false
  }

  ghost predicate DcReady(log: seq<Item>, expected: U16) {
    match Prev(log)
    case Some(Delivered(tr, _, n)) => tr == OverDataChannel && expected == (n + 1) % 0x1_0000
    case _ => false
  }

  ghost predicate Safe(log: seq<Item>, s: State) {
    && AllPlayable(log) && RtpChain.Inv(s.rtp) && DcOrder.Resumable(s.dc)
    && (!s.p.dcVideo && !s.rtp.waiting ==> RtpReady(log))
    && (!s.dc.waiting ==> s.p.dcVideo && DcReady(log, s.dc.expected))
  }

  lemma PlayableSnoc(log: seq<Item>, i: Item)
    requires AllPlayable(log) && (i.Delivered? ==> Playable(log, i))
    ensures AllPlayable(log + [i])
  {
    hide Playable;
    var all := log + [i];
    forall j | 0 <= j < |all| && all[j].Delivered? ensures Playable(all[..j], all[j]) {
      if j < |log| {
        assert all[..j] == log[..j] && all[j] == log[j];
      } else {
        assert all[..j] == log;
      }
    }
  }

  lemma PrevSnoc(log: seq<Item>, i: Item)
    ensures Prev(log + [i]) == if i.Seen? then Prev(log) else Some(i)
    ensures CleanSince(log + [i]) == if i.Seen? then RtpChain.Linked(i.before, i.bytes) && CleanSince(log) else true
  {
    assert (log + [i])[..|log|] == log;
  }

  // ---------------------------------------------------------------- RTP packets

  lemma {:induction false} RtpOutsPlay(log: seq<Item>, linked: bool, t: Rtp.Turn, k: nat)
    requires AllPlayable(log) && (linked ==> RtpReady(log)) && RtpChain.Chained(linked, t) && k <= |t.outs|
    ensures AllPlayable(log + RtpItems(t.outs[..k]))
    ensures RtpChain.JustDelivered(linked, t.outs[..k]) ==> RtpReady(log + RtpItems(t.outs[..k]))
    decreases k
  {
    hide Playable, AllPlayable, CleanSince, RtpChain.Linked, CarriesIdr;
    if k == 0 {
      assert log + [] == log;
      assert t.outs[..0] == [];
    } else {
      RtpOutsPlay(log, linked, t, k - 1);
      var outs, o := t.outs[..k - 1], t.outs[k - 1];
      assert t.outs[..k][..k - 1] == outs && t.outs[..k][k - 1] == o;
      var before := log + RtpItems(outs);
      if o.Deliver? {
        var i := Delivered(OverRtp, o.data, 0);
        assert log + (RtpItems(outs) + [i]) == before + [i];
        assert RtpChain.Follows(linked, t.outs, k - 1);
        if k > 1 { assert outs[k - 2] == t.outs[k - 2]; }
        ReadyPlays(before, i);
        PlayableSnoc(before, i);
        PrevSnoc(before, i);
      } else {
        assert RtpItems(outs) + [] == RtpItems(outs);
      }
    }
  }

  lemma ReadyPlays(before: seq<Item>, i: Item)
    requires i.Delivered? && i.transport == OverRtp
    ensures RtpReady(before) || CarriesIdr(i.data) ==> Playable(before, i)
  {
    hide CleanSince, CarriesIdr;
  }

  lemma RtpStepSafe(log: seq<Item>, s: State, b: Bytes, r: State)
    requires Safe(log, s) && !s.p.dcVideo
    requires r.rtp == Rtp.Process(s.rtp, b).s && r.dc == s.dc && !r.p.dcVideo
    ensures Safe(log + ([Seen(s.rtp, b)] + RtpItems(Rtp.Process(s.rtp, b).outs)), r)
  {
    hide Playable, CleanSince, AllPlayable, RtpChain.Inv, RtpChain.Linked, RtpChain.Chained, RtpChain.JustDelivered;
    hide DcOrder.Resumable, Rtp.Process, RtpItems;
    var t := Rtp.Process(s.rtp, b);
    RtpChain.StepChain(s.rtp, b);
    var linked := !s.rtp.waiting && RtpChain.Linked(s.rtp, b);
    var seen := log + [Seen(s.rtp, b)];
    PlayableSnoc(log, Seen(s.rtp, b));
    PrevSnoc(log, Seen(s.rtp, b));
    RtpOutsPlay(seen, linked, t, |t.outs|);
    assert t.outs[..|t.outs|] == t.outs;
    assert seen + RtpItems(t.outs) == log + ([Seen(s.rtp, b)] + RtpItems(t.outs));
    ChainedEnds(linked, t);
  }

  lemma ChainedEnds(linked: bool, t: Rtp.Turn)
    requires RtpChain.Chained(linked, t)
    ensures !t.s.waiting ==> RtpChain.JustDelivered(linked, t.outs)
  {
  }

  // ---------------------------------------------------------------- DataChannel packets and ticks

  lemma {:induction false} DcFramesPlay(log: seq<Item>, s: Dc.State, t: Dc.Turn, k: nat)
    requires AllPlayable(log) && (!s.waiting ==> DcReady(log, s.expected)) && DcOrder.StepChained(s, t)
             && k <= |t.b.frames|
    ensures AllPlayable(log + DcItems(t.b.frames[..k]))
    ensures k > 0 ==> Prev(log + DcItems(t.b.frames[..k]))
                      == Some(Delivered(OverDataChannel, t.b.frames[k - 1].out.data, t.b.frames[k - 1].seqNo))
    decreases k
  {
    hide Playable, AllPlayable, CleanSince, CarriesIdr, DcOrder.Succeeds;
    var fs := t.b.frames;
    if k == 0 {
      assert log + [] == log;
      assert fs[..0] == [];
    } else {
      DcFramesPlay(log, s, t, k - 1);
      assert fs[..k][..k - 1] == fs[..k - 1] && fs[..k][k - 1] == fs[k - 1];
      var before := log + DcItems(fs[..k - 1]);
      var i := Delivered(OverDataChannel, fs[k - 1].out.data, fs[k - 1].seqNo);
      assert log + (DcItems(fs[..k - 1]) + [i]) == before + [i];
      assert DcOrder.Succeeds(s, fs, k - 1);
      if k == 1 { assert fs[..0] == []; assert before == log; }
      SucceedsPlays(before, s, fs, k - 1);
      PlayableSnoc(before, i);
      PrevSnoc(before, i);
    }
  }

  lemma SucceedsPlays(before: seq<Item>, s: Dc.State, fs: seq<Dc.Delivery>, k: nat)
    requires k < |fs| && DcOrder.Succeeds(s, fs, k)
    requires k == 0 && !s.waiting ==> DcReady(before, s.expected)
    requires k > 0 ==> Prev(before) == Some(Delivered(OverDataChannel, fs[k - 1].out.data, fs[k - 1].seqNo))
    ensures Playable(before, Delivered(OverDataChannel, fs[k].out.data, fs[k].seqNo))
  {
    hide CarriesIdr, CleanSince;
  }

  lemma DcStepSafe(log: seq<Item>, s: State, e: DcOrder.Event, r: State)
    requires Safe(log, s) && !e.Cleared?
    requires r.dc == DcOrder.Step(s.dc, e).s && r.rtp == s.rtp
    requires r.p.dcVideo == (s.p.dcVideo || DcOrder.Step(s.dc, e).b.frames != [])
    ensures Safe(log + DcItems(DcOrder.Step(s.dc, e).b.frames), r)
  {
    hide Playable, CleanSince, AllPlayable, RtpChain.Inv, DcOrder.Resumable, DcOrder.Step, DcOrder.StepChained;
    var t := DcOrder.Step(s.dc, e);
    DcOrder.StepIsChained(s.dc, e);
    DcFramesPlay(log, s.dc, t, |t.b.frames|);
    assert t.b.frames[..|t.b.frames|] == t.b.frames;
    StepEnds(s.dc, t);
    if t.b.frames == [] {
      assert log + DcItems([]) == log;
    }
  }

  lemma StepEnds(s: Dc.State, t: Dc.Turn)
    requires DcOrder.StepChained(s, t)
    ensures !t.s.waiting ==> if |t.b.frames| == 0 then !s.waiting && t.s.expected == s.expected
                             else t.s.expected == (t.b.frames[|t.b.frames| - 1].seqNo + 1) % 0x1_0000
  {
  }

  // ---------------------------------------------------------------- the engine around them

  /** The callbacks leave the depacketizers alone; only deliveries of the DataChannel change the path. */
  lemma {:induction false} RtpOutsKeep(t: Turn, outs: seq<Rtp.Out>)
    ensures var r := OnRtpOuts(t, outs).s;
            r.rtp == t.s.rtp && r.dc == t.s.dc && r.p.dcVideo == t.s.p.dcVideo
    decreases |outs|
  {
    hide ConfiguredIdr, Unwrapped;
    if outs != [] { RtpOutsKeep(t, outs[..|outs| - 1]); }
  }

  lemma {:induction false} ControlsKeep(t: Turn, cs: seq<Dc.Control>)
    ensures OnControls(t, cs).s == t.s
    decreases |cs|
  {
    if cs != [] { ControlsKeep(t, cs[..|cs| - 1]); }
  }

  lemma {:induction false} DeliveriesKeep(t: Turn, fs: seq<Dc.Delivery>)
    ensures var r := OnDeliveries(t, fs).s;
            r.rtp == t.s.rtp && r.dc == t.s.dc && r.p.dcVideo == (t.s.p.dcVideo || fs != [])
    decreases |fs|
  {
    hide ConfiguredIdr, Unwrapped;
    if fs != [] { DeliveriesKeep(t, fs[..|fs| - 1]); }
  }

  lemma BatchKeeps(t: Turn, b: Dc.Batch)
    ensures var r := OnBatch(t, b).s;
            r.rtp == t.s.rtp && r.dc == t.s.dc && r.p.dcVideo == (t.s.p.dcVideo || b.frames != [])
  {
    ControlsKeep(t, b.controls);
    DeliveriesKeep(OnControls(t, b.controls), b.frames);
  }

  lemma SafeDependsOn(log: seq<Item>, s: State, r: State)
    requires Safe(log, s) && r.rtp == s.rtp && r.dc == s.dc && r.p.dcVideo == s.p.dcVideo
    ensures Safe(log, r)
  {
    hide AllPlayable, RtpChain.Inv, DcOrder.Resumable, RtpReady, DcReady;
  }

  lemma CutSafe(log: seq<Item>, s: State, r: State)
    requires Safe(log, s) && r.rtp == Rtp.Reset(s.rtp) && r.dc == Dc.Reset(s.dc)
    ensures Safe(log + [Cut], r)
  {
    hide AllPlayable, RtpChain.Inv, DcOrder.Resumable;
    RtpChain.ResetKeeps(s.rtp);
    DcOrder.InitialResumes(s.dc);
    PlayableSnoc(log, Cut);
  }

  lemma NoteKeeps(s: State, ns: nat, ssrc: U32)
    ensures var n := NoteSource(At(s, ns), ssrc);
            n.rtp == s.rtp && n.dc == s.dc && n.p.dcVideo == s.p.dcVideo && n.p.payloadTypes == s.p.payloadTypes
  {
  }

  lemma RtpEventSafe(log: seq<Item>, s: State, b: Bytes, ns: nat)
    requires Safe(log, s)
    ensures Safe(log + Items(s, RtpPacketEvent(b, ns)), ProcessRtp(s, b, ns).s)
  {
    hide Safe, Rtp.Process, ParseRtp, NoteSource, OnRtpOuts;
    assert log + [] == log;
    if ParseRtp(b).Some? { NoteKeeps(s, ns, ParseRtp(b).value.ssrc); }
    if Feeds(s, b) {
      var n := NoteSource(At(s, ns), ParseRtp(b).value.ssrc);
      var r := Rtp.Process(n.rtp, b);
      RtpOutsKeep(Turn(n.(rtp := r.s), []), r.outs);
      RtpStepSafe(log, s, b, ProcessRtp(s, b, ns).s);
    } else {
      SafeDependsOn(log, s, ProcessRtp(s, b, ns).s);
    }
  }

  lemma StepSafe(log: seq<Item>, s: State, e: Event)
    requires Safe(log, s)
    ensures Safe(log + Items(s, e), Step(s, e).s)
  {
    hide Safe, ProcessRtp, Dc.Process, Dc.Tick, OnBatch, Rtp.Reset, Dc.Reset;
    assert log + [] == log;
    match e
    case RtpPacketEvent(b, ns) => RtpEventSafe(log, s, b, ns);
    case DcPacketEvent(b, ns) =>
      var r := Dc.Process(s.dc, b, ns / 1000);
      BatchKeeps(Turn(At(s, ns).(dc := r.s), []), r.b);
      DcStepSafe(log, s, DcOrder.Packet(b, ns / 1000), Step(s, e).s);
    case TimerEvent(ns) =>
      var r := Dc.Tick(s.dc, ns / 1000);
      BatchKeeps(Turn(At(s, ns).(dc := r.s), []), r.b);
      DcStepSafe(log, s, DcOrder.Timer(ns / 1000), OnBatch(Turn(At(s, ns).(dc := r.s), []), r.b).s);
      SafeDependsOn(log + Items(s, e), OnBatch(Turn(At(s, ns).(dc := r.s), []), r.b).s, Step(s, e).s);
    case DcClosed => CutSafe(log, s, Step(s, e).s);
    case ResetEvent => CutSafe(log, s, Step(s, e).s);
    case _ => SafeDependsOn(log, s, Step(s, e).s);
  }

  // ---------------------------------------------------------------- runs

  datatype History = History(s: State, log: seq<Item>, effects: seq<Effect>)

  function Run(es: seq<Event>): History {
    if es == [] then History(INITIAL, [], [])
    else
      var h := Run(es[..|es| - 1]);
      var e := es[|es| - 1];
      var t := Step(h.s, e);
      History(t.s, h.log + Items(h.s, e), h.effects + t.effects)
  }

  /** The safety theorem: in every run each access unit handed out is playable after what came before it. */
  lemma {:induction false} DeliveredStreamIsDecodable(es: seq<Event>)
    ensures AllPlayable(Run(es).log) && Safe(Run(es).log, Run(es).s)
  {
    hide Step, Items, AllPlayable, Playable;
    if es == [] {
      InitiallySafe();
    } else {
      hide Safe;
      DeliveredStreamIsDecodable(es[..|es| - 1]);
      var h := Run(es[..|es| - 1]);
      StepSafe(h.log, h.s, es[|es| - 1]);
      SafeIsPlayable(Run(es).log, Run(es).s);
    }
  }

  lemma InitiallySafe()
    ensures Safe([], INITIAL)
  {
    hide RtpChain.Inv, DcOrder.Resumable;
    RtpChain.ResetKeeps(Rtp.INITIAL);
    DcOrder.InitialResumes(Dc.INITIAL);
  }

  lemma SafeIsPlayable(log: seq<Item>, s: State)
    requires Safe(log, s)
    ensures AllPlayable(log)
  {
  }

  /** The last thing was no delivery over `transport`. */
  predicate Switches(before: Option<Item>, transport: Transport) {
    match before
    case Some(Delivered(tr, _, _)) => tr != transport
    case _ => true
  }

  /** In particular every switch of transport, and the first unit after a close or reset, starts at an IDR. */
  lemma SwitchStartsAtIdr(es: seq<Event>, j: nat)
    requires j < |Run(es).log| && Run(es).log[j].Delivered?
    requires Switches(Prev(Run(es).log[..j]), Run(es).log[j].transport)
    ensures CarriesIdr(Run(es).log[j].data)
  {
    hide Run, CarriesIdr, CleanSince;
    DeliveredStreamIsDecodable(es);
    assert Playable(Run(es).log[..j], Run(es).log[j]);
  }

  /** Such bytes are also what the queue behind the engine takes for a random access point,
      whenever they are a byte stream within its limits. */
  lemma SwitchIsConfigured(es: seq<Event>, j: nat)
    requires j < |Run(es).log| && Run(es).log[j].Delivered?
    requires Switches(Prev(Run(es).log[..j]), Run(es).log[j].transport)
    ensures var data := Run(es).log[j].data;
            ConfiguredIdr(data) <==> Split(data).Some?
  {
    hide Run, CarriesIdr, ConfiguredIdr, Split;
    SwitchStartsAtIdr(es, j);
    CarriedIsConfigured(Run(es).log[j].data);
  }
}
