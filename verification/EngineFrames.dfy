/** What the frame and control handlers are given, over runs: every field of a frame record,
    and the control messages of the DataChannel receiver. */
module EngineFrames {
  import opened Wire
  import opened AnnexB
  import opened RtpWire
  import opened Timing
  import opened EngineModel
  import opened EngineChain
  import Rtp = RtpModel
  import Dc = DcModel
  import DcOrder
  import DcControls

  // ---------------------------------------------------------------- what the depacketizers hand up

  /** An access unit with its 32-bit timestamp. */
  datatype Source = Source(data: Bytes, raw: U32, transport: Transport)

  function RtpSource(o: Rtp.Out): seq<Source> {
    if o.Deliver? then [Source(o.data, o.timestamp, OverRtp)] else []
  }

  function RtpSources(outs: seq<Rtp.Out>): seq<Source> {
    if outs == [] then [] else RtpSources(outs[..|outs| - 1]) + RtpSource(outs[|outs| - 1])
  }

  function DcSources(fs: seq<Dc.Delivery>): (ss: seq<Source>)
    ensures |ss| == |fs|
  {
    if fs == [] then []
    else
      var o := fs[|fs| - 1].out;
      DcSources(fs[..|fs| - 1]) + [Source(o.data, o.timestamp, OverDataChannel)]
  }

  /** What event `e` makes the depacketizers hand up. */
  function Sources(s: State, e: Event): seq<Source> {
    match e
    case RtpPacketEvent(b, ns) => if Feeds(s, b) then RtpSources(Rtp.Process(s.rtp, b).outs) else []
    case DcPacketEvent(b, ns) => DcSources(Dc.Process(s.dc, b, ns / 1000).b.frames)
    case TimerEvent(ns) => DcSources(Dc.Tick(s.dc, ns / 1000).b.frames)
    case _ => []
  }

  function FrameIn(e: Effect): seq<Frame> {
    if e.FrameOut? then [e.frame] else []
  }

  function FramesIn(effects: seq<Effect>): seq<Frame> {
    if effects == [] then [] else FramesIn(effects[..|effects| - 1]) + FrameIn(effects[|effects| - 1])
  }

  // ---------------------------------------------------------------- how a frame is to be stamped

  /** The media time `t` shows `raw` in its low 32 bits and lies less than 2^31 ticks from the
      time before it in the same domain; the first time of a domain is the timestamp itself. */
  predicate Continues(prev: Option<int>, raw: U32, t: int) {
    if prev.None? then t == raw else t % 0x1_0000_0000 == raw && -0x8000_0000 <= t - prev.value < 0x8000_0000
  }

  predicate StampedAt(prev: Option<int>, src: Source, f: Frame, ns: nat, generation: nat) {
    && f.annexB == src.data && f.transport == src.transport && f.receivedNs == ns && f.generation == generation
    && f.randomAccess == ConfiguredIdr(src.data) && Continues(prev, src.raw, f.mediaTicks)
  }

  function LastTime(prev: Option<int>, fs: seq<Frame>): Option<int> {
    if fs == [] then prev else Some(fs[|fs| - 1].mediaTicks)
  }

  /** The frames are the sources one by one, each stamped, with the media times running on. */
  ghost predicate Stamped(prev: Option<int>, srcs: seq<Source>, fs: seq<Frame>, ns: nat, generation: nat) {
    && |fs| == |srcs|
    && forall i :: 0 <= i < |fs| ==> StampedAt(LastTime(prev, fs[..i]), srcs[i], fs[i], ns, generation)
  }

  lemma StampedSnoc(prev: Option<int>, srcs: seq<Source>, fs: seq<Frame>, src: Source, f: Frame, ns: nat,
                    generation: nat)
    requires Stamped(prev, srcs, fs, ns, generation) && StampedAt(LastTime(prev, fs), src, f, ns, generation)
    ensures Stamped(prev, srcs + [src], fs + [f], ns, generation)
  {
    hide StampedAt, LastTime;
    var all, more := fs + [f], srcs + [src];
    forall i | 0 <= i < |all| ensures StampedAt(LastTime(prev, all[..i]), more[i], all[i], ns, generation) {
      if i < |fs| {
        assert all[..i] == fs[..i] && all[i] == fs[i] && more[i] == srcs[i];
      } else {
        assert all[..i] == fs;
      }
    }
  }

  lemma FramesSnoc(effects: seq<Effect>, e: Effect)
    ensures FramesIn(effects + [e]) == FramesIn(effects) + FrameIn(e)
  {
    assert (effects + [e])[..|effects|] == effects;
  }

  /** The unwrapper holds the last media time. */
  ghost predicate UnwrapperAt(u: Unwrapper, t: Option<int>) {
    if t.None? then u.last.None? else u.unwrapped == t.value && u.last == Some(t.value % 0x1_0000_0000)
  }

  lemma UnwrapContinues(u: Unwrapper, prev: Option<int>, raw: U32)
    requires UnwrapperAt(u, prev)
    ensures Continues(prev, raw, Unwrapped(u, raw).unwrapped)
    ensures UnwrapperAt(Unwrapped(u, raw), Some(Unwrapped(u, raw).unwrapped))
  {
    if prev.Some? { TickIs(prev.value, raw); }
  }

  lemma TickIs(t: int, raw: U32)
    ensures (t + TickDelta(raw, t % 0x1_0000_0000)) % 0x1_0000_0000 == raw
  {
    var d := TickDelta(raw, t % 0x1_0000_0000);
    assert (t + d) % 0x1_0000_0000 == (t % 0x1_0000_0000 + d) % 0x1_0000_0000;
  }

  // ---------------------------------------------------------------- the callbacks of one event

  /** In the middle of an event at `ns`: the frames so far are stamped, and the unwrapper follows them. */
  ghost predicate Stamps(prev: Option<int>, srcs: seq<Source>, t: Turn, u: Unwrapper, ns: nat, generation: nat) {
    var fs := FramesIn(t.effects);
    && Stamped(prev, srcs, fs, ns, generation) && UnwrapperAt(u, LastTime(prev, fs))
    && t.s.p.currentNs == ns && t.s.p.generation == generation
  }

  lemma OtherStamps(prev: Option<int>, srcs: seq<Source>, t: Turn, v: Turn, u: Unwrapper, ns: nat, generation: nat)
    requires Stamps(prev, srcs, t, u, ns, generation) && FramesIn(v.effects) == FramesIn(t.effects)
    requires v.s.p.currentNs == t.s.p.currentNs && v.s.p.generation == t.s.p.generation
    ensures Stamps(prev, srcs, v, u, ns, generation)
  {
  }

  lemma EmitStamps(prev: Option<int>, srcs: seq<Source>, t: Turn, u: Unwrapper, src: Source, ns: nat, generation: nat)
    requires Stamps(prev, srcs, t, u, ns, generation)
    ensures var w := Unwrapped(u, src.raw);
            Stamps(prev, srcs + [src], EmitFrame(t, src.data, w.unwrapped, src.transport), w, ns, generation)
  {
    hide Stamped, ConfiguredIdr, Unwrapped, Continues, UnwrapperAt, FramesIn;
    var fs := FramesIn(t.effects);
    var w := Unwrapped(u, src.raw);
    UnwrapContinues(u, LastTime(prev, fs), src.raw);
    var v := EmitFrame(t, src.data, w.unwrapped, src.transport);
    var f := v.effects[|t.effects|].frame;
    FramesSnoc(t.effects, FrameOut(f));
    StampedSnoc(prev, srcs, fs, src, f, ns, generation);
    assert (fs + [f])[|fs|] == f;
  }

  lemma DispatchKeeps(t: Turn, now: nat)
    ensures FramesIn(TryDispatch(t, now).effects) == FramesIn(t.effects)
    ensures TryDispatch(t, now).s == t.s.(p := TryDispatch(t, now).s.p)
    ensures TryDispatch(t, now).s.p == t.s.p.(lastRequestNs := TryDispatch(t, now).s.p.lastRequestNs)
  {
    hide FramesIn;
    var u := TryDispatch(t, now);
    if u != t {
      FramesSnoc(t.effects, u.effects[|t.effects|]);
      assert FramesIn(t.effects) + [] == FramesIn(t.effects);
    }
  }

  lemma RtpOutStamps(prev: Option<int>, srcs: seq<Source>, t: Turn, o: Rtp.Out, ns: nat, generation: nat)
    requires Stamps(prev, srcs, t, t.s.rtpUnwrapper, ns, generation) && !t.s.p.dcVideo
    ensures var r := OnRtpOut(t, o);
            Stamps(prev, srcs + RtpSource(o), r, r.s.rtpUnwrapper, ns, generation) && !r.s.p.dcVideo
  {
    hide Stamps, Unwrapped, ConfiguredIdr, FramesIn, TryDispatch;
    match o
    case Deliver(data, ticks) =>
      var u := Unwrapped(t.s.rtpUnwrapper, ticks);
      var v := t.(s := t.s.(rtpUnwrapper := u));
      OtherStamps(prev, srcs, t, v, t.s.rtpUnwrapper, ns, generation);
      EmitStamps(prev, srcs, v, t.s.rtpUnwrapper, Source(data, ticks, OverRtp), ns, generation);
    case RequestKeyframe =>
      var lost := Do(t, LossOut(t.s.p.currentNs));
      FramesSnoc(t.effects, LossOut(t.s.p.currentNs));
      assert FramesIn(t.effects) + [] == FramesIn(t.effects);
      var asked := SetPolicy(lost, lost.s.p.(needKeyframe := true));
      DispatchKeeps(asked, lost.s.p.currentNs);
      OtherStamps(prev, srcs, t, OnRtpOut(t, o), t.s.rtpUnwrapper, ns, generation);
      assert srcs + [] == srcs;
  }

  lemma {:induction false} RtpOutsStamp(prev: Option<int>, t: Turn, outs: seq<Rtp.Out>, ns: nat, generation: nat)
    requires Stamps(prev, [], t, t.s.rtpUnwrapper, ns, generation) && !t.s.p.dcVideo
    ensures var r := OnRtpOuts(t, outs);
            Stamps(prev, RtpSources(outs), r, r.s.rtpUnwrapper, ns, generation) && !r.s.p.dcVideo
    decreases |outs|
  {
    hide Stamps, OnRtpOut, RtpSource;
    if outs != [] {
      var init := outs[..|outs| - 1];
      RtpOutsStamp(prev, t, init, ns, generation);
      RtpOutStamps(prev, RtpSources(init), OnRtpOuts(t, init), outs[|outs| - 1], ns, generation);
    }
  }

  lemma {:induction false} ControlsStamp(prev: Option<int>, t: Turn, cs: seq<Dc.Control>, u: Unwrapper, ns: nat,
                                         generation: nat)
    requires Stamps(prev, [], t, u, ns, generation)
    ensures Stamps(prev, [], OnControls(t, cs), u, ns, generation) && OnControls(t, cs).s == t.s
    decreases |cs|
  {
    hide Stamps, FramesIn;
    if cs != [] {
      var v := OnControls(t, cs[..|cs| - 1]);
      ControlsStamp(prev, t, cs[..|cs| - 1], u, ns, generation);
      FramesSnoc(v.effects, ControlOut(cs[|cs| - 1]));
      assert FramesIn(v.effects) + [] == FramesIn(v.effects);
      OtherStamps(prev, [], v, OnControls(t, cs), u, ns, generation);
    }
  }

  lemma {:induction false} DeliveriesStamp(prev: Option<int>, t: Turn, fs: seq<Dc.Delivery>, ns: nat, generation: nat)
    requires Stamps(prev, [], t, t.s.dcUnwrapper, ns, generation)
    ensures var r := OnDeliveries(t, fs);
            Stamps(prev, DcSources(fs), r, r.s.dcUnwrapper, ns, generation)
    decreases |fs|
  {
    hide Stamps, Unwrapped, ConfiguredIdr;
    if fs != [] {
      var init, o := fs[..|fs| - 1], fs[|fs| - 1].out;
      DeliveriesStamp(prev, t, init, ns, generation);
      var r := OnDeliveries(t, init);
      var u := Unwrapped(r.s.dcUnwrapper, o.timestamp);
      var won := r.(s := r.s.(dcUnwrapper := u, p := r.s.p.(dcVideo := true)));
      OtherStamps(prev, DcSources(init), r, won, r.s.dcUnwrapper, ns, generation);
      EmitStamps(prev, DcSources(init), won, r.s.dcUnwrapper, Source(o.data, o.timestamp, OverDataChannel), ns,
        generation);
    }
  }

  // ---------------------------------------------------------------- what the caller has set

  /** The payload types and the generation set last, and the source of the last video packet since a reset. */
  datatype Setting = Setting(types: seq<Byte>, generation: nat, ssrc: Option<U32>)

  function VideoSource(st: Setting, e: Event): Option<U32> {
    if !e.RtpPacketEvent? then None
    else match ParseRtp(e.bytes)
      case None => None
      case Some(p) => if p.payloadType in st.types then Some(p.ssrc) else None
  }

  function NextSetting(st: Setting, e: Event): Setting {
    if e.SetPayloadTypes? then st.(types := e.types)
    else if e.SetGeneration? then st.(generation := e.generation)
    else if e.ResetEvent? then st.(ssrc := None)
    else if VideoSource(st, e).Some? then st.(ssrc := VideoSource(st, e))
    else st
  }

  function SettingOf(es: seq<Event>): Setting {
    if es == [] then Setting([], 0, None) else NextSetting(SettingOf(es[..|es| - 1]), es[|es| - 1])
  }

  ghost predicate Matches(p: Policy, st: Setting) {
    && p.payloadTypes == st.types && p.generation == st.generation
    && st.ssrc == if p.haveVideoSsrc then Some(p.videoSsrc) else None
  }

  /** The event begins a new time domain: a close or reset for both transports, a packet of another source for RTP. */
  predicate Restarts(st: Setting, e: Event, transport: Transport) {
    e.DcClosed? || e.ResetEvent?
    || (transport == OverRtp && VideoSource(st, e).Some? && VideoSource(st, e) != st.ssrc)
  }

  function TransportOf(e: Event): Transport {
    if e.RtpPacketEvent? then OverRtp else OverDataChannel
  }

  /** The media time before the frames of event `e`. */
  function TimeBefore(st: Setting, e: Event, transport: Transport, prev: Option<int>): Option<int> {
    if Restarts(st, e, transport) then None else prev
  }

  /** The last media time handed out over the transport in its current domain. */
  function TimeOf(es: seq<Event>, transport: Transport): Option<int> {
    if es == [] then None
    else
      var earlier, e := es[..|es| - 1], es[|es| - 1];
      var before := TimeBefore(SettingOf(earlier), e, transport, TimeOf(earlier, transport));
      if TransportOf(e) == transport then LastTime(before, FramesIn(Step(Run(earlier).s, e).effects)) else before
  }

  function Arrival(e: Event): nat {
    match e
    case RtpPacketEvent(_, ns) => ns
    case DcPacketEvent(_, ns) => ns
    case TimerEvent(ns) => ns
    case RequestEvent(ns) => ns
    case _ => 0
  }

  // ---------------------------------------------------------------- one event

  /** The unwrappers of both transports follow their last media times. */
  ghost predicate Follows(s: State, rtp: Option<int>, dc: Option<int>) {
    UnwrapperAt(s.rtpUnwrapper, rtp) && UnwrapperAt(s.dcUnwrapper, dc)
  }

  lemma NoFrames(prev: Option<int>, t: Turn, u: Unwrapper)
    requires t.effects == [] && UnwrapperAt(u, prev)
    ensures Stamps(prev, [], t, u, t.s.p.currentNs, t.s.p.generation)
  {
  }

  lemma StampsAre(prev: Option<int>, srcs: seq<Source>, t: Turn, u: Unwrapper, ns: nat, generation: nat)
    requires Stamps(prev, srcs, t, u, ns, generation)
    ensures var fs := FramesIn(t.effects);
            Stamped(prev, srcs, fs, ns, generation) && UnwrapperAt(u, LastTime(prev, fs))
  {
  }

  lemma {:induction false} RtpOutsKeepUnwrapper(t: Turn, outs: seq<Rtp.Out>)
    ensures OnRtpOuts(t, outs).s.dcUnwrapper == t.s.dcUnwrapper
    decreases |outs|
  {
    hide Unwrapped, ConfiguredIdr;
    if outs != [] { RtpOutsKeepUnwrapper(t, outs[..|outs| - 1]); }
  }

  lemma {:induction false} BatchKeepsUnwrapper(t: Turn, b: Dc.Batch)
    ensures OnBatch(t, b).s.rtpUnwrapper == t.s.rtpUnwrapper
  {
    hide OnDeliveries;
    ControlsKeep(t, b.controls);
    DeliveriesKeepUnwrapper(OnControls(t, b.controls), b.frames);
  }

  lemma {:induction false} DeliveriesKeepUnwrapper(t: Turn, fs: seq<Dc.Delivery>)
    ensures OnDeliveries(t, fs).s.rtpUnwrapper == t.s.rtpUnwrapper
    decreases |fs|
  {
    hide Unwrapped, ConfiguredIdr;
    if fs != [] { DeliveriesKeepUnwrapper(t, fs[..|fs| - 1]); }
  }

  lemma RtpEventStamps(s: State, b: Bytes, ns: nat, st: Setting, rtp: Option<int>)
    requires Matches(s.p, st) && UnwrapperAt(s.rtpUnwrapper, rtp)
    ensures var e, t := RtpPacketEvent(b, ns), ProcessRtp(s, b, ns);
            var prev, fs := TimeBefore(st, e, OverRtp, rtp), FramesIn(t.effects);
            && Stamped(prev, Sources(s, e), fs, ns, st.generation) && UnwrapperAt(t.s.rtpUnwrapper, LastTime(prev, fs))
            && t.s.dcUnwrapper == s.dcUnwrapper
  {
    hide Rtp.Process, ParseRtp, OnRtpOuts, RtpSources, Stamps, Stamped, UnwrapperAt, FramesIn;
    FreshAt();
    var a := At(s, ns);
    var prev := TimeBefore(st, RtpPacketEvent(b, ns), OverRtp, rtp);
    var n := if ParseRtp(b).Some? && ParseRtp(b).value.payloadType in st.types
             then NoteSource(a, ParseRtp(b).value.ssrc) else a;
    NoFrames(prev, Turn(n, []), n.rtpUnwrapper);
    StampsAre(prev, [], Turn(n, []), n.rtpUnwrapper, ns, st.generation);
    if Feeds(s, b) {
      var r := Rtp.Process(n.rtp, b);
      var t := Turn(n.(rtp := r.s), []);
      NoFrames(prev, t, n.rtpUnwrapper);
      RtpOutsStamp(prev, t, r.outs, ns, st.generation);
      RtpOutsKeepUnwrapper(t, r.outs);
      StampsAre(prev, RtpSources(r.outs), OnRtpOuts(t, r.outs), OnRtpOuts(t, r.outs).s.rtpUnwrapper, ns, st.generation);
    }
  }

  lemma FreshAt()
    ensures UnwrapperAt(FRESH, None)
  {
  }

  lemma DcEventStamps(s: State, ns: nat, st: Setting, dc: Option<int>, r: Dc.Turn)
    requires Matches(s.p, st) && UnwrapperAt(s.dcUnwrapper, dc)
    ensures var t := OnBatch(Turn(At(s, ns).(dc := r.s), []), r.b);
            var fs := FramesIn(t.effects);
            && Stamped(dc, DcSources(r.b.frames), fs, ns, st.generation)
            && UnwrapperAt(t.s.dcUnwrapper, LastTime(dc, fs))
            && t.s.rtpUnwrapper == s.rtpUnwrapper
  {
    hide OnControls, OnDeliveries, Stamps, Stamped, UnwrapperAt, FramesIn, DcSources;
    var t := Turn(At(s, ns).(dc := r.s), []);
    NoFrames(dc, t, t.s.dcUnwrapper);
    ControlsStamp(dc, t, r.b.controls, t.s.dcUnwrapper, ns, st.generation);
    DeliveriesStamp(dc, OnControls(t, r.b.controls), r.b.frames, ns, st.generation);
    BatchKeepsUnwrapper(t, r.b);
    StampsAre(dc, DcSources(r.b.frames), OnBatch(t, r.b), OnBatch(t, r.b).s.dcUnwrapper, ns, st.generation);
  }

  lemma StepStamps(s: State, e: Event, st: Setting, rtp: Option<int>, dc: Option<int>)
    requires Matches(s.p, st) && Follows(s, rtp, dc)
    ensures var t, mine := Step(s, e), TransportOf(e);
            var fs, prev := FramesIn(t.effects), TimeBefore(st, e, mine, if mine == OverRtp then rtp else dc);
            && Stamped(prev, Sources(s, e), fs, Arrival(e), st.generation)
            && UnwrapperAt(t.s.rtpUnwrapper,
               if mine == OverRtp then LastTime(prev, fs) else TimeBefore(st, e, OverRtp, rtp))
            && UnwrapperAt(t.s.dcUnwrapper, if mine == OverRtp then dc else LastTime(prev, fs))
  {
    hide ProcessRtp, Dc.Process, Dc.Tick, OnBatch, TryDispatch, ParseRtp, Stamped, UnwrapperAt, FramesIn, DcSources,
      Rtp.Reset, Dc.Reset;
    FreshAt();
    NothingStamped();
    match e
    case RtpPacketEvent(b, ns) => RtpEventStamps(s, b, ns, st, rtp);
    case DcPacketEvent(b, ns) => DcEventStamps(s, ns, st, dc, Dc.Process(s.dc, b, ns / 1000));
    case TimerEvent(ns) =>
      var r := Dc.Tick(s.dc, ns / 1000);
      DcEventStamps(s, ns, st, dc, r);
      DispatchKeeps(OnBatch(Turn(At(s, ns).(dc := r.s), []), r.b), ns);
    case RequestEvent(ns) =>
      DispatchKeeps(Turn(s.(p := s.p.(needKeyframe := true)), []), ns);
    case _ =>
  }

  lemma NothingStamped()
    ensures FramesIn([]) == []
    ensures forall prev, ns: nat, generation: nat :: Stamped(prev, [], [], ns, generation)
  {
  }

  // ---------------------------------------------------------------- the settings over runs

  /** Callbacks leave the settings alone. */
  ghost predicate SameSettings(p: Policy, q: Policy) {
    && q.payloadTypes == p.payloadTypes && q.generation == p.generation
    && q.haveVideoSsrc == p.haveVideoSsrc && q.videoSsrc == p.videoSsrc
  }

  lemma {:induction false} RtpOutsKeepSettings(t: Turn, outs: seq<Rtp.Out>)
    ensures SameSettings(t.s.p, OnRtpOuts(t, outs).s.p)
    decreases |outs|
  {
    hide Unwrapped, ConfiguredIdr;
    if outs != [] { RtpOutsKeepSettings(t, outs[..|outs| - 1]); }
  }

  lemma {:induction false} DeliveriesKeepSettings(t: Turn, fs: seq<Dc.Delivery>)
    ensures SameSettings(t.s.p, OnDeliveries(t, fs).s.p)
    decreases |fs|
  {
    hide Unwrapped, ConfiguredIdr;
    if fs != [] { DeliveriesKeepSettings(t, fs[..|fs| - 1]); }
  }

  lemma BatchKeepsSettings(t: Turn, b: Dc.Batch)
    ensures SameSettings(t.s.p, OnBatch(t, b).s.p)
  {
    hide OnDeliveries;
    ControlsKeep(t, b.controls);
    DeliveriesKeepSettings(OnControls(t, b.controls), b.frames);
  }

  lemma StepMatches(s: State, e: Event, st: Setting)
    requires Matches(s.p, st)
    ensures Matches(Step(s, e).s.p, NextSetting(st, e))
  {
    hide Rtp.Process, ParseRtp, OnRtpOuts, Dc.Process, Dc.Tick, OnBatch;
    match e
    case RtpPacketEvent(b, ns) =>
      if ParseRtp(b).Some? {
        var n := NoteSource(At(s, ns), ParseRtp(b).value.ssrc);
        var r := Rtp.Process(n.rtp, b);
        RtpOutsKeepSettings(Turn(n.(rtp := r.s), []), r.outs);
      }
    case DcPacketEvent(b, ns) =>
      var r := Dc.Process(s.dc, b, ns / 1000);
      BatchKeepsSettings(Turn(At(s, ns).(dc := r.s), []), r.b);
    case TimerEvent(ns) =>
      var r := Dc.Tick(s.dc, ns / 1000);
      BatchKeepsSettings(Turn(At(s, ns).(dc := r.s), []), r.b);
    case _ =>
  }

  lemma TimeStep(es: seq<Event>, transport: Transport)
    requires es != []
    ensures var earlier, e := es[..|es| - 1], es[|es| - 1];
            var before := TimeBefore(SettingOf(earlier), e, transport, TimeOf(earlier, transport));
            TimeOf(es, transport) == if TransportOf(e) == transport
                                     then LastTime(before, FramesIn(Step(Run(earlier).s, e).effects)) else before
  {
    hide Step, Run, FramesIn, SettingOf, TimeBefore, LastTime;
  }

  /** What the run so far has set and handed out is what the engine holds. */
  lemma {:induction false} RunFollows(es: seq<Event>)
    ensures Matches(Run(es).s.p, SettingOf(es)) && Follows(Run(es).s, TimeOf(es, OverRtp), TimeOf(es, OverDataChannel))
  {
    hide Step, Items, NextSetting, TimeOf, Matches, UnwrapperAt, FramesIn, LastTime;
    if es == [] {
      RunStarts();
    } else {
      var earlier, e := es[..|es| - 1], es[|es| - 1];
      RunFollows(earlier);
      TimeStep(es, OverRtp);
      TimeStep(es, OverDataChannel);
      StepMatches(Run(earlier).s, e, SettingOf(earlier));
      StepStamps(Run(earlier).s, e, SettingOf(earlier), TimeOf(earlier, OverRtp), TimeOf(earlier, OverDataChannel));
      OnlyOwn(SettingOf(earlier), e, TimeOf(earlier, OverDataChannel));
    }
  }

  lemma OnlyOwn(st: Setting, e: Event, dc: Option<int>)
    ensures e.RtpPacketEvent? ==> TimeBefore(st, e, OverDataChannel, dc) == dc
  {
    hide VideoSource;
  }

  lemma RunStarts()
    ensures Matches(INITIAL.p, SettingOf([])) && Follows(INITIAL, TimeOf([], OverRtp), TimeOf([], OverDataChannel))
  {
  }

  /** In every run an event hands out exactly what the depacketizers hand up, in order, and
      each frame record carries the arrival time of the event, the generation set last, the random-access mark of its
      bytes, and a media time that shows its 32-bit timestamp and runs on from the frame before it over the same
      transport, as long as that is not closed or reset and RTP keeps its source. */
  lemma FramesAreStamped(es: seq<Event>)
    requires es != []
    ensures var earlier, e := es[..|es| - 1], es[|es| - 1];
            var s, st, mine := Run(earlier).s, SettingOf(earlier), TransportOf(e);
            Stamped(TimeBefore(st, e, mine, TimeOf(earlier, mine)), Sources(s, e), FramesIn(Step(s, e).effects),
                    Arrival(e), st.generation)
  {
    hide Step, Sources, SettingOf, TimeOf, Matches, UnwrapperAt, FramesIn, LastTime, Stamped, TimeBefore;
    var earlier, e := es[..|es| - 1], es[|es| - 1];
    RunFollows(earlier);
    StepStamps(Run(earlier).s, e, SettingOf(earlier), TimeOf(earlier, OverRtp), TimeOf(earlier, OverDataChannel));
  }

  // ---------------------------------------------------------------- control messages

  function ControlIn(e: Effect): seq<Dc.Control> {
    if e.ControlOut? then [e.control] else []
  }

  function ControlsIn(effects: seq<Effect>): seq<Dc.Control> {
    if effects == [] then [] else ControlsIn(effects[..|effects| - 1]) + ControlIn(effects[|effects| - 1])
  }

  /** The part of a run that concerns the DataChannel depacketizer. */
  function DcEvent(e: Event): seq<DcOrder.Event> {
    match e
    case DcPacketEvent(b, ns) => [DcOrder.Packet(b, ns / 1000)]
    case TimerEvent(ns) => [DcOrder.Timer(ns / 1000)]
    case DcClosed => [DcOrder.Cleared]
    case ResetEvent => [DcOrder.Cleared]
    case _ => []
  }

  function DcEvents(es: seq<Event>): seq<DcOrder.Event> {
    if es == [] then [] else DcEvents(es[..|es| - 1]) + DcEvent(es[|es| - 1])
  }

  /** The control messages sent since the last close or reset. */
  function Sent(es: seq<Event>): seq<Dc.Control> {
    if es == [] || es[|es| - 1].DcClosed? || es[|es| - 1].ResetEvent? then []
    else Sent(es[..|es| - 1]) + ControlsIn(Step(Run(es[..|es| - 1]).s, es[|es| - 1]).effects)
  }

  lemma ControlsSnoc(effects: seq<Effect>, e: Effect)
    ensures ControlsIn(effects + [e]) == ControlsIn(effects) + ControlIn(e)
  {
    assert (effects + [e])[..|effects|] == effects;
  }

  lemma SilentEffect(effects: seq<Effect>, e: Effect)
    requires !e.ControlOut?
    ensures ControlsIn(effects + [e]) == ControlsIn(effects)
  {
    hide ControlsIn;
    ControlsSnoc(effects, e);
    assert ControlsIn(effects) + [] == ControlsIn(effects);
  }

  lemma DispatchSilent(t: Turn, now: nat)
    ensures ControlsIn(TryDispatch(t, now).effects) == ControlsIn(t.effects)
  {
    hide ControlsIn;
    var u := TryDispatch(t, now);
    if u != t { SilentEffect(t.effects, u.effects[|t.effects|]); }
  }

  lemma EmitSilent(t: Turn, data: Bytes, ticks: int, transport: Transport)
    ensures ControlsIn(EmitFrame(t, data, ticks, transport).effects) == ControlsIn(t.effects)
  {
    hide ControlsIn, ConfiguredIdr;
    var u := EmitFrame(t, data, ticks, transport);
    SilentEffect(t.effects, u.effects[|t.effects|]);
  }

  lemma RtpOutSilent(t: Turn, o: Rtp.Out)
    ensures ControlsIn(OnRtpOut(t, o).effects) == ControlsIn(t.effects)
  {
    hide ControlsIn, EmitFrame, TryDispatch, Unwrapped;
    match o
    case Deliver(data, ticks) =>
      var u := Unwrapped(t.s.rtpUnwrapper, ticks);
      EmitSilent(t.(s := t.s.(rtpUnwrapper := u)), data, u.unwrapped, OverRtp);
    case RequestKeyframe =>
      var lost := Do(t, LossOut(t.s.p.currentNs));
      SilentEffect(t.effects, LossOut(t.s.p.currentNs));
      DispatchSilent(SetPolicy(lost, lost.s.p.(needKeyframe := true)), lost.s.p.currentNs);
  }

  lemma {:induction false} RtpOutsSilent(t: Turn, outs: seq<Rtp.Out>)
    ensures ControlsIn(OnRtpOuts(t, outs).effects) == ControlsIn(t.effects)
    decreases |outs|
  {
    hide ControlsIn, OnRtpOut;
    if outs != [] {
      RtpOutsSilent(t, outs[..|outs| - 1]);
      RtpOutSilent(OnRtpOuts(t, outs[..|outs| - 1]), outs[|outs| - 1]);
    }
  }

  lemma {:induction false} ControlsGoOut(t: Turn, cs: seq<Dc.Control>)
    ensures ControlsIn(OnControls(t, cs).effects) == ControlsIn(t.effects) + cs
    decreases |cs|
  {
    hide ControlsIn;
    if cs == [] {
      assert ControlsIn(t.effects) + [] == ControlsIn(t.effects);
    } else {
      var init, c := cs[..|cs| - 1], cs[|cs| - 1];
      ControlsGoOut(t, init);
      ControlsSnoc(OnControls(t, init).effects, ControlOut(c));
      assert cs == init + [c];
      assert ControlsIn(t.effects) + init + [c] == ControlsIn(t.effects) + (init + [c]);
    }
  }

  lemma {:induction false} DeliveriesSilent(t: Turn, fs: seq<Dc.Delivery>)
    ensures ControlsIn(OnDeliveries(t, fs).effects) == ControlsIn(t.effects)
    decreases |fs|
  {
    hide ControlsIn, EmitFrame, Unwrapped;
    if fs != [] {
      var r, o := OnDeliveries(t, fs[..|fs| - 1]), fs[|fs| - 1].out;
      DeliveriesSilent(t, fs[..|fs| - 1]);
      var u := Unwrapped(r.s.dcUnwrapper, o.timestamp);
      EmitSilent(r.(s := r.s.(dcUnwrapper := u, p := r.s.p.(dcVideo := true))), o.data, u.unwrapped, OverDataChannel);
    }
  }

  lemma NoControls()
    ensures ControlsIn([]) == []
  {
  }

  lemma BatchGoesOut(s: State, b: Dc.Batch)
    ensures ControlsIn(OnBatch(Turn(s, []), b).effects) == b.controls
  {
    hide ControlsIn, OnControls, OnDeliveries;
    NoControls();
    ControlsGoOut(Turn(s, []), b.controls);
    DeliveriesSilent(OnControls(Turn(s, []), b.controls), b.frames);
    assert [] + b.controls == b.controls;
  }

  /** What an event sends is what the DataChannel depacketizer sends, whose state the engine holds. */
  lemma StepSends(s: State, e: Event)
    ensures var t := Step(s, e);
            if DcEvent(e) == [] then ControlsIn(t.effects) == [] && t.s.dc == s.dc
            else var d := DcOrder.Step(s.dc, DcEvent(e)[0]); ControlsIn(t.effects) == d.b.controls && t.s.dc == d.s
  {
    hide ControlsIn, Rtp.Process, ParseRtp, OnRtpOuts, Dc.Process, Dc.Tick, OnBatch, TryDispatch, Dc.Reset, Rtp.Reset;
    NoControls();
    match e
    case RtpPacketEvent(b, ns) =>
      if ParseRtp(b).Some? {
        var n := NoteSource(At(s, ns), ParseRtp(b).value.ssrc);
        var r := Rtp.Process(n.rtp, b);
        RtpOutsSilent(Turn(n.(rtp := r.s), []), r.outs);
        RtpOutsKeep(Turn(n.(rtp := r.s), []), r.outs);
      }
    case DcPacketEvent(b, ns) =>
      var r := Dc.Process(s.dc, b, ns / 1000);
      BatchGoesOut(At(s, ns).(dc := r.s), r.b);
      BatchKeeps(Turn(At(s, ns).(dc := r.s), []), r.b);
    case TimerEvent(ns) =>
      var r := Dc.Tick(s.dc, ns / 1000);
      var t := Turn(At(s, ns).(dc := r.s), []);
      BatchGoesOut(At(s, ns).(dc := r.s), r.b);
      BatchKeeps(t, r.b);
      DispatchSilent(OnBatch(t, r.b), ns);
      DispatchKeeps(OnBatch(t, r.b), ns);
    case RequestEvent(ns) =>
      var t := Turn(s.(p := s.p.(needKeyframe := true)), []);
      DispatchSilent(t, ns);
      DispatchKeeps(t, ns);
    case _ =>
  }

  /** In every run the control handler gets just what the DataChannel depacketizer sends over its own run, so each
      picture-loss indication is followed by the cut of the rate told before it and every other message is a raise. */
  lemma {:induction false} ControlsAreSent(es: seq<Event>)
    ensures Run(es).s.dc == DcOrder.Run(DcEvents(es)).s && Sent(es) == DcControls.Controls(DcEvents(es))
    ensures DcControls.WellTold(Sent(es))
  {
    hide Run, Step, Items, Sent, DcEvents, DcEvent, DcOrder.Run, DcOrder.Step, DcControls.Controls, DcControls.WellTold;
    DcControls.RatesAreTold(DcEvents(es));
    if es == [] {
      NothingSent();
    } else {
      var earlier, e := es[..|es| - 1], es[|es| - 1];
      ControlsAreSent(earlier);
      StepSends(Run(earlier).s, e);
      DcEventsStep(es);
      SentStep(es);
      OneDcEvent(e);
      if DcEvent(e) != [] { DcRunStep(DcEvents(es)); }
    }
  }

  lemma NothingSent()
    ensures Run([]).s.dc == DcOrder.Run(DcEvents([])).s && Sent([]) == DcControls.Controls(DcEvents([]))
  {
  }

  lemma OneDcEvent(e: Event)
    ensures |DcEvent(e)| <= 1
    ensures DcEvent(e) != [] ==> (DcEvent(e)[0].Cleared? <==> e.DcClosed? || e.ResetEvent?)
    ensures DcEvent(e) == [] ==> !e.DcClosed? && !e.ResetEvent?
  {
  }

  lemma SentStep(es: seq<Event>)
    requires es != []
    ensures var earlier, e := es[..|es| - 1], es[|es| - 1];
            && Run(es).s == Step(Run(earlier).s, e).s
            && Sent(es) == (if e.DcClosed? || e.ResetEvent? then []
                            else Sent(earlier) + ControlsIn(Step(Run(earlier).s, e).effects))
            && Sent(earlier) + [] == Sent(earlier)
  {
    hide Step, Items, ControlsIn;
  }

  lemma DcRunStep(es: seq<DcOrder.Event>)
    requires es != []
    ensures var earlier, e := es[..|es| - 1], es[|es| - 1];
            var t := DcOrder.Step(DcOrder.Run(earlier).s, e);
            && DcOrder.Run(es).s == t.s
            && DcControls.Controls(es) == if e.Cleared? then [] else DcControls.Controls(earlier) + t.b.controls
  {
    hide DcOrder.Step;
  }

  lemma DcEventsStep(es: seq<Event>)
    requires es != []
    ensures var earlier, e := es[..|es| - 1], DcEvent(es[|es| - 1]);
            && (e == [] ==> DcEvents(es) == DcEvents(earlier))
            && (e != [] ==> DcEvents(es) != [] && DcEvents(es)[..|DcEvents(es)| - 1] == DcEvents(earlier)
                            && DcEvents(es)[|DcEvents(es)| - 1] == e[0])
  {
  }
}
