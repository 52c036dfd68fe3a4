/** RTP video after a loss: every loss asks for a keyframe, the damaged access unit ends, and a whole IDR behind it is
    delivered, whatever state the loss left. */
module RtpRecovery {
  import opened Wire
  import opened AnnexB
  import opened RtpWire
  import opened RtpModel
  import opened RtpPacketization

  // ---------------------------------------------------------------- a loss asks for a keyframe

  /** The packet does not follow the last one of its source. */
  predicate Gap(s: State, p: RtpPacket) {
    !NewSource(s, p) && s.haveSequence && SequenceDelta(p.sequence, s.sequence) > 1
  }

  predicate Asks(outs: seq<Out>) {
    outs != [] && outs[|outs| - 1] == RequestKeyframe
  }

  lemma LoseAsks(t: Turn)
    ensures Asks(Lose(t).outs) && Lose(t).s.damaged && Lose(t).s.waiting
  {
  }

  /** An undamaged access unit meets a payload it cannot take. */
  predicate Refuses(s: State, p: RtpPacket)
    requires !Stale(s, p) && p.payload != []
  {
    var t := Enter(s, p);
    !t.s.damaged && (p.payload[0] >= 128 || !TakePayload(t.s.c, p.payload).ok)
  }

  /** A packet that cannot be read, the first one behind a gap, and one whose payload is
      refused make a request, and from then on a keyframe is awaited. */
  lemma LossAsks(s: State, b: Bytes)
    requires ParseRtp(b).None?
             || (!Stale(s, ParseRtp(b).value) && (Gap(s, ParseRtp(b).value) || Refuses(s, ParseRtp(b).value)))
    ensures Asks(Process(s, b).outs) && Process(s, b).s.waiting
  {
    hide ParseRtp, Stale, Boundary, TakePayload, Emit, Lose, Enter;
    if ParseRtp(b).None? {
      LoseAsks(Turn(s, []));
    } else {
      var p := ParseRtp(b).value;
      var t := Enter(s, p);
      if Gap(s, p) {
        GapLoses(s, p);
      } else if p.payload[0] >= 128 {
        LoseAsks(t);
      } else {
        var u := t.(s := t.s.(c := TakePayload(t.s.c, p.payload).c));
        LoseAsks(u);
        EmitAsks(Lose(u));
      }
    }
  }

  lemma GapLoses(s: State, p: RtpPacket)
    requires !Stale(s, p) && Gap(s, p)
    ensures Enter(s, p).s.damaged && Enter(s, p).s.waiting && Asks(Enter(s, p).outs)
    ensures ClearAu(Enter(s, p).s).waiting
  {
    hide SequenceDelta, Boundary, Lose;
    var a := SwitchSource(s, p);
    LoseAsks(Boundary(Turn(a.(sequence := p.sequence, haveSequence := true), []), p, true));
  }

  /** The end of a damaged access unit asks again. */
  lemma EmitAsks(t: Turn)
    requires t.s.damaged && t.s.waiting
    ensures Asks(Emit(t).outs) && Emit(t).s.waiting
  {
  }

  // ---------------------------------------------------------------- an access unit is over

  /** Nothing of an access unit is open. */
  predicate UnitOver(s: State) {
    !s.haveTimestamp && !s.damaged && Fresh(s.c)
  }

  /** The state a packet leaves: its number is the last, and its access unit is over or still open at its time. */
  ghost predicate Left(s: State, p: RtpPacket) {
    && s.haveSsrc && s.ssrc == p.ssrc && s.haveSequence && s.sequence == p.sequence
    && (UnitOver(s) || (s.haveTimestamp && s.timestamp == p.timestamp))
  }

  lemma EmitClears(t: Turn)
    ensures !Emit(t).s.damaged && Fresh(Emit(t).s.c)
    ensures Emit(t).s.timestamp == t.s.timestamp && Emit(t).s.haveTimestamp == t.s.haveTimestamp
  {
    hide Good, Missing;
  }

  lemma LoseRecords(t: Turn)
    ensures var l := Lose(t).s;
            && l.haveSsrc == t.s.haveSsrc && l.ssrc == t.s.ssrc && l.haveSequence == t.s.haveSequence
            && l.sequence == t.s.sequence && l.haveTimestamp == t.s.haveTimestamp && l.timestamp == t.s.timestamp
  {
  }

  /** Whatever the state and the packet: the marker ends the access unit, damaged or not, unless the packet itself is
      malformed in its first byte. */
  lemma PacketLeaves(s: State, b: Bytes)
    requires ParseRtp(b).Some? && !Stale(s, ParseRtp(b).value)
    ensures var p, r := ParseRtp(b).value, Process(s, b).s;
            && Left(r, p)
            && (p.marker && (p.payload[0] < 128 || Enter(s, p).s.damaged) ==> UnitOver(r))
  {
    hide ParseRtp, SequenceDelta, Stale, Enter, TakePayload, Emit, Lose, Fresh;
    var p := ParseRtp(b).value;
    var t := Enter(s, p);
    EnterRecords(s, p);
    if t.s.damaged {
      ClearedIsFresh(t.s);
    } else if p.payload[0] >= 128 {
      LoseRecords(t);
    } else {
      var r := TakePayload(t.s.c, p.payload);
      var u := t.(s := t.s.(c := r.c));
      LoseRecords(u);
      var v := if r.ok then u else Lose(u);
      EmitClears(v);
      EmitRecords(v);
    }
  }

  lemma ClearedIsFresh(s: State)
    ensures Fresh(ClearAu(s).c) && !ClearAu(s).damaged
    ensures ClearAu(s) == s.(c := ClearAu(s).c, damaged := false)
  {
  }

  // ---------------------------------------------------------------- the next access unit starts undamaged

  /** The unit follows in sequence, and the one before it is over or has another time. */
  predicate Next(s: State, q: U16, timestamp: U32, ssrc: U32) {
    && s.haveSsrc && s.ssrc == ssrc && s.haveSequence && SequenceDelta(q, s.sequence) == 1
    && (UnitOver(s) || (s.haveTimestamp && s.timestamp != timestamp))
  }

  /** Even behind a damaged access unit the next one starts undamaged and with nothing collected. */
  lemma NextStarts(s: State, q: U16, timestamp: U32, ssrc: U32)
    requires Next(s, q, timestamp, ssrc)
    ensures Starts(s, q, timestamp, ssrc) && Fresh(Entered(s, q, timestamp, ssrc).s.c)
    ensures Entered(s, q, timestamp, ssrc).s.timestamp == timestamp
  {
    hide SequenceDelta, Emit, Lose, Fresh;
    var p := Bare(q, timestamp, ssrc);
    var t := Turn(s.(sequence := q, haveSequence := true), []);
    var l := if s.c.fu != [] then Lose(t) else t;
    EmitClears(l);
    FreshIsEmpty(Emit(l).s.c);
    FreshIsEmpty(s.c);
    assert !Stale(s, p);
    assert SwitchSource(s, p) == s;
  }

  lemma FreshIsEmpty(c: Content)
    ensures Fresh(c) ==> c.fu == [] && c.au == []
  {
  }

  // ---------------------------------------------------------------- a whole IDR

  /** The last PPS of the list stands behind its last SPS. */
  predicate SetsInOrder(ns: seq<Nal>) {
    exists i :: 0 <= i < |ns| && ns[i] != [] && NalType(ns[i]) == 8
                && forall j :: i < j < |ns| && ns[j] != [] ==> NalType(ns[j]) != 7
  }

  /** Whether units fit depends only on how much there is already. */
  lemma {:induction false} FitsAnywhere(c: Content, d: Content, ns: seq<Nal>)
    requires |c.au| == |d.au|
    ensures AppendAll(c, ns).ok == AppendAll(d, ns).ok
    ensures |AppendAll(c, ns).c.au| == |AppendAll(d, ns).c.au|
    decreases |ns|
  {
    hide AppendNalu;
    if ns != [] {
      var n := |ns| - 1;
      FitsAnywhere(c, d, ns[..n]);
      FitsAlike(AppendAll(c, ns[..n]).c, AppendAll(d, ns[..n]).c, ns[n]);
    }
  }

  lemma FitsAlike(c: Content, d: Content, n: Nal)
    requires |c.au| == |d.au|
    ensures AppendNalu(c, n).ok == AppendNalu(d, n).ok && |AppendNalu(c, n).c.au| == |AppendNalu(d, n).c.au|
  {
    hide ValidNalu, NalType, Unit;
  }

  const NOTHING := INITIAL.c

  /** The units fit an access unit of their own. */
  predicate FitAlone(ns: seq<Nal>) {
    AppendAll(NOTHING, ns).ok
  }

  lemma OneStores(c: Content, n: Nal)
    requires AppendNalu(c, n).ok
    ensures n != []
    ensures var r, t := AppendNalu(c, n).c, NalType(n);
            && (t == 7 ==> r.sps == n) && (t != 7 ==> r.sps == c.sps)
            && (t == 8 ==> r.pps == n) && (t != 7 && t != 8 ==> r.pps == c.pps)
  {
    hide Unit;
  }

  /** Both parameter sets are known behind a list that brings them in order. */
  lemma {:induction false} SetsStored(c: Content, ns: seq<Nal>, i: nat)
    requires AppendAll(c, ns).ok && i < |ns| && ns[i] != [] && NalType(ns[i]) == 8
    requires forall j :: i < j < |ns| && ns[j] != [] ==> NalType(ns[j]) != 7
    ensures AppendAll(c, ns).c.pps != []
    decreases |ns|
  {
    hide AppendNalu, NalType;
    var n := |ns| - 1;
    OneStores(AppendAll(c, ns[..n]).c, ns[n]);
    if i < n { SetsStored(c, ns[..n], i); }
  }

  lemma {:induction false} SpsStored(c: Content, ns: seq<Nal>)
    requires AppendAll(c, ns).ok && HasType(ns, 7)
    ensures AppendAll(c, ns).c.sps != []
    decreases |ns|
  {
    hide AppendNalu, NalType;
    var n := |ns| - 1;
    OneStores(AppendAll(c, ns[..n]).c, ns[n]);
    var i :| 0 <= i < |ns| && ns[i] != [] && NalType(ns[i]) == 7;
    if NalType(ns[n]) != 7 {
      assert ns[..n][i] == ns[i];
      SpsStored(c, ns[..n]);
    }
  }

  /** An IDR with its parameter sets that fits an access unit. */
  ghost predicate WholeIdr(ns: seq<Nal>) {
    HasType(ns, 5) && HasType(ns, 7) && HasType(ns, 8) && SetsInOrder(ns) && FitAlone(ns)
  }

  lemma IdrDeliverable(c: Content, ns: seq<Nal>, waiting: bool)
    requires WholeIdr(ns) && Fresh(c)
    ensures AppendAll(c, ns).ok && ns != []
    ensures Emitted(AppendAll(c, ns).c, ns) == ns && Deliverable(waiting, AppendAll(c, ns).c, ns)
  {
    hide NalType, AppendAll, Print;
    FitsAnywhere(c, NOTHING, ns);
    var i :| 0 <= i < |ns| && ns[i] != [] && NalType(ns[i]) == 8
             && forall j :: i < j < |ns| && ns[j] != [] ==> NalType(ns[j]) != 7;
    SetsStored(c, ns, i);
    SpsStored(c, ns);
    AppendAllPrints(c, ns);
    assert [] + [] + ns == ns;
    var k :| 0 <= k < |ns| && ns[k] != [] && NalType(ns[k]) == 5;
    assert HasVcl(ns);
  }

  /** Recovery: from any state, with whatever was lost or damaged before, a whole IDR that
      follows in sequence, packed in any way, comes out as it was sent, behind what closing the unit before it gives,
      and no keyframe is awaited. */
  lemma IdrDelivered(s: State, ps: seq<Packaging>, wire: seq<Bytes>, q: U16,
        timestamp: U32, ssrc: U32)
    requires Next(s, q, timestamp, ssrc)
    requires AllOk(ps) && Carries(wire, AllPayloads(ps), q, timestamp, ssrc) && WholeIdr(AllUnits(ps))
    ensures var r := Feed(s, wire);
            r.outs == Entered(s, q, timestamp, ssrc).outs + [Deliver(Print(AllUnits(ps)), timestamp)] && !r.s.waiting
  {
    hide Starts, Entered, Carries, AllPayloads, AllUnits, AppendAll, Feed, Emit, Emitted, Deliverable, WholeIdr, Next,
      Print, Fresh;
    var ns, e := AllUnits(ps), Entered(s, q, timestamp, ssrc);
    NextStarts(s, q, timestamp, ssrc);
    IdrDeliverable(e.s.c, ns, e.s.waiting);
    StartsUndamaged(s, q, timestamp, ssrc);
    AnyPackagingDelivers(s, ps, wire, q, timestamp, ssrc);
    AppendedThenEmitted(e.s, ns);
    EmitBehind(e.s.(c := AppendAll(e.s.c, ns).c), e.outs);
    SameWaits(Feed(s, wire).s, Emit(e.(s := e.s.(c := AppendAll(e.s.c, ns).c))).s);
  }

  lemma SameWaits(a: State, b: State)
    requires Same(a, b)
    ensures a.waiting == b.waiting
  {
  }

  lemma EmitBehind(s: State, outs: seq<Out>)
    ensures Emit(Turn(s, outs)).outs == outs + Emit(Turn(s, [])).outs && Emit(Turn(s, outs)).s == Emit(Turn(s, [])).s
  {
    hide Good, Missing, ClearAu;
    var o := Emit(Turn(s, [])).outs;
    if o != [] {
      assert o == [o[0]];
    } else {
      assert outs + [] == outs;
    }
  }

  lemma Following(n: U16)
    ensures SequenceDelta((n + 1) % 0x1_0000, n) == 1
  {
  }

  /** In particular right behind any packet at all, the first one after a gap included: the
      next access unit in sequence at another time, or at any time once a marker has ended the one before. */
  lemma IdrAfterAnyPacket(s: State, b: Bytes, ps: seq<Packaging>, wire: seq<Bytes>, timestamp: U32)
    requires ParseRtp(b).Some? && !Stale(s, ParseRtp(b).value) && AllOk(ps) && WholeIdr(AllUnits(ps))
    requires var p := ParseRtp(b).value;
             && Carries(wire, AllPayloads(ps), (p.sequence + 1) % 0x1_0000, timestamp, p.ssrc)
             && (timestamp != p.timestamp || (p.marker && (p.payload[0] < 128 || Enter(s, p).s.damaged)))
    ensures var r := Feed(Process(s, b).s, wire);
            && r.outs != [] && r.outs[|r.outs| - 1] == Deliver(Print(AllUnits(ps)), timestamp) && !r.s.waiting
  {
    hide ParseRtp, Stale, Enter, Process, Feed, Carries, AllPayloads, AllUnits, WholeIdr, Print, SequenceDelta, Entered,
      UnitOver;
    var p, r := ParseRtp(b).value, Process(s, b).s;
    PacketLeaves(s, b);
    Following(p.sequence);
    IdrDelivered(r, ps, wire, (p.sequence + 1) % 0x1_0000, timestamp, p.ssrc);
  }
}
