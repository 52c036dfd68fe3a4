/** What every RTP packet keeps: the buffered bytes are whole units, and a unit is only delivered when a decoder
    can use it: an IDR with its parameter sets, or the successor of the delivery before it with no packet lost. */
module RtpChain {
  import opened Wire
  import opened AnnexB
  import opened AnnexBLaws
  import opened RtpWire
  import opened RtpModel

  /** Nothing stored, or a unit of the right type. */
  ghost predicate StoredOk(n: Nal, t: int) {
    n == [] || (ValidNalu(n) && NalType(n) == t)
  }

  ghost predicate ParamsOk(c: Content) {
    StoredOk(c.sps, 7) && StoredOk(c.pps, 8)
  }

  /** The access unit so far is the printing of `ns`, and the flags tell what is in it. */
  ghost predicate Holds(c: Content, ns: seq<Nal>) {
    && c.au == Print(ns) && AllValid(ns)
    && (c.idr ==> HasType(ns, 5)) && (c.hasSps ==> HasType(ns, 7)) && (c.hasPps ==> HasType(ns, 8))
    && (c.vcl ==> ns != [])
  }

  ghost predicate Sound(c: Content, damaged: bool) {
    && ParamsOk(c) && |c.au| <= MAX_ACCESS_UNIT_BYTES
    && (damaged || exists ns :: Holds(c, ns))
  }

  ghost predicate Inv(s: State) {
    Sound(s.c, s.damaged) && (!s.waiting ==> s.haveSsrc && s.haveSequence)
  }

  /** The packet continues the sequence: it is a late copy, or the next one of the same source. */
  ghost predicate Linked(s: State, bytes: Bytes) {
    match ParseRtp(bytes)
    case None => false
    case Some(p) => s.haveSsrc && s.ssrc == p.ssrc && s.haveSequence && SequenceDelta(p.sequence, s.sequence) <= 1
  }

  /** Delivery `i` starts afresh, or comes right behind another one. */
  ghost predicate Follows(linked: bool, outs: seq<Out>, i: nat)
    requires i < |outs| && outs[i].Deliver?
  {
    CarriesIdr(outs[i].data) || (if i == 0 then linked else outs[i - 1].Deliver?)
  }

  /** The last thing that happened was a delivery. */
  ghost predicate JustDelivered(linked: bool, outs: seq<Out>) {
    if |outs| == 0 then linked else outs[|outs| - 1].Deliver?
  }

  /** Callbacks made during one packet. `linked` says that a delivery came before it and nothing was lost since. */
  ghost predicate Chained(linked: bool, t: Turn) {
    && (forall i :: 0 <= i < |t.outs| && t.outs[i].Deliver? ==> Follows(linked, t.outs, i))
    && (!t.s.waiting ==> JustDelivered(linked, t.outs))
  }

  // ---------------------------------------------------------------- units in the buffer

  lemma HasTypeAppend(xs: seq<Nal>, ys: seq<Nal>, t: int)
    ensures HasType(xs, t) || HasType(ys, t) ==> HasType(xs + ys, t)
  {
    var all := xs + ys;
    if HasType(xs, t) {
      var i :| 0 <= i < |xs| && xs[i] != [] && NalType(xs[i]) == t;
      assert all[i] == xs[i];
    }
    if HasType(ys, t) {
      var i :| 0 <= i < |ys| && ys[i] != [] && NalType(ys[i]) == t;
      assert all[|xs| + i] == ys[i];
    }
  }

  lemma AllValidAppend(xs: seq<Nal>, ys: seq<Nal>)
    requires AllValid(xs) && AllValid(ys)
    ensures AllValid(xs + ys)
  {
  }

  lemma PrintAndTypes(c: Content, ns: seq<Nal>, n: Nal)
    requires Holds(c, ns) && ValidNalu(n)
    ensures Print(ns + [n]) == c.au + Unit(n) && AllValid(ns + [n])
    ensures forall t :: HasType(ns, t) ==> HasType(ns + [n], t)
    ensures HasType(ns + [n], NalType(n))
  {
    hide HasType, NalType, Print, Unit;
    PrintAppend(ns, [n]);
    PrintOne(n);
    forall t ensures HasType(ns, t) ==> HasType(ns + [n], t) { HasTypeSnoc(ns, n, t); }
    HasTypeSnoc(ns, n, NalType(n));
  }

  lemma NothingStored()
    ensures StoredOk([], 7) && StoredOk([], 8)
  {
  }

  lemma RememberKeeps(c: Content, n: Nal)
    requires ParamsOk(c) && ValidNalu(n)
    ensures var r := Remember(c, n);
            && ParamsOk(r) && r.au == c.au && r.idr == c.idr && r.vcl == c.vcl
            && r.hasSps == (c.hasSps || NalType(n) == 7) && r.hasPps == (c.hasPps || NalType(n) == 8)
  {
    ValidIsNonempty(n);
    NothingStored();
    assert StoredOk(n, NalType(n));
    hide StoredOk, ValidNalu, NalType;
  }

  lemma AppendKeeps(c: Content, n: Nal, damaged: bool)
    requires Sound(c, damaged)
    ensures Sound(AppendNalu(c, n).c, damaged)
  {
    hide Print, HasType, AllValid, Remember, StoredOk;
    if Fits(c, n) {
      var r := AppendNalu(c, n).c;
      RememberKeeps(c, n);
      if !damaged {
        var ns :| Holds(c, ns);
        PrintAndTypes(c, ns, n);
        assert Holds(r, ns + [n]);
      }
    }
  }

  lemma {:induction false} AppendAllKeeps(c: Content, ns: seq<Nal>, damaged: bool)
    requires Sound(c, damaged)
    ensures Sound(AppendAll(c, ns).c, damaged)
    decreases |ns|
  {
    hide Sound, AppendNalu;
    if ns != [] {
      AppendAllKeeps(c, ns[..|ns| - 1], damaged);
      AppendKeeps(AppendAll(c, ns[..|ns| - 1]).c, ns[|ns| - 1], damaged);
    }
  }

  /** The fragment buffer does not matter. */
  lemma SoundDependsOn(c: Content, r: Content, damaged: bool)
    requires Sound(c, damaged) && r == c.(fu := r.fu, fuHeader := r.fuHeader)
    ensures Sound(r, damaged)
  {
    hide Print, HasType, AllValid, StoredOk;
    if !damaged {
      var ns :| Holds(c, ns);
      assert Holds(r, ns);
    }
  }

  lemma ExtendKeeps(c: Content, part: Bytes, last: bool, damaged: bool)
    requires Sound(c, damaged)
    ensures Sound(ExtendFragment(c, part, last).c, damaged)
  {
    hide Sound, AppendNalu;
    var g := c.(fu := c.fu + part);
    SoundDependsOn(c, g, damaged);
    AppendKeeps(g, g.fu, damaged);
    var r := AppendNalu(g, g.fu).c;
    SoundDependsOn(r, r.(fu := []), damaged);
  }

  lemma FragmentKeeps(c: Content, p: Bytes, damaged: bool)
    requires Sound(c, damaged) && p != []
    ensures Sound(TakeFragment(c, p).c, damaged)
  {
    hide Sound, ExtendFragment;
    if FragmentOk(p) {
      var o := OpenFragment(c, p[1] >= 128, FragmentHeader(p)).c;
      SoundDependsOn(c, o, damaged);
      ExtendKeeps(o, p[2..], (p[1] / 64) % 2 == 1, damaged);
    }
  }

  lemma PayloadKeeps(c: Content, p: Bytes, damaged: bool)
    requires Sound(c, damaged) && p != []
    ensures Sound(TakePayload(c, p).c, damaged)
  {
    hide Sound, AppendNalu, AppendAll, TakeFragment, StapUnits, TotalSize;
    AppendKeeps(c, p, damaged);
    FragmentKeeps(c, p, damaged);
    if StapUnits(p[1..], 0).Some? {
      AppendAllKeeps(c, StapUnits(p[1..], 0).value, damaged);
    }
  }

  // ---------------------------------------------------------------- steps on the callbacks

  /** One more callback. */
  lemma ChainedSnoc(linked: bool, t: Turn, u: Turn, o: Out)
    requires Chained(linked, t) && u.outs == t.outs + [o]
    requires o.Deliver? ==> CarriesIdr(o.data) || !t.s.waiting
    requires !u.s.waiting ==> o.Deliver?
    ensures Chained(linked, u)
  {
    hide CarriesIdr;
    var n := |t.outs|;
    assert u.outs[n] == o;
    forall i | 0 <= i < |u.outs| && u.outs[i].Deliver? ensures Follows(linked, u.outs, i) {
      if i < n {
        assert u.outs[i] == t.outs[i] && Follows(linked, t.outs, i);
      }
      if i > 0 {
        assert u.outs[i - 1] == t.outs[i - 1];
      }
    }
  }

  lemma LostInv(t: Turn)
    requires Inv(t.s)
    ensures Inv(Lose(t).s)
  {
    hide Holds;
  }

  lemma LoseKeeps(linked: bool, t: Turn)
    requires Inv(t.s) && Chained(linked, t)
    ensures Inv(Lose(t).s) && Chained(linked, Lose(t))
  {
    hide Inv, Chained;
    LostInv(t);
    ChainedSnoc(linked, t, Lose(t), RequestKeyframe);
  }

  lemma EmptyHolds(c: Content)
    requires c.au == [] && !c.idr && !c.vcl && !c.hasSps && !c.hasPps
    ensures Holds(c, [])
  {
  }

  /** The delivered bytes of an IDR carry both parameter sets. */
  lemma IdrOutputCarries(c: Content)
    requires Sound(c, false) && c.idr && c.sps != [] && c.pps != []
    ensures CarriesIdr(Missing(c) + c.au)
  {
    hide Print, HasType, ValidNalu, AllValid, Unit;
    var ns :| Holds(c, ns);
    var head := (if c.hasSps then [] else [c.sps]) + (if c.hasPps then [] else [c.pps]);
    HeadPrints(c, head);
    PrintAppend(head, ns);
    AllValidAppend(head, ns);
    HasTypeAppend(head, ns, 5);
    HasTypeAppend(head, ns, 7);
    HasTypeAppend(head, ns, 8);
    assert IdrUnits(head + ns);
  }

  lemma HeadPrints(c: Content, head: seq<Nal>)
    requires ParamsOk(c) && c.sps != [] && c.pps != []
    requires head == (if c.hasSps then [] else [c.sps]) + (if c.hasPps then [] else [c.pps])
    ensures Print(head) == Missing(c) && AllValid(head)
    ensures !c.hasSps ==> HasType(head, 7)
    ensures !c.hasPps ==> HasType(head, 8)
  {
    hide Print, Unit;
    PrintOne(c.sps);
    PrintOne(c.pps);
    PrintAppend([c.sps], [c.pps]);
    PrintNothing();
    if c.hasSps {
      assert head == if c.hasPps then [] else [c.pps];
      assert Missing(c) == if c.hasPps then [] else Unit(c.pps);
    } else if c.hasPps {
      assert head == [c.sps] && Missing(c) == Unit(c.sps);
    } else {
      assert Missing(c) == Unit(c.sps) + Unit(c.pps);
    }
    if !c.hasSps { assert head[0] == c.sps; }
    if !c.hasPps { assert head[|head| - 1] == c.pps; }
  }

  lemma PrintNothing()
    ensures Print([]) == []
  {
  }

  lemma PrintedIsLonger(ns: seq<Nal>)
    requires ns != []
    ensures Print(ns) != []
  {
  }

  lemma ClearedInv(s: State, r: State)
    requires Inv(s) && r.haveSsrc && r.haveSequence
    requires r.c == ClearFlags(s.c.(au := [], fu := [])) && !r.damaged
    ensures Inv(r)
  {
    hide StoredOk, Holds;
    EmptyHolds(r.c);
  }

  /** An access unit that may not be delivered. */
  lemma EmitRefused(linked: bool, t: Turn)
    requires Chained(linked, t) && !Good(t.s)
    ensures Chained(linked, Emit(t))
  {
    hide Chained, Good, ClearAu;
    var e := Emit(t);
    if e.s.waiting { ChainedSnoc(linked, t, e, RequestKeyframe); } else { ChainedDependsOn(linked, t, e); }
  }

  lemma EmitGood(linked: bool, t: Turn)
    requires Inv(t.s) && Chained(linked, t) && Good(t.s)
    ensures Chained(linked, Emit(t))
  {
    var s, e := t.s, Emit(t);
    GoodNotEmpty(s);
    if s.c.idr { IdrOutputCarries(s.c); }
    GoodWaits(s);
    hide Inv, Chained, Good, CarriesIdr, Missing, ClearAu;
    var prefix := if s.c.idr then Missing(s.c) else [];
    if |s.c.au| + |prefix| <= MAX_ACCESS_UNIT_BYTES {
      assert [] + s.c.au == s.c.au;
      ChainedSnoc(linked, t, e, Deliver(prefix + s.c.au, s.timestamp));
    } else {
      ChainedSnoc(linked, t, e, RequestKeyframe);
    }
  }

  lemma GoodWaits(s: State)
    requires Good(s)
    ensures !s.waiting || s.c.idr
  {
  }

  lemma GoodNotEmpty(s: State)
    requires Inv(s) && Good(s)
    ensures s.c.au != []
  {
    hide HasType, AllValid;
    var ns :| Holds(s.c, ns);
    PrintedIsLonger(ns);
  }

  lemma EmitKeeps(linked: bool, t: Turn)
    requires Inv(t.s) && Chained(linked, t)
    requires t.s.haveSsrc && t.s.haveSequence
    ensures Inv(Emit(t).s) && Chained(linked, Emit(t))
    ensures Emit(t).s.haveSsrc && Emit(t).s.haveSequence && !Emit(t).s.damaged
  {
    if Good(t.s) { EmitGood(linked, t); } else { EmitRefused(linked, t); }
    hide Inv, Missing, Chained, Good;
    ClearedInv(t.s, Emit(t).s);
  }

  lemma ResetKeeps(s: State)
    ensures Inv(Reset(s)) && Inv(INITIAL)
  {
    EmptyHolds(Reset(s).c);
    EmptyHolds(INITIAL.c);
  }

  // ---------------------------------------------------------------- one packet

  /** `s` may differ from `r` in what only concerns sources, numbers and times. */
  lemma EnterKeeps(s: State, p: RtpPacket)
    requires Inv(s) && !Stale(s, p)
    ensures var e := Enter(s, p);
            && Inv(e.s) && e.s.haveSsrc && e.s.haveSequence
            && Chained(!s.waiting && s.haveSsrc && s.ssrc == p.ssrc && SequenceDelta(p.sequence, s.sequence) == 1, e)
  {
    hide Inv, Emit, Lose, Chained, SequenceDelta, ClearAu;
    var linked := !s.waiting && s.haveSsrc && s.ssrc == p.ssrc && SequenceDelta(p.sequence, s.sequence) == 1;
    var a := SwitchSource(s, p);
    SwitchKeeps(s, p);
    var gap := a.haveSequence && SequenceDelta(p.sequence, a.sequence) != 1;
    var b := a.(sequence := p.sequence, haveSequence := true);
    SequenceKeeps(a, b);
    BoundaryKeeps(linked, b, p, gap);
  }

  lemma SwitchKeeps(s: State, p: RtpPacket)
    requires Inv(s)
    ensures Inv(SwitchSource(s, p)) && SwitchSource(s, p).haveSsrc
    ensures var a := SwitchSource(s, p);
            !a.waiting ==> a.haveSequence && !s.waiting && a.sequence == s.sequence && s.haveSsrc && s.ssrc == p.ssrc
  {
    hide Sound;
    ResetKeeps(s);
  }

  lemma SequenceKeeps(a: State, b: State)
    requires Inv(a) && b.haveSequence && b == a.(sequence := b.sequence, haveSequence := true)
    ensures Inv(b)
  {
    hide Sound;
  }

  lemma TimestampKeeps(a: State, b: State)
    requires Inv(a) && b == a.(timestamp := b.timestamp, haveTimestamp := b.haveTimestamp)
    ensures Inv(b)
  {
    hide Sound;
  }

  /** The boundary and the loss behind it: a gap never lets anything through. */
  lemma BoundaryKeeps(linked: bool, b: State, p: RtpPacket, gap: bool)
    requires Inv(b) && b.haveSsrc && b.haveSequence && (!b.waiting && !gap ==> linked)
    ensures var d := Boundary(Turn(b, []), p, gap);
            var e := if gap then Lose(d) else d;
            Inv(e.s) && e.s.haveSsrc && e.s.haveSequence && Chained(linked, e)
  {
    hide Inv, Emit, Chained, ClearAu;
    var t := Turn(b, []);
    var crossing := b.haveTimestamp && p.timestamp != b.timestamp;
    if gap || (crossing && b.c.fu != []) {
      LostIsChained(linked, t);
      LoseHas(t);
    } else {
      NothingYet(linked, t);
    }
    var c := if crossing then Emit(if gap || b.c.fu != [] then Lose(t) else t) else t;
    if crossing {
      EmitKeeps(linked, if gap || b.c.fu != [] then Lose(t) else t);
    }
    var d := Boundary(t, p, gap);
    TimestampKeeps(c.s, d.s);
    ChainedDependsOn(linked, c, d);
    if gap {
      if crossing { LoseKeeps(linked, d); } else { LostIsChained(linked, d); }
    }
  }

  lemma NothingYet(linked: bool, t: Turn)
    requires t.outs == [] && (!t.s.waiting ==> linked)
    ensures Chained(linked, t)
  {
  }

  /** A loss needs no link before it. */
  lemma LostIsChained(linked: bool, t: Turn)
    requires Inv(t.s) && t.outs == []
    ensures Inv(Lose(t).s) && Chained(linked, Lose(t))
  {
    hide Inv;
    LostInv(t);
    assert Lose(t).outs == [RequestKeyframe];
  }

  lemma ChainedDependsOn(linked: bool, c: Turn, d: Turn)
    requires d.outs == c.outs && d.s.waiting == c.s.waiting
    ensures Chained(linked, c) == Chained(linked, d)
  {
  }

  lemma FinishKeeps(linked: bool, t: Turn, p: RtpPacket)
    requires Inv(t.s) && Chained(linked, t) && t.s.haveSsrc && t.s.haveSequence
    ensures Inv(Finish(t, p).s) && Chained(linked, Finish(t, p))
  {
    hide Inv, Emit, Chained;
    EmitKeeps(linked, t);
    TimestampKeeps(Emit(t).s, Emit(t).s.(haveTimestamp := false));
    ChainedDependsOn(linked, Emit(t), Emit(t).(s := Emit(t).s.(haveTimestamp := false)));
  }

  lemma LoseHas(t: Turn)
    ensures Lose(t).s.haveSsrc == t.s.haveSsrc && Lose(t).s.haveSequence == t.s.haveSequence
  {
  }

  lemma ContentKeeps(s: State, c: Content)
    requires Inv(s) && Sound(c, s.damaged)
    ensures Inv(s.(c := c))
  {
    hide Sound;
  }

  lemma InvSound(s: State)
    requires Inv(s)
    ensures Sound(s.c, s.damaged)
  {
  }

  /** The payload of a packet that entered undamaged. */
  lemma BodyKeeps(linked: bool, t: Turn, p: RtpPacket)
    requires Inv(t.s) && Chained(linked, t) && t.s.haveSsrc && t.s.haveSequence && p.payload != []
    ensures var r := TakePayload(t.s.c, p.payload);
            var u := t.(s := t.s.(c := r.c));
            var f := Finish(if r.ok then u else Lose(u), p);
            Inv(f.s) && Chained(linked, f)
  {
    hide Inv, Sound, Chained, TakePayload, Lose, Finish;
    var r := TakePayload(t.s.c, p.payload);
    var u := t.(s := t.s.(c := r.c));
    InvSound(t.s);
    PayloadKeeps(t.s.c, p.payload, t.s.damaged);
    ContentKeeps(t.s, r.c);
    ChainedDependsOn(linked, t, u);
    LoseKeeps(linked, u);
    LoseHas(u);
    FinishKeeps(linked, if r.ok then u else Lose(u), p);
  }

  /** Every packet keeps the invariant, and whatever it delivers is an IDR with both parameter sets, or follows
      the previous delivery with the packet sequence unbroken and no loss reported in between. */
  lemma StepChain(s: State, bytes: Bytes)
    requires Inv(s)
    ensures Inv(Process(s, bytes).s)
    ensures Chained(!s.waiting && Linked(s, bytes), Process(s, bytes))
  {
    hide Inv, Chained, Enter, TakePayload, Lose, Finish, ClearAu, SequenceDelta, ParseRtp;
    match ParseRtp(bytes)
    case None => LostIsChained(false, Turn(s, []));
    case Some(p) =>
      if Stale(s, p) {
        StaleKeeps(s, p);
        NothingYet(!s.waiting && Linked(s, bytes), Process(s, bytes));
      } else {
        EnterKeeps(s, p);
        var linked := !s.waiting && s.haveSsrc && s.ssrc == p.ssrc && SequenceDelta(p.sequence, s.sequence) == 1;
        var t := Enter(s, p);
        WaitingHas(s);
        assert linked == (!s.waiting && Linked(s, bytes)) by { if !s.waiting { NotStale(s, p); } }
        if t.s.damaged {
          DamagedKeeps(linked, t);
        } else if p.payload[0] >= 128 {
          LoseKeeps(linked, t);
        } else {
          BodyKeeps(linked, t, p);
        }
      }
  }

  lemma WaitingHas(s: State)
    requires Inv(s)
    ensures !s.waiting ==> s.haveSsrc && s.haveSequence
  {
  }

  lemma NotStale(s: State, p: RtpPacket)
    requires !Stale(s, p) && s.haveSsrc && s.haveSequence
    ensures s.ssrc == p.ssrc ==> SequenceDelta(p.sequence, s.sequence) > 0
  {
  }

  lemma StaleKeeps(s: State, p: RtpPacket)
    requires Inv(s) && Stale(s, p)
    ensures Inv(s.(haveSsrc := true, ssrc := p.ssrc))
    ensures !s.waiting ==>
              s.haveSsrc && s.ssrc == p.ssrc && s.haveSequence && SequenceDelta(p.sequence, s.sequence) <= 1
  {
    hide Sound;
  }

  lemma DamagedKeeps(linked: bool, t: Turn)
    requires Inv(t.s) && Chained(linked, t) && t.s.haveSsrc && t.s.haveSequence
    ensures var r := t.(s := ClearAu(t.s).(haveTimestamp := false));
            Inv(r.s) && Chained(linked, r)
  {
    hide Inv, Chained;
    var r := t.(s := ClearAu(t.s).(haveTimestamp := false));
    ClearedInv(t.s, r.s);
    ChainedDependsOn(linked, t, r);
  }
}
