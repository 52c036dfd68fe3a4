/** Runs of the DataChannel depacketizer: deliveries come in order and form decodable chains, and picture-loss
    indications keep their distance. */
module DcOrder {
  import opened Wire
  import opened AnnexB
  import opened AnnexBLaws
  import opened DcModel
  import opened DcInvariants

  // ---------------------------------------------------------------- what is claimed of the deliveries

  /** Strictly later: a later period, or further on in the same one. */
  ghost predicate Before(p: nat, n: nat, q: nat, m: nat) {
    p < q || (p == q && n < m)
  }

  ghost predicate Ordered(fs: seq<Delivery>) {
    forall i, j :: 0 <= i < j < |fs| ==> Before(fs[i].period, fs[i].position, fs[j].period, fs[j].position)
  }

  /** `d` depends on nothing before it, or only on the frame delivered just before it. */
  ghost predicate Decodable(fs: seq<Delivery>, i: nat)
    requires i < |fs|
  {
    CarriesIdr(fs[i].out.data) ||
    (i > 0 && fs[i - 1].period == fs[i].period && fs[i].position == fs[i - 1].position + 1)
  }

  ghost predicate Chain(fs: seq<Delivery>) {
    forall i :: 0 <= i < |fs| ==> Decodable(fs, i) && fs[i].seqNo == fs[i].position % 0x1_0000
  }

  // ---------------------------------------------------------------- the invariant behind it

  ghost predicate ParamsOk(s: State) {
    && (s.sps == [] || (ValidNalu(s.sps) && NalType(s.sps) == 7))
    && (s.pps == [] || (ValidNalu(s.pps) && NalType(s.pps) == 8))
  }

  /** While no keyframe is awaited, the last delivery is the frame before the expected one. */
  ghost predicate Tail(fs: seq<Delivery>, s: State) {
    !s.waiting ==>
        s.initialized && fs != [] && fs[|fs| - 1].period == s.period && fs[|fs| - 1].position + 1 == s.position
  }

  ghost predicate Passed(fs: seq<Delivery>, s: State) {
    forall i :: 0 <= i < |fs| ==> Before(fs[i].period, fs[i].position, s.period, s.position)
  }

  ghost predicate Link(fs: seq<Delivery>, s: State) {
    && Ordered(fs) && Chain(fs) && Tail(fs, s) && Passed(fs, s) && ParamsOk(s)
    && (s.initialized ==> s.position % 0x1_0000 == s.expected)
  }

  /** Link over the deliveries of earlier steps followed by those of the current one. */
  ghost predicate Good(past: seq<Delivery>, t: Turn) {
    Link(past + t.b.frames, t.s)
  }

  // ---------------------------------------------------------------- the steps

  /** Only the fields Link speaks of matter. */
  lemma LinkDependsOn(fs: seq<Delivery>, s: State, r: State)
    requires Link(fs, s)
    requires r.sps == s.sps && r.pps == s.pps && r.period == s.period && r.position == s.position
    requires r.expected == s.expected && r.initialized == s.initialized && (!s.waiting || r.waiting || !r.initialized)
    requires r.waiting || !s.waiting
    ensures Link(fs, r)
  {
    hide Ordered, Chain;
  }

  lemma RecoverLinks(past: seq<Delivery>, t: Turn, now: int)
    requires Good(past, t)
    ensures Good(past, Recover(t, now)) && Recover(t, now).s.waiting && Recover(t, now).b.frames == t.b.frames
  {
    hide Link;
    LinkDependsOn(past + t.b.frames, t.s, Recover(t, now).s);
  }

  lemma EraseLinks(past: seq<Delivery>, t: Turn, k: U16)
    requires Good(past, t) && k in t.s.pending
    ensures Good(past, t.(s := Erase(t.s, k)))
  {
    hide Link;
    LinkDependsOn(past + t.b.frames, t.s, Erase(t.s, k));
  }

  lemma {:induction false} ExpireLinks(past: seq<Delivery>, t: Turn, n: nat, now: int)
    requires Good(past, t) && n <= 0x1_0000
    ensures Good(past, ExpireBelow(t, n, now))
  {
    hide Good, Recover, Erase;
    if n > 0 {
      ExpireLinks(past, t, n - 1, now);
      var u := ExpireBelow(t, n - 1, now);
      if n - 1 in u.s.pending && Expired(u.s.pending[n - 1], now) {
        EraseLinks(past, u, n - 1);
        RecoverLinks(past, u.(s := Erase(u.s, n - 1)), now);
      }
    }
  }

  lemma InitializeLinks(past: seq<Delivery>, t: Turn)
    requires Good(past, t)
    ensures Good(past, t.(s := Initialize(t.s)))
  {
    hide FirstBelow, Ordered, Chain;
  }

  /** Moving on while a keyframe is awaited. */
  lemma MoveLinks(fs: seq<Delivery>, s: State, r: State)
    requires Link(fs, s) && s.initialized && r.waiting && r.initialized
    requires r.sps == s.sps && r.pps == s.pps && r.period == s.period
    requires r.position >= s.position && r.expected == r.position % 0x1_0000
    ensures Link(fs, r)
  {
    hide Ordered, Chain;
  }

  lemma LastOfIs(ns: seq<Nal>, t: int)
    requires AllValid(ns)
    ensures LastOf(ns, t) == [] || (ValidNalu(LastOf(ns, t)) && NalType(LastOf(ns, t)) == t)
  {
    hide ValidNalu, NalType;
    if ns != [] && !(ns[|ns| - 1] != [] && NalType(ns[|ns| - 1]) == t) {
      var init := ns[..|ns| - 1];
      forall i | 0 <= i < |init| ensures ValidNalu(init[i]) { assert init[i] == ns[i]; }
      LastOfIs(init, t);
    }
  }

  lemma UnitsAreValid(raw: Bytes)
    requires Units(raw).Some?
    ensures AllValid(Units(raw).value)
  {
    hide Split, SplitLengths, ValidNalu;
    if Split(raw).Some? {
      SplitIsClean(raw);
      forall i | 0 <= i < |Split(raw).value| ensures ValidNalu(Split(raw).value[i]) {
        assert Clean(Split(raw).value[i]);
      }
    } else {
      SplitLengthsReadsThePrinter(raw, SplitLengths(raw).value);
    }
  }

  lemma KeptAreValid(ns: seq<Nal>, idr: bool)
    requires AllValid(ns)
    ensures AllValid(KeptUnits(ns, idr))
    ensures idr && HasType(ns, 5) ==> HasType(KeptUnits(ns, idr), 5)
  {
    hide ValidNalu;
    if ns != [] {
      var init, n := ns[..|ns| - 1], ns[|ns| - 1];
      forall i | 0 <= i < |init| ensures ValidNalu(init[i]) { assert init[i] == ns[i]; }
      KeptAreValid(init, idr);
      if HasType(ns, 5) && n != [] && NalType(n) == 5 {
        assert KeptUnits(ns, idr) == KeptUnits(init, idr) + [n];
        assert KeptUnits(ns, idr)[|KeptUnits(init, idr)|] == n;
      } else if HasType(ns, 5) {
        var i :| 0 <= i < |ns| && ns[i] != [] && NalType(ns[i]) == 5;
        assert init[i] == ns[i];
        if idr {
          var j :| 0 <= j < |KeptUnits(init, idr)| && KeptUnits(init, idr)[j] != []
            && NalType(KeptUnits(init, idr)[j]) == 5;
          assert KeptUnits(ns, idr)[j] == KeptUnits(init, idr)[j];
        }
      }
    }
  }

  lemma IdrUnitCarriesIdr(ns: seq<Nal>, sps: Nal, pps: Nal)
    requires AllValid(ns) && HasType(ns, 5)
    requires ValidNalu(sps) && NalType(sps) == 7 && ValidNalu(pps) && NalType(pps) == 8
    ensures CarriesIdr(Print(AccessUnit(ns, true, sps, pps)))
  {
    hide KeptUnits, Print;
    KeptAreValid(ns, true);
    AudIsValid();
    var kept := KeptUnits(ns, true);
    var all := AccessUnit(ns, true, sps, pps);
    assert all == [AUD, sps, pps] + kept;
    var j :| 0 <= j < |kept| && kept[j] != [] && NalType(kept[j]) == 5;
    assert all[1] == sps && all[2] == pps && all[3 + j] == kept[j];
    forall i | 0 <= i < |all| ensures ValidNalu(all[i]) {
      if i >= 3 { assert all[i] == kept[i - 3]; }
    }
    assert IdrUnits(all);
  }

  lemma AudIsValid()
    ensures ValidNalu(AUD)
  {
  }

  lemma AssembleLinks(s: State, f: Frame)
    requires ParamsOk(s)
    ensures var a := Assemble(s, f);
            && ParamsOk(a.s)
            && (a.out.None? ==> a.s.waiting == s.waiting)
            && (a.out.Some? ==> !a.s.waiting && (CarriesIdr(a.out.value.data) || !s.waiting))
  {
    hide Concat, Units, LastOf, HasType, AccessUnit, Print, CarriesIdr, ValidNalu;
    var raw := Concat(f.chunks);
    if Units(raw).Some? {
      var ns := Units(raw).value;
      UnitsAreValid(raw);
      LastOfIs(ns, 7);
      LastOfIs(ns, 8);
      var a := Assemble(s, f);
      if a.out.Some? && HasType(ns, 5) {
        IdrUnitCarriesIdr(ns, a.s.sps, a.s.pps);
      }
    }
  }

  lemma DeliverLinks(fs: seq<Delivery>, s: State, d: Delivery, r: State)
    requires Link(fs, s) && s.initialized && (CarriesIdr(d.out.data) || !s.waiting)
    requires d.seqNo == s.expected && d.period == s.period && d.position == s.position
    requires ParamsOk(r) && r.initialized && r.period == s.period && r.position == s.position + 1
    requires r.expected == (s.expected + 1) % 0x1_0000
    ensures Link(fs + [d], r)
  {
    hide ParamsOk, CarriesIdr;
    var all := fs + [d];
    assert all[|fs|] == d;
    assert Decodable(all, |fs|);
    forall i | 0 <= i < |fs| ensures Decodable(all, i) && all[i].seqNo == all[i].position % 0x1_0000 {
      assert Decodable(fs, i) && all[i] == fs[i];
      if i > 0 { assert all[i - 1] == fs[i - 1]; }
    }
    forall i, j | 0 <= i < j < |all| ensures Before(all[i].period, all[i].position, all[j].period, all[j].position) {
    }
  }

  lemma ConsumeLinks(past: seq<Delivery>, t: Turn, now: int)
    requires Good(past, t) && t.s.initialized && t.s.expected in t.s.pending
    ensures Good(past, Consume(t, now)) && Consume(t, now).s.initialized
  {
    hide Assemble, Link, CarriesIdr, ParamsOk;
    var f := t.s.pending[t.s.expected];
    var a := Assemble(t.s, f);
    LinkParts(past + t.b.frames, t.s);
    AssembleLinks(t.s, f);
    AssembleKeeps(t.s, f);
    match a.out
    case Some(o) =>
      var d := Delivery(o, t.s.expected, t.s.period, t.s.position);
      ParamsDependOn(a.s, StepOver(a.s));
      DeliverLinks(past + t.b.frames, t.s, d, StepOver(a.s));
      assert past + (t.b.frames + [d]) == past + t.b.frames + [d];
    case None =>
      ParamsLink(past + t.b.frames, t.s, a.s);
      RecoverLinks(past, Turn(a.s, t.b), now);
      var r := Recover(Turn(a.s, t.b), now);
      LinkParts(past + t.b.frames, r.s);
      ModAdd(r.s.position, r.s.expected, 1, (r.s.expected + 1) % 0x1_0000);
      MoveLinks(past + t.b.frames, r.s, StepOver(r.s));
  }

  lemma ParamsDependOn(s: State, r: State)
    requires ParamsOk(s) && r.sps == s.sps && r.pps == s.pps
    ensures ParamsOk(r)
  {
  }

  lemma LinkParts(fs: seq<Delivery>, s: State)
    requires Link(fs, s)
    ensures ParamsOk(s) && (s.initialized ==> s.position % 0x1_0000 == s.expected)
  {
  }

  lemma ParamsLink(fs: seq<Delivery>, s: State, r: State)
    requires Link(fs, s) && ParamsOk(r) && r.waiting == s.waiting
    requires r.period == s.period && r.position == s.position && r.expected == s.expected
             && r.initialized == s.initialized
    ensures Link(fs, r)
  {
    hide Ordered, Chain, ParamsOk;
  }

  lemma AbandonLinks(past: seq<Delivery>, t: Turn, now: int)
    requires Good(past, t) && t.s.initialized && t.s.expected in t.s.pending
    ensures Good(past, Abandon(t, now)) && Abandon(t, now).s.initialized
  {
    hide Link;
    LinkParts(past + t.b.frames, t.s);
    MoveLinks(past + t.b.frames, t.s, Abandon(t, now).s);
  }

  lemma JumpLinks(past: seq<Delivery>, t: Turn, k: U16, now: int)
    requires Good(past, t) && t.s.initialized && SequenceDelta(k, t.s.expected) >= 0
    ensures Good(past, Jump(t, k, now)) && Jump(t, k, now).s.initialized
  {
    hide Link, SequenceDelta;
    LinkParts(past + t.b.frames, t.s);
    ModAdd(t.s.position, t.s.expected, SequenceDelta(k, t.s.expected), k);
    MoveLinks(past + t.b.frames, t.s, Jump(t, k, now).s);
  }

  lemma ModAdd(position: nat, e: U16, d: nat, k: U16)
    requires position % 0x1_0000 == e && (e + d) % 0x1_0000 == k
    ensures (position + d) % 0x1_0000 == k
  {
  }

  lemma {:induction false} AdvanceLinks(past: seq<Delivery>, t: Turn, now: int)
    requires Good(past, t) && t.s.initialized
    ensures Good(past, Advance(t, now))
    decreases |t.s.pending|, if t.s.expected in t.s.pending then 0 else 1
  {
    hide Good, Consume, Abandon, Jump, Nearest, Complete, SequenceDelta;
    var s := t.s;
    if s.pending == map[] {
    } else if s.expected in s.pending {
      ErasedIsSmaller(s.pending, s.expected);
      if Complete(s.pending[s.expected]) {
        ConsumeLinks(past, t, now);
        AdvanceLinks(past, Consume(t, now), now);
      } else if now - s.pending[s.expected].arrival >= SKIP_US {
        AbandonLinks(past, t, now);
        AdvanceLinks(past, Abandon(t, now), now);
      }
    } else if Nearest(s).Some? {
      var k := Nearest(s).value;
      if now - s.pending[k].arrival >= SKIP_US {
        JumpLinks(past, t, k, now);
        AdvanceLinks(past, Jump(t, k, now), now);
      }
    }
  }

  lemma {:induction false} TrimLinks(past: seq<Delivery>, t: Turn, n: nat)
    requires Good(past, t) && n <= 0x1_0000
    ensures Good(past, t.(s := TrimBelow(t.s, n)))
  {
    hide Good, Erase, SequenceDelta;
    if n > 0 {
      TrimLinks(past, t, n - 1);
      var u := t.(s := TrimBelow(t.s, n - 1));
      if n - 1 in u.s.pending { EraseLinks(past, u, n - 1); }
    }
  }

  lemma RaiseLinks(past: seq<Delivery>, t: Turn, now: int)
    requires Good(past, t)
    ensures Good(past, RaiseRate(t, now))
  {
    hide Link;
    LinkDependsOn(past + t.b.frames, t.s, RaiseRate(t, now).s);
  }

  lemma DrainLinks(past: seq<Delivery>, t: Turn, now: int)
    requires Good(past, t)
    ensures Good(past, Drain(t, now))
  {
    hide Good, ExpireBelow, Initialize, Advance, TrimBelow, RaiseRate;
    ExpireLinks(past, t, 0x1_0000, now);
    var e := Expire(t, now);
    InitializeLinks(past, e);
    var i := e.(s := Initialize(e.s));
    if i.s.initialized {
      AdvanceLinks(past, i, now);
      var a := Advance(i, now);
      TrimLinks(past, a, 0x1_0000);
      RaiseLinks(past, a.(s := TrimBelow(a.s, 0x1_0000)), now);
    }
  }

  lemma StoreLinks(past: seq<Delivery>, t: Turn, c: Chunk, now: int)
    requires Good(past, t) && c.index < c.count
    ensures Good(past, Store(t, c, now))
  {
    hide Link, SameHeader, AddChunk;
    LinkDependsOn(past + t.b.frames, t.s, Store(t, c, now).s);
  }

  lemma AcceptLinks(past: seq<Delivery>, t: Turn, c: Chunk, now: int)
    requires Good(past, t) && c.index < c.count
    ensures Good(past, Accept(t, c, now))
  {
    hide Good, Drain, Store, SequenceDelta;
    if t.s.initialized && SequenceDelta(c.seqNo, t.s.expected) < 0 {
    } else if Overflows(t.s, c) {
      OverflowLinks(past, t, now);
    } else {
      StoreLinks(past, t, c, now);
      DrainLinks(past, Store(t, c, now), now);
    }
  }

  lemma OverflowLinks(past: seq<Delivery>, t: Turn, now: int)
    requires Good(past, t)
    ensures Good(past, Recover(t.(s := t.s.(pending := map[], bytes := 0, initialized := false)), now))
  {
    hide Ordered, Chain;
  }

  // ---------------------------------------------------------------- picture-loss indications

  function Plis(cs: seq<Control>): nat {
    if cs == [] then 0 else Plis(cs[..|cs| - 1]) + (if cs[|cs| - 1].Pli? then 1 else 0)
  }

  /** From `t` to `u`, at time `now`: no indication, or one that was due, recorded as the last. */
  ghost predicate AtMostOnePli(t: Turn, u: Turn, now: int) {
    || (Plis(u.b.controls) == Plis(t.b.controls) && u.s.lastPli == t.s.lastPli)
    || (Plis(u.b.controls) == Plis(t.b.controls) + 1 && u.s.lastPli == now
       && (t.s.lastPli < 0 || now - t.s.lastPli >= PLI_US))
  }

  lemma AtMostOnePliTrans(t: Turn, u: Turn, v: Turn, now: int)
    requires now >= 0 && AtMostOnePli(t, u, now) && AtMostOnePli(u, v, now)
    ensures AtMostOnePli(t, v, now)
  {
  }

  lemma PlisSnoc(cs: seq<Control>, c: Control)
    ensures Plis(cs + [c]) == Plis(cs) + (if c.Pli? then 1 else 0)
  {
    assert (cs + [c])[..|cs|] == cs;
  }

  lemma RecoverPli(t: Turn, now: int)
    ensures AtMostOnePli(t, Recover(t, now), now)
  {
    if t.s.lastPli < 0 || now - t.s.lastPli >= PLI_US {
      var rate := Recover(t, now).s.bitrate;
      PlisSnoc(t.b.controls, Pli);
      PlisSnoc(t.b.controls + [Pli], Bitrate(rate));
      assert t.b.controls + [Pli, Bitrate(rate)] == t.b.controls + [Pli] + [Bitrate(rate)];
    }
  }

  lemma {:induction false} ExpirePli(t: Turn, n: nat, now: int)
    requires n <= 0x1_0000 && now >= 0
    ensures AtMostOnePli(t, ExpireBelow(t, n, now), now)
  {
    hide Recover, Expired, Plis;
    if n > 0 {
      ExpirePli(t, n - 1, now);
      var u := ExpireBelow(t, n - 1, now);
      if n - 1 in u.s.pending {
        RecoverPli(u.(s := Erase(u.s, n - 1)), now);
      }
      AtMostOnePliTrans(t, u, ExpireBelow(t, n, now), now);
    }
  }

  lemma AssemblePli(s: State, f: Frame)
    ensures Assemble(s, f).s.lastPli == s.lastPli
  {
    hide Units, LastOf, HasType, Concat, AccessUnit;
  }

  lemma MovePli(t: Turn, now: int)
    ensures t.s.expected in t.s.pending ==>
              AtMostOnePli(t, Consume(t, now), now) && AtMostOnePli(t, Abandon(t, now), now)
    ensures forall k: U16 :: SequenceDelta(k, t.s.expected) >= 0 ==> AtMostOnePli(t, Jump(t, k, now), now)
  {
    hide Recover, Assemble, SequenceDelta, Plis;
    if t.s.expected in t.s.pending {
      var a := Assemble(t.s, t.s.pending[t.s.expected]);
      AssemblePli(t.s, t.s.pending[t.s.expected]);
      RecoverPli(Turn(a.s, t.b), now);
      RecoverPli(t.(s := StepOver(t.s)), now);
    }
    forall k: U16 | SequenceDelta(k, t.s.expected) >= 0 ensures AtMostOnePli(t, Jump(t, k, now), now) {
      RecoverPli(t.(s := t.s.(expected := k, position := t.s.position + SequenceDelta(k, t.s.expected))), now);
    }
  }

  lemma {:induction false} AdvancePli(t: Turn, now: int)
    requires now >= 0
    ensures AtMostOnePli(t, Advance(t, now), now)
    decreases |t.s.pending|, if t.s.expected in t.s.pending then 0 else 1
  {
    hide AtMostOnePli, Consume, Abandon, Jump, Nearest, Complete, SequenceDelta;
    var s := t.s;
    MovePli(t, now);
    NoPli(t, now);
    if s.pending == map[] {
    } else if s.expected in s.pending {
      ErasedIsSmaller(s.pending, s.expected);
      if Complete(s.pending[s.expected]) {
        AdvancePli(Consume(t, now), now);
        AtMostOnePliTrans(t, Consume(t, now), Advance(t, now), now);
      } else if now - s.pending[s.expected].arrival >= SKIP_US {
        AdvancePli(Abandon(t, now), now);
        AtMostOnePliTrans(t, Abandon(t, now), Advance(t, now), now);
      }
    } else if Nearest(s).Some? {
      var k := Nearest(s).value;
      if now - s.pending[k].arrival >= SKIP_US {
        AdvancePli(Jump(t, k, now), now);
        AtMostOnePliTrans(t, Jump(t, k, now), Advance(t, now), now);
      }
    }
  }

  lemma NoPli(t: Turn, now: int)
    ensures AtMostOnePli(t, t, now)
  {
  }

  lemma {:induction false} TrimPli(s: State, n: nat)
    requires n <= 0x1_0000
    ensures TrimBelow(s, n).lastPli == s.lastPli
  {
    if n > 0 {
      TrimPli(s, n - 1);
    }
  }

  lemma RaisePli(t: Turn, now: int)
    ensures AtMostOnePli(t, RaiseRate(t, now), now)
  {
    var u := RaiseRate(t, now);
    if u.b != t.b {
      PlisSnoc(t.b.controls, Bitrate(u.s.bitrate));
    }
  }

  lemma DrainPli(t: Turn, now: int)
    requires now >= 0
    ensures AtMostOnePli(t, Drain(t, now), now)
  {
    hide ExpireBelow, Advance, TrimBelow, RaiseRate, FirstBelow, Plis;
    ExpirePli(t, 0x1_0000, now);
    var e := Expire(t, now);
    var i := e.(s := Initialize(e.s));
    if i.s.initialized {
      AdvancePli(i, now);
      var a := Advance(i, now);
      AtMostOnePliTrans(e, i, a, now);
      TrimPli(a.s, 0x1_0000);
      var r := a.(s := TrimBelow(a.s, 0x1_0000));
      RaisePli(r, now);
      AtMostOnePliTrans(e, a, r, now);
      AtMostOnePliTrans(e, r, RaiseRate(r, now), now);
    }
    AtMostOnePliTrans(t, e, Drain(t, now), now);
  }

  lemma StorePli(t: Turn, c: Chunk, now: int)
    requires c.index < c.count
    ensures AtMostOnePli(t, Store(t, c, now), now)
  {
    hide SameHeader, AddChunk, Recover, Plis;
    var f: Frame := if c.seqNo in t.s.pending then t.s.pending[c.seqNo] else FreshFrame(c, now);
    RecoverPli(t.(s := Erase(t.s.(pending := t.s.pending[c.seqNo := f]), c.seqNo)), now);
  }

  lemma AcceptPli(t: Turn, c: Chunk, now: int)
    requires now >= 0 && c.index < c.count
    ensures AtMostOnePli(t, Accept(t, c, now), now)
  {
    hide Drain, Store, SequenceDelta, Recover, Plis;
    if t.s.initialized && SequenceDelta(c.seqNo, t.s.expected) < 0 {
    } else if Overflows(t.s, c) {
      RecoverPli(t.(s := t.s.(pending := map[], bytes := 0, initialized := false)), now);
    } else {
      StorePli(t, c, now);
      DrainPli(Store(t, c, now), now);
      AtMostOnePliTrans(t, Store(t, c, now), Accept(t, c, now), now);
    }
  }

  // ---------------------------------------------------------------- runs

  datatype Event = Packet(bytes: Bytes, now: int) | Timer(now: int) | Cleared

  function Step(s: State, e: Event): Turn {
    match e
    case Packet(p, now) => Process(s, p, now)
    case Timer(now) => Tick(s, now)
    case Cleared => Turn(Reset(s), EMPTY_BATCH)
  }

  /** Everything delivered since the beginning, and the times of the indications sent since the last reset. */
  datatype Log = Log(s: State, frames: seq<Delivery>, plis: seq<int>)

  function Run(es: seq<Event>): Log {
    if es == [] then Log(INITIAL, [], [])
    else
      var l := Run(es[..|es| - 1]);
      var e := es[|es| - 1];
      var t := Step(l.s, e);
      Log(t.s, l.frames + t.b.frames,
          if e.Cleared? then [] else l.plis + seq(Plis(t.b.controls), _ => e.now))
  }

  lemma StepLinks(past: seq<Delivery>, s: State, e: Event)
    requires Link(past, s)
    ensures Good(past, Step(s, e))
  {
    hide Link, Drain, Accept, Recover;
    var t := Turn(s, EMPTY_BATCH);
    assert past + EMPTY_BATCH.frames == past;
    match e
    case Packet(p, now) =>
      DrainLinks(past, t, now);
      if ParseChunk(p).Some? {
        AcceptLinks(past, Drain(t, now), ParseChunk(p).value, now);
      }
    case Timer(now) =>
      DrainLinks(past, t, now);
      RecoverLinks(past, Drain(t, now), now);
    case Cleared => ResetLinks(past, s);
  }

  lemma ResetLinks(past: seq<Delivery>, s: State)
    requires Link(past, s)
    ensures Link(past, Reset(s))
  {
    hide Ordered, Chain;
  }

  lemma StepPli(s: State, e: Event)
    requires !e.Cleared?
    ensures AtMostOnePli(Turn(s, EMPTY_BATCH), Step(s, e), e.now)
    ensures e.now < 0 ==> Step(s, e) == Turn(s, EMPTY_BATCH)
  {
    hide Drain, Accept, ParseChunk, Recover, Plis;
    var t := Turn(s, EMPTY_BATCH);
    NoPli(t, e.now);
    if e.now >= 0 {
      DrainPli(t, e.now);
      var d := Drain(t, e.now);
      if e.Packet? && ParseChunk(e.bytes).Some? {
        AcceptPli(d, ParseChunk(e.bytes).value, e.now);
        AtMostOnePliTrans(t, d, Step(s, e), e.now);
      } else if e.Timer? {
        RecoverPli(d, e.now);
        AtMostOnePliTrans(t, d, Recover(d, e.now), e.now);
      }
    }
  }

  /** Over every run, resets included: deliveries are strictly increasing in (period, extended number), so no
      frame is delivered twice or out of order across wraps, and each one is an IDR with its parameter sets or
      the direct successor of the delivery before it. */
  lemma {:induction false} RunDelivers(es: seq<Event>)
    ensures Link(Run(es).frames, Run(es).s)
    ensures Ordered(Run(es).frames) && Chain(Run(es).frames)
  {
    hide Decodable, Step;
    if es != [] {
      hide Link;
      RunDelivers(es[..|es| - 1]);
      StepLinks(Run(es[..|es| - 1]).frames, Run(es[..|es| - 1]).s, es[|es| - 1]);
      LinkOrders(Run(es).frames, Run(es).s);
    }
  }

  lemma LinkOrders(fs: seq<Delivery>, s: State)
    requires Link(fs, s)
    ensures Ordered(fs) && Chain(fs)
  {
  }

  /** Settled after a well-formed packet or a tick, empty after a reset. */
  ghost predicate SettledAfter(e: Event, s: State) {
    match e
    case Packet(p, now) => now >= 0 && ParseChunk(p).Some? ==> Settled(s, now)
    case Timer(now) => now >= 0 ==> Settled(s, now)
    case Cleared => s.pending == map[]
  }

  /** Over every run the buffer keeps its bounds, and it is settled after each well-formed packet or tick. */
  lemma {:induction false} RunBounds(es: seq<Event>)
    ensures Inv(Run(es).s)
    ensures es != [] ==> SettledAfter(es[|es| - 1], Run(es).s)
  {
    hide Inv, Settled, Process, Tick, ParseChunk;
    ResetKeeps(INITIAL);
    if es != [] {
      var s, e := Run(es[..|es| - 1]).s, es[|es| - 1];
      RunBounds(es[..|es| - 1]);
      match e
      case Packet(p, now) => ProcessKeeps(s, p, now);
      case Timer(now) => TickKeeps(s, now);
      case Cleared => ResetKeeps(s);
    }
  }

  ghost predicate Spaced(plis: seq<int>) {
    forall i, j :: 0 <= i < j < |plis| ==> plis[j] - plis[i] >= PLI_US
  }

  /** Between resets two picture-loss indications are at least 50 ms apart, whatever the clock does. */
  lemma {:induction false} PlisAreSpaced(es: seq<Event>)
    ensures var l := Run(es);
            && Spaced(l.plis)
            && (if l.plis == [] then l.s.lastPli < 0 else l.s.lastPli == l.plis[|l.plis| - 1] >= 0)
  {
    hide Step, Process, Tick;
    if es != [] {
      var l, e := Run(es[..|es| - 1]), es[|es| - 1];
      PlisAreSpaced(es[..|es| - 1]);
      if e.Cleared? {
        ClearedIs(l.s);
      } else {
        StepPli(l.s, e);
        PliTimes(l.plis, Plis(Step(l.s, e).b.controls), e.now);
      }
    }
  }

  /** None or one more indication at time `now`. */
  lemma PliTimes(plis: seq<int>, more: nat, now: int)
    requires Spaced(plis) && more <= 1
    requires more == 1 && plis != [] ==> now - plis[|plis| - 1] >= PLI_US
    ensures var all := plis + seq(more, _ => now);
            Spaced(all) && all == if more == 0 then plis else plis + [now]
  {
    var all := plis + seq(more, _ => now);
    if more == 0 {
      assert all == plis;
    } else {
      assert all == plis + [now];
    }
  }

  lemma ClearedIs(s: State)
    ensures Step(s, Cleared).s.lastPli < 0
  {
  }

  // ---------------------------------------------------------------- one step on its own

  /** What a state needs for the next step to deliver decodable frames, whatever came before. */
  ghost predicate Resumable(s: State) {
    && ParamsOk(s) && (s.initialized ==> s.position % 0x1_0000 == s.expected)
    && (!s.waiting ==> s.initialized && s.position >= 1)
  }

  ghost predicate Succeeds(s: State, fs: seq<Delivery>, i: nat)
    requires i < |fs|
  {
    CarriesIdr(fs[i].out.data) ||
    (if i == 0 then !s.waiting && fs[0].seqNo == s.expected else fs[i].seqNo == (fs[i - 1].seqNo + 1) % 0x1_0000)
  }

  /** The deliveries of one step: each is an IDR with its parameter sets or the successor of the one before it;
      before the first stands the frame ahead of the expected one, if no keyframe is awaited. */
  ghost predicate StepChained(s: State, t: Turn) {
    var fs := t.b.frames;
    && (forall i :: 0 <= i < |fs| ==> Succeeds(s, fs, i))
    && (!t.s.waiting ==> if |fs| == 0 then !s.waiting && t.s.expected == s.expected
                         else t.s.expected == (fs[|fs| - 1].seqNo + 1) % 0x1_0000)
  }

  lemma SomeIdr() returns (data: Bytes)
    ensures CarriesIdr(data)
  {
    var ns: seq<Nal> := [[7], [8], [5]];
    data := Print(ns);
    assert NalType(ns[0]) == 7 && NalType(ns[1]) == 8 && NalType(ns[2]) == 5;
    assert IdrUnits(ns);
  }

  /** A past `s` could have come from: nothing while a keyframe is awaited, else the frame before the expected one. */
  ghost predicate PastOf(s: State, past: seq<Delivery>) {
    if s.waiting then past == []
    else |past| == 1 && past[0].period == s.period && past[0].position + 1 == s.position && s.initialized
  }

  lemma ResumeLink(s: State) returns (past: seq<Delivery>)
    requires Resumable(s)
    ensures Link(past, s)
    ensures PastOf(s, past) && (s.initialized ==> s.position % 0x1_0000 == s.expected)
  {
    if s.waiting {
      past := [];
    } else {
      var data := SomeIdr();
      past := [Delivery(Output(data, 0), (s.position - 1) % 0x1_0000, s.period, s.position - 1)];
      hide CarriesIdr, ParamsOk;
      assert Decodable(past, 0);
    }
  }

  lemma TailSucceeds(past: seq<Delivery>, s: State, fs: seq<Delivery>, i: nat)
    requires Chain(past + fs) && PastOf(s, past) && i < |fs|
    requires s.initialized ==> s.position % 0x1_0000 == s.expected
    ensures Succeeds(s, fs, i)
  {
    hide CarriesIdr, Chain;
    var all, k := past + fs, |past| + i;
    ChainAt(all, k);
    assert all[k] == fs[i];
    if k > 0 {
      ChainAt(all, k - 1);
      if i > 0 { assert all[k - 1] == fs[i - 1]; }
    }
  }

  lemma ChainAt(fs: seq<Delivery>, i: nat)
    requires Chain(fs) && i < |fs|
    ensures Decodable(fs, i) && fs[i].seqNo == fs[i].position % 0x1_0000
  {
  }

  /** Where the deliveries leave the state. */
  lemma TailEnds(past: seq<Delivery>, s: State, fs: seq<Delivery>, r: State)
    requires Link(past + fs, r) && PastOf(s, past)
    requires s.initialized ==> s.position % 0x1_0000 == s.expected
    ensures Resumable(r)
    ensures !r.waiting ==> if |fs| == 0 then !s.waiting && r.expected == s.expected
                           else r.expected == (fs[|fs| - 1].seqNo + 1) % 0x1_0000
  {
    hide ParamsOk, Chain, Ordered, Passed;
    var all := past + fs;
    if !r.waiting {
      var last := all[|all| - 1];
      ChainAt(all, |all| - 1);
      ModAdd(last.position, last.seqNo, 1, (last.seqNo + 1) % 0x1_0000);
      if |fs| == 0 {
        assert all == past;
      } else {
        assert last == fs[|fs| - 1];
      }
    }
  }

  /** Every step, from any resumable state. */
  lemma StepIsChained(s: State, e: Event)
    requires Resumable(s)
    ensures Resumable(Step(s, e).s) && StepChained(s, Step(s, e))
  {
    hide Link, Resumable, Step, PastOf, Succeeds;
    var past := ResumeLink(s);
    StepLinks(past, s, e);
    var t := Step(s, e);
    TailEnds(past, s, t.b.frames, t.s);
    LinkOrders(past + t.b.frames, t.s);
    forall i | 0 <= i < |t.b.frames| ensures Succeeds(s, t.b.frames, i) {
      TailSucceeds(past, s, t.b.frames, i);
    }
  }

  lemma InitialResumes(s: State)
    ensures Resumable(INITIAL) && Resumable(Reset(s)) && Reset(s).waiting && Step(s, Cleared).b.frames == []
  {
  }
}
