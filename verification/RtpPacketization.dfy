/** However a sender packs the NAL units of an access unit into RTP payloads (RFC 6184 sections 5.6, 5.7.1 and
    5.8), the receiver ends up with the same bytes and the same parameter sets. */
module RtpPacketization {
  import opened Wire
  import opened AnnexB
  import opened AnnexBLaws
  import opened RtpWire
  import opened RtpModel

  /** One way to carry units: alone, several in one payload, or one cut into several payloads. */
  datatype Packaging = Single(n: Nal) | Aggregate(header: Byte, ns: seq<Nal>) | Fragmented(n: Nal, cuts: seq<Bytes>)

  ghost predicate PackagingOk(p: Packaging) {
    match p
    case Single(n) => ValidNalu(n)
    case Aggregate(h, ns) =>
      h < 128 && h % 32 == 24 && 1 <= |ns| <= MAX_NALUS && AllValid(ns) && forall n :: n in ns ==> |n| <= 65535
    case Fragmented(n, cuts) =>
      ValidNalu(n) && |cuts| >= 2 && n == [n[0]] + Concat(cuts) && forall c :: c in cuts ==> c != []
  }

  function UnitsOf(p: Packaging): seq<Nal> {
    match p
    case Single(n) => [n]
    case Aggregate(_, ns) => ns
    case Fragmented(n, _) => [n]
  }

  function StapBody(ns: seq<Nal>): Bytes
    requires forall n :: n in ns ==> |n| <= 65535
  {
    if ns == [] then [] else PutBe16(|ns[0]|) + ns[0] + StapBody(ns[1..])
  }

  /** The two header bytes of fragment `i` of `k`: NRI of the unit and type 28, then the start and end bits. */
  function FragmentPayload(header: Byte, cut: Bytes, first: bool, last: bool): Bytes
    requires header < 128
  {
    [(header / 32) * 32 + 28, (if first then 128 else 0) + (if last then 64 else 0) + header % 32] + cut
  }

  ghost function Payloads(p: Packaging): (r: seq<Bytes>)
    requires PackagingOk(p)
    ensures r != []
  {
    match p
    case Single(n) => [n]
    case Aggregate(h, ns) => [[h] + StapBody(ns)]
    case Fragmented(n, cuts) =>
      seq(|cuts|, i requires 0 <= i < |cuts| => FragmentPayload(n[0], cuts[i], i == 0, i == |cuts| - 1))
  }

  ghost predicate Nonempty(ps: seq<Bytes>) {
    forall i :: 0 <= i < |ps| ==> ps[i] != []
  }

  /** Payloads taken one after the other. */
  ghost function TakeAll(c: Content, ps: seq<Bytes>): Taken
    requires Nonempty(ps)
    decreases |ps|
  {
    if ps == [] then Taken(c, true)
    else
      var r := TakeAll(c, ps[..|ps| - 1]);
      if r.ok then TakePayload(r.c, ps[|ps| - 1]) else r
  }

  // ---------------------------------------------------------------- appending units

  lemma AppendOne(c: Content, n: Nal)
    ensures AppendAll(c, [n]) == AppendNalu(c, n)
  {
    assert [n][..0] == [];
  }

  lemma {:induction false} AppendAllConcat(c: Content, xs: seq<Nal>, ys: seq<Nal>)
    ensures AppendAll(c, xs + ys) == if AppendAll(c, xs).ok then AppendAll(AppendAll(c, xs).c, ys) else AppendAll(c, xs)
    decreases |ys|
  {
    hide AppendNalu;
    if ys == [] {
      assert xs + ys == xs;
    } else {
      assert (xs + ys)[..|xs + ys| - 1] == xs + ys[..|ys| - 1];
      AppendAllConcat(c, xs, ys[..|ys| - 1]);
    }
  }

  /** Appending units appends their printing. */
  lemma {:induction false} AppendAllPrints(c: Content, ns: seq<Nal>)
    ensures AppendAll(c, ns).ok ==> AppendAll(c, ns).c.au == c.au + Print(ns) && |Print(ns)| == TotalSize(ns)
    ensures AppendAll(c, ns).ok && ns != [] ==> |c.au| + TotalSize(ns) <= MAX_ACCESS_UNIT_BYTES
    decreases |ns|
  {
    if ns == [] {
      assert c.au + [] == c.au;
    } else {
      hide AppendNalu, Print, Unit;
      var init, n := ns[..|ns| - 1], ns[|ns| - 1];
      AppendAllPrints(c, init);
      AppendPrints(AppendAll(c, init).c, n);
      PrintAppend(init, [n]);
      PrintOne(n);
      assert init + [n] == ns;
      Regroup(c.au, Print(init), Unit(n));
    }
  }

  lemma Regroup(a: Bytes, b: Bytes, c: Bytes)
    ensures (a + b) + c == a + (b + c)
  {
  }

  lemma AppendPrints(c: Content, n: Nal)
    ensures AppendNalu(c, n).ok ==>
              AppendNalu(c, n).c.au == c.au + Unit(n) && |c.au| + |Unit(n)| <= MAX_ACCESS_UNIT_BYTES
    ensures |Unit(n)| == |n| + 4
  {
  }

  function WithHeader(c: Content, h: Byte): Content {
    c.(fuHeader := h)
  }

  lemma AppendIgnoresHeader(c: Content, n: Nal, h: Byte)
    ensures AppendNalu(WithHeader(c, h), n) == Taken(WithHeader(AppendNalu(c, n).c, h), AppendNalu(c, n).ok)
  {
    hide Unit, ValidNalu;
  }

  lemma {:induction false} AppendAllIgnoresHeader(c: Content, ns: seq<Nal>, h: Byte)
    ensures AppendAll(WithHeader(c, h), ns) == Taken(WithHeader(AppendAll(c, ns).c, h), AppendAll(c, ns).ok)
    decreases |ns|
  {
    if ns != [] {
      hide AppendNalu, WithHeader;
      AppendAllIgnoresHeader(c, ns[..|ns| - 1], h);
      AppendIgnoresHeader(AppendAll(c, ns[..|ns| - 1]).c, ns[|ns| - 1], h);
    }
  }

  lemma {:induction false} AppendAllKeepsFu(c: Content, ns: seq<Nal>)
    ensures AppendAll(c, ns).c.fu == c.fu
    decreases |ns|
  {
    if ns != [] {
      AppendAllKeepsFu(c, ns[..|ns| - 1]);
    }
  }

  // ---------------------------------------------------------------- aggregates

  lemma {:induction false} StapReads(ns: seq<Nal>, found: nat)
    requires AllValid(ns) && found + |ns| <= MAX_NALUS && forall n :: n in ns ==> |n| <= 65535
    ensures StapUnits(StapBody(ns), found) == Some(ns)
  {
    if ns != [] {
      var n, tail := ns[0], StapBody(ns[1..]);
      assert n in ns;
      forall i | 0 <= i < |ns| - 1 ensures ValidNalu(ns[1..][i]) { assert ns[1..][i] == ns[i + 1]; }
      StapReads(ns[1..], found + 1);
      StapReadsOne(n, tail, found);
      assert ns == [n] + ns[1..];
    }
  }

  lemma StapReadsOne(n: Nal, tail: Bytes, found: nat)
    requires ValidNalu(n) && |n| <= 65535 && found < MAX_NALUS
    ensures StapUnits(PutBe16(|n|) + n + tail, found) == After([n], StapUnits(tail, found + 1))
  {
    hide ValidNalu, Be16;
    ValidIsNonempty(n);
    var b := PutBe16(|n|) + n + tail;
    assert b[..2] == PutBe16(|n|);
    assert b[0] == b[..2][0] && b[1] == b[..2][1];
    assert b[2..2 + |n|] == n && b[2 + |n|..] == tail;
  }

  lemma AggregateTakes(c: Content, h: Byte, ns: seq<Nal>)
    requires PackagingOk(Aggregate(h, ns)) && c.fu == [] && AppendAll(c, ns).ok
    ensures TakePayload(c, [h] + StapBody(ns)) == AppendAll(c, ns)
  {
    hide AppendAll, StapUnits, StapBody;
    var p := [h] + StapBody(ns);
    assert p[1..] == StapBody(ns);
    StapReads(ns, 0);
    AppendAllPrints(c, ns);
  }

  /** Once the aggregate's size is accepted no unit of it is refused. */
  lemma {:induction false} AcceptedAggregateFits(c: Content, ns: seq<Nal>)
    requires AllValid(ns) && (forall n :: n in ns ==> |n| <= MAX_PARAMETER_SET)
    requires |c.au| + TotalSize(ns) <= MAX_ACCESS_UNIT_BYTES
    ensures AppendAll(c, ns).ok
    decreases |ns|
  {
    if ns != [] {
      var init, n := ns[..|ns| - 1], ns[|ns| - 1];
      forall i | 0 <= i < |init| ensures ValidNalu(init[i]) { assert init[i] == ns[i]; }
      assert n == ns[|ns| - 1] && n in ns;
      AcceptedAggregateFits(c, init);
      AppendAllPrints(c, init);
      assert ValidNalu(n);
    }
  }

  // ---------------------------------------------------------------- fragments

  lemma FragmentReads(header: Byte, cut: Bytes, first: bool, last: bool)
    requires header < 128 && 1 <= header % 32 <= 23 && cut != [] && !(first && last)
    ensures var p := FragmentPayload(header, cut, first, last);
            && p[0] % 32 == 28 && FragmentOk(p) && FragmentHeader(p) == header && p[2..] == cut
            && (p[1] >= 128) == first && ((p[1] / 64) % 2 == 1) == last
  {
  }

  /** The state after the first `k` fragments of `n`. */
  function Open(c: Content, n: Nal, cuts: seq<Bytes>): Content
    requires n != []
  {
    c.(fuHeader := n[0], fu := [n[0]] + Concat(cuts))
  }

  lemma FragmentTakes(c: Content, header: Byte, cut: Bytes, first: bool, last: bool)
    requires header < 128 && 1 <= header % 32 <= 23 && cut != [] && !(first && last)
    ensures var p := FragmentPayload(header, cut, first, last);
            var o := OpenFragment(c, first, header);
            TakePayload(c, p) == if o.ok then ExtendFragment(o.c, cut, last) else o
  {
    hide OpenFragment, ExtendFragment, FragmentPayload, FragmentOk, FragmentHeader;
    FragmentReads(header, cut, first, last);
  }

  lemma {:induction false} ConcatLength(cuts: seq<Bytes>, k: nat)
    requires k <= |cuts|
    ensures |Concat(cuts[..k])| <= |Concat(cuts)|
    decreases |cuts|
  {
    if k == |cuts| {
      assert cuts[..k] == cuts;
    } else {
      var last := |cuts| - 1;
      assert cuts[..last][..k] == cuts[..k] && cuts == cuts[..last] + [cuts[last]];
      ConcatSnoc(cuts[..last], cuts[last]);
      ConcatLength(cuts[..last], k);
    }
  }

  lemma FirstFragment(c: Content, n: Nal, cut: Bytes)
    requires ValidNalu(n) && c.fu == [] && cut != [] && |c.au| + 4 + 1 + |cut| <= MAX_ACCESS_UNIT_BYTES
    ensures TakePayload(c, FragmentPayload(n[0], cut, true, false)) == Taken(Open(c, n, [cut]), true)
  {
    hide FragmentPayload, TakePayload;
    FragmentTakes(c, n[0], cut, true, false);
    ConcatSnoc([], cut);
    assert [] + [cut] == [cut] && Concat([cut]) == cut;
  }

  lemma NextFragment(c: Content, n: Nal, cuts: seq<Bytes>, cut: Bytes, last: bool)
    requires ValidNalu(n) && cut != [] && |c.au| + 4 + 1 + |Concat(cuts)| + |cut| <= MAX_ACCESS_UNIT_BYTES
    ensures TakePayload(Open(c, n, cuts), FragmentPayload(n[0], cut, false, last))
            == if last then Closed(c, n, cuts + [cut]) else Taken(Open(c, n, cuts + [cut]), true)
  {
    hide FragmentPayload, TakePayload, AppendNalu;
    FragmentTakes(Open(c, n, cuts), n[0], cut, false, last);
    ConcatSnoc(cuts, cut);
    assert [n[0]] + Concat(cuts) + cut == [n[0]] + Concat(cuts + [cut]);
  }

  /** The last fragment appends the unit and empties the fragment buffer. */
  function Closed(c: Content, n: Nal, cuts: seq<Bytes>): Taken
    requires n != []
  {
    var r := AppendNalu(Open(c, n, cuts), [n[0]] + Concat(cuts));
    Taken(r.c.(fu := []), r.ok)
  }

  lemma ClosedAppends(c: Content, n: Nal, cuts: seq<Bytes>)
    requires n != [] && n == [n[0]] + Concat(cuts) && c.fu == []
    ensures Closed(c, n, cuts) == Taken(WithHeader(AppendNalu(c, n).c, n[0]), AppendNalu(c, n).ok)
  {
    hide Unit, ValidNalu, Concat;
  }

  lemma {:induction false} FragmentsOpen(c: Content, n: Nal, cuts: seq<Bytes>, k: nat)
    requires PackagingOk(Fragmented(n, cuts)) && c.fu == [] && Fits(c, n) && 1 <= k < |cuts|
    ensures TakeAll(c, Payloads(Fragmented(n, cuts))[..k]) == Taken(Open(c, n, cuts[..k]), true)
    decreases k
  {
    hide TakePayload, FragmentPayload, Open;
    var ps := Payloads(Fragmented(n, cuts));
    assert cuts[k - 1] in cuts;
    assert ps[k - 1] == FragmentPayload(n[0], cuts[k - 1], k == 1, false);
    assert ps[..k][..k - 1] == ps[..k - 1] && ps[..k][k - 1] == ps[k - 1];
    assert cuts[..k][..k - 1] == cuts[..k - 1] && cuts[..k][k - 1] == cuts[k - 1];
    ConcatLength(cuts, k);
    if k == 1 {
      assert cuts[..1] == [cuts[0]];
      FirstFragment(c, n, cuts[0]);
    } else {
      FragmentsOpen(c, n, cuts, k - 1);
      assert cuts[..k] == cuts[..k - 1] + [cuts[k - 1]];
      ConcatSnoc(cuts[..k - 1], cuts[k - 1]);
      NextFragment(c, n, cuts[..k - 1], cuts[k - 1], false);
    }
  }

  lemma FragmentedTakes(c: Content, n: Nal, cuts: seq<Bytes>)
    requires PackagingOk(Fragmented(n, cuts)) && c.fu == [] && AppendNalu(c, n).ok
    ensures TakeAll(c, Payloads(Fragmented(n, cuts))) == Taken(WithHeader(AppendNalu(c, n).c, n[0]), true)
  {
    hide TakePayload, FragmentPayload, Open;
    var ps, k := Payloads(Fragmented(n, cuts)), |cuts| - 1;
    FragmentsOpen(c, n, cuts, k);
    assert cuts[k] in cuts;
    assert ps[k] == FragmentPayload(n[0], cuts[k], false, true);
    assert cuts == cuts[..k] + [cuts[k]];
    ConcatSnoc(cuts[..k], cuts[k]);
    NextFragment(c, n, cuts[..k], cuts[k], true);
    ClosedAppends(c, n, cuts);
  }

  // ---------------------------------------------------------------- any mix

  lemma PayloadsNonempty(p: Packaging)
    requires PackagingOk(p)
    ensures Nonempty(Payloads(p)) && forall i :: 0 <= i < |Payloads(p)| ==> Payloads(p)[i][0] < 128
  {
    hide Concat, StapBody;
    match p
    case Single(n) =>
    case Aggregate(h, ns) =>
    case Fragmented(n, cuts) =>
  }

  lemma TakeOne(c: Content, p: Bytes)
    requires p != []
    ensures TakeAll(c, [p]) == TakePayload(c, p)
  {
    assert [p][..0] == [];
  }

  /** One package is taken exactly as its units, but for the remembered fragment header. */
  lemma PackagingTakes(c: Content, p: Packaging)
    requires PackagingOk(p) && c.fu == [] && AppendAll(c, UnitsOf(p)).ok
    ensures Nonempty(Payloads(p))
    ensures var r := TakeAll(c, Payloads(p));
            r.ok && r.c == WithHeader(AppendAll(c, UnitsOf(p)).c, r.c.fuHeader)
  {
    PayloadsNonempty(p);
    match p
    case Single(n) =>
      hide AppendAll, AppendNalu;
      AppendOne(c, n);
      TakeOne(c, n);
    case Aggregate(h, ns) =>
      hide AppendAll, TakePayload;
      AggregateTakes(c, h, ns);
      TakeOne(c, [h] + StapBody(ns));
    case Fragmented(n, cuts) =>
      hide AppendAll, TakePayload, AppendNalu;
      AppendOne(c, n);
      FragmentedTakes(c, n, cuts);
  }

  ghost predicate AllOk(ps: seq<Packaging>) {
    forall i :: 0 <= i < |ps| ==> PackagingOk(ps[i])
  }

  ghost function AllUnits(ps: seq<Packaging>): seq<Nal> {
    if ps == [] then [] else AllUnits(ps[..|ps| - 1]) + UnitsOf(ps[|ps| - 1])
  }

  ghost function AllPayloads(ps: seq<Packaging>): seq<Bytes>
    requires AllOk(ps)
  {
    if ps == [] then [] else AllPayloads(ps[..|ps| - 1]) + Payloads(ps[|ps| - 1])
  }

  lemma {:induction false} AllPayloadsNonempty(ps: seq<Packaging>)
    requires AllOk(ps)
    ensures Nonempty(AllPayloads(ps)) && forall i :: 0 <= i < |AllPayloads(ps)| ==> AllPayloads(ps)[i][0] < 128
  {
    hide Payloads, PackagingOk;
    if ps != [] {
      AllPayloadsNonempty(ps[..|ps| - 1]);
      PayloadsNonempty(ps[|ps| - 1]);
    }
  }

  lemma {:induction false} TakeAllConcat(c: Content, xs: seq<Bytes>, ys: seq<Bytes>)
    requires Nonempty(xs) && Nonempty(ys)
    ensures Nonempty(xs + ys)
    ensures TakeAll(c, xs + ys) == if TakeAll(c, xs).ok then TakeAll(TakeAll(c, xs).c, ys) else TakeAll(c, xs)
    decreases |ys|
  {
    hide TakePayload;
    if ys == [] {
      assert xs + ys == xs;
    } else {
      assert (xs + ys)[..|xs + ys| - 1] == xs + ys[..|ys| - 1];
      TakeAllConcat(c, xs, ys[..|ys| - 1]);
    }
  }

  /** Any mix of packages is taken exactly as the list of its units. */
  lemma {:induction false} MixTakes(c: Content, ps: seq<Packaging>)
    requires AllOk(ps) && c.fu == [] && AppendAll(c, AllUnits(ps)).ok
    ensures Nonempty(AllPayloads(ps))
    ensures var r := TakeAll(c, AllPayloads(ps));
            r.ok && r.c == WithHeader(AppendAll(c, AllUnits(ps)).c, r.c.fuHeader)
    decreases |ps|
  {
    hide TakePayload, PackagingOk, UnitsOf, Payloads, AppendNalu;
    AllPayloadsNonempty(ps);
    if ps != [] {
      var init, p := ps[..|ps| - 1], ps[|ps| - 1];
      AppendAllConcat(c, AllUnits(init), UnitsOf(p));
      MixTakes(c, init);
      var r := TakeAll(c, AllPayloads(init));
      var t := AppendAll(c, AllUnits(init)).c;
      AppendAllIgnoresHeader(t, UnitsOf(p), r.c.fuHeader);
      AppendAllKeepsFu(c, AllUnits(init));
      PackagingTakes(r.c, p);
      TakeAllConcat(c, AllPayloads(init), Payloads(p));
    }
  }

  // ---------------------------------------------------------------- packets

  /** The packets of one access unit: consecutive numbers from `q`, one source and time, the marker on the last. */
  ghost predicate Carries(wire: seq<Bytes>, payloads: seq<Bytes>, q: U16, timestamp: U32, ssrc: U32) {
    && |wire| == |payloads| > 0
    && forall i :: 0 <= i < |wire| ==>
         CarriesOne(wire[i], payloads[i], (q + i) % 0x1_0000, timestamp, ssrc, i == |wire| - 1)
  }

  ghost predicate CarriesOne(b: Bytes, payload: Bytes, sequence: U16, timestamp: U32, ssrc: U32, marker: bool) {
    match ParseRtp(b)
    case None => false
    case Some(p) =>
      && p.payload == payload && p.sequence == sequence && p.timestamp == timestamp && p.ssrc == ssrc
      && p.marker == marker
  }

  /** The receiver processes the packets one after the other. */
  function Feed(s: State, wire: seq<Bytes>): Turn {
    if wire == [] then Turn(s, [])
    else
      var before := Feed(s, wire[..|wire| - 1]);
      var t := Process(before.s, wire[|wire| - 1]);
      Turn(t.s, before.outs + t.outs)
  }

  /** A packet with these fields, whatever its payload. */
  function Bare(q: U16, timestamp: U32, ssrc: U32): RtpPacket {
    RtpPacket([0], timestamp, ssrc, q, 0, false)
  }

  /** The access unit starts here: the packets follow the last one, or a new source begins, and whatever was open
      before is closed undamaged. */
  ghost predicate Starts(s: State, q: U16, timestamp: U32, ssrc: U32) {
    var p := Bare(q, timestamp, ssrc);
    && (NewSource(s, p) || !s.haveSequence || SequenceDelta(q, s.sequence) == 1)
    && !Entered(s, q, timestamp, ssrc).s.damaged && Entered(s, q, timestamp, ssrc).s.c.fu == []
  }

  function Entered(s: State, q: U16, timestamp: U32, ssrc: U32): Turn {
    var p := Bare(q, timestamp, ssrc);
    if Stale(s, p) then Turn(s, []) else Enter(s, p)
  }

  lemma EnteredIs(s: State, p: RtpPacket)
    requires Starts(s, p.sequence, p.timestamp, p.ssrc)
    ensures !Stale(s, p) && Enter(s, p) == Entered(s, p.sequence, p.timestamp, p.ssrc)
  {
    hide Emit, Lose, SequenceDelta;
  }

  /** In the middle of an access unit entering a packet only records its number. */
  ghost predicate Within(s: State, q: U16, timestamp: U32, ssrc: U32) {
    && s.haveSsrc && s.ssrc == ssrc && s.haveSequence && s.sequence == q && s.haveTimestamp && s.timestamp == timestamp
    && !s.damaged
  }

  lemma EnteredWithin(s: State, q: U16, timestamp: U32, ssrc: U32)
    requires Starts(s, q, timestamp, ssrc)
    ensures Within(Entered(s, q, timestamp, ssrc).s, q, timestamp, ssrc)
  {
    hide Emit, Lose;
    var p := Bare(q, timestamp, ssrc);
    EnterRecords(s, p);
  }

  lemma EmitRecords(t: Turn)
    ensures Emit(t).s.haveSsrc == t.s.haveSsrc && Emit(t).s.ssrc == t.s.ssrc
    ensures Emit(t).s.haveSequence == t.s.haveSequence && Emit(t).s.sequence == t.s.sequence
  {
    hide Good, Missing, ClearFlags;
  }

  lemma EnterRecords(s: State, p: RtpPacket)
    requires !Stale(s, p)
    ensures var e := Enter(s, p).s;
            && e.haveSsrc && e.ssrc == p.ssrc && e.haveSequence && e.sequence == p.sequence
            && e.haveTimestamp && e.timestamp == p.timestamp
  {
    hide SequenceDelta, Emit, Reset, Stale, NewSource;
    var a := SwitchSource(s, p);
    var gap := a.haveSequence && SequenceDelta(p.sequence, a.sequence) != 1;
    var t := Turn(a.(sequence := p.sequence, haveSequence := true), []);
    EmitRecords(if gap || t.s.c.fu != [] then Lose(t) else t);
  }

  lemma NextIsLinked(q: U16, i: nat)
    ensures SequenceDelta((q + i + 1) % 0x1_0000, (q + i) % 0x1_0000) == 1
  {
  }

  lemma EnterWithin(s: State, p: RtpPacket)
    requires Within(s, s.sequence, p.timestamp, p.ssrc) && SequenceDelta(p.sequence, s.sequence) == 1
    ensures !Stale(s, p) && Enter(s, p) == Turn(s.(sequence := p.sequence), [])
  {
    hide Emit, Lose, SequenceDelta;
  }

  /** One packet whose payload is taken. */
  lemma PacketTakes(s: State, b: Bytes, t: Turn, p: RtpPacket)
    requires ParseRtp(b) == Some(p) && !Stale(s, p) && t == Enter(s, p) && !t.s.damaged && p.payload[0] < 128
    requires TakePayload(t.s.c, p.payload).ok
    ensures Process(s, b) == Finish(t.(s := t.s.(c := TakePayload(t.s.c, p.payload).c)), p)
  {
    hide Enter, TakePayload, Finish, ParseRtp;
  }

  /** The state after the first `k` packets: the payloads taken, the last number recorded. */
  function Progress(e: Turn, c: Content, q: U16, k: nat): Turn {
    Turn(e.s.(c := c, sequence := (q + k) % 0x1_0000), e.outs)
  }

  /** The state after packet `k` of `n`: the marker on the last one ends the access unit. */
  function Reached(t: Turn, k: nat, n: nat): Turn {
    if k + 1 == n then var f := Emit(t); f.(s := f.s.(haveTimestamp := false)) else t
  }

  lemma {:induction false} PacketsTake(s: State, wire: seq<Bytes>, ps: seq<Bytes>, q: U16, timestamp: U32, ssrc: U32,
                                       k: nat)
    requires Carries(wire, ps, q, timestamp, ssrc) && Starts(s, q, timestamp, ssrc) && k < |wire|
    requires Nonempty(ps) && (forall i :: 0 <= i < |ps| ==> ps[i][0] < 128)
    requires TakeAll(Entered(s, q, timestamp, ssrc).s.c, ps).ok
    ensures TakeAll(Entered(s, q, timestamp, ssrc).s.c, ps[..k + 1]).ok
    ensures var e := Entered(s, q, timestamp, ssrc);
            Feed(s, wire[..k + 1]) == Reached(Progress(e, TakeAll(e.s.c, ps[..k + 1]).c, q, k), k, |wire|)
    decreases k
  {
    hide TakePayload, Starts, Entered, ParseRtp, Within, Process, Progress, Reached;
    var e := Entered(s, q, timestamp, ssrc);
    TakenPrefix(e.s.c, ps, k + 1);
    TakenPrefix(e.s.c, ps, k);
    assert ps[..k + 1][..k] == ps[..k] && ps[..k + 1][k] == ps[k];
    assert wire[..k + 1][..k] == wire[..k] && wire[..k + 1][k] == wire[k];
    assert CarriesOne(wire[k], ps[k], (q + k) % 0x1_0000, timestamp, ssrc, k == |wire| - 1);
    var c := TakeAll(e.s.c, ps[..k]).c;
    if k == 0 {
      assert wire[..0] == [] && ps[..0] == [];
      FirstPacketTakes(s, wire[0], ps[0], q, timestamp, ssrc, |wire|);
      assert [] + Process(s, wire[0]).outs == Process(s, wire[0]).outs;
    } else {
      PacketsTake(s, wire, ps, q, timestamp, ssrc, k - 1);
      NotYet(Progress(e, c, q, k - 1), k - 1, |wire|);
      EnteredWithin(s, q, timestamp, ssrc);
      NextPacketTakes(e, c, wire[k], ps[k], q, timestamp, ssrc, k, |wire|);
    }
  }

  lemma NotYet(t: Turn, k: nat, n: nat)
    requires k + 1 < n
    ensures Reached(t, k, n) == t
  {
  }

  lemma FirstPacketTakes(s: State, b: Bytes, payload: Bytes, q: U16, timestamp: U32, ssrc: U32, n: nat)
    requires Starts(s, q, timestamp, ssrc) && CarriesOne(b, payload, q % 0x1_0000, timestamp, ssrc, n == 1)
    requires payload != [] && payload[0] < 128 && TakePayload(Entered(s, q, timestamp, ssrc).s.c, payload).ok
    ensures var e := Entered(s, q, timestamp, ssrc);
            Process(s, b) == Reached(Progress(e, TakePayload(e.s.c, payload).c, q, 0), 0, n)
  {
    hide TakePayload, Emit, Starts, Entered, ParseRtp, Process;
    var p := ParseRtp(b).value;
    EnteredIs(s, p);
    StartsUndamaged(s, q, timestamp, ssrc);
    EnteredWithin(s, q, timestamp, ssrc);
    PacketTakes(s, b, Entered(s, q, timestamp, ssrc), p);
  }

  lemma NextPacketTakes(e: Turn, c: Content, b: Bytes, payload: Bytes, q: U16, timestamp: U32, ssrc: U32, k: nat,
                        n: nat)
    requires Within(e.s, q, timestamp, ssrc) && 0 < k < n
    requires CarriesOne(b, payload, (q + k) % 0x1_0000, timestamp, ssrc, k + 1 == n)
    requires payload != [] && payload[0] < 128 && TakePayload(c, payload).ok
    ensures var before := Progress(e, c, q, k - 1);
            var t := Process(before.s, b);
            Turn(t.s, before.outs + t.outs) == Reached(Progress(e, TakePayload(c, payload).c, q, k), k, n)
  {
    hide TakePayload, Emit, ParseRtp, Process, SequenceDelta;
    NextIsLinked(q, k - 1);
    PacketWithin(Progress(e, c, q, k - 1), b, ParseRtp(b).value, timestamp, ssrc);
  }

  /** A further packet of the access unit. */
  lemma PacketWithin(before: Turn, b: Bytes, p: RtpPacket, timestamp: U32, ssrc: U32)
    requires ParseRtp(b) == Some(p) && p.timestamp == timestamp && p.ssrc == ssrc && p.payload[0] < 128
    requires Within(before.s, before.s.sequence, timestamp, ssrc) && SequenceDelta(p.sequence, before.s.sequence) == 1
    requires TakePayload(before.s.c, p.payload).ok
    ensures var t := Process(before.s, b);
            var c := TakePayload(before.s.c, p.payload).c;
            Turn(t.s, before.outs + t.outs) == Finish(Turn(before.s.(sequence := p.sequence, c := c), before.outs), p)
  {
    hide TakePayload, Emit, ParseRtp, SequenceDelta, Stale, Enter, Process;
    EnterWithin(before.s, p);
    var t := Turn(before.s.(sequence := p.sequence), []);
    PacketTakes(before.s, b, t, p);
    EmitAppends(t.(s := t.s.(c := TakePayload(t.s.c, p.payload).c)), before.outs);
  }

  lemma StartsUndamaged(s: State, q: U16, timestamp: U32, ssrc: U32)
    requires Starts(s, q, timestamp, ssrc)
    ensures !Entered(s, q, timestamp, ssrc).s.damaged
  {
  }

  lemma {:induction false} TakenPrefix(c: Content, ps: seq<Bytes>, k: nat)
    requires Nonempty(ps) && k <= |ps| && TakeAll(c, ps).ok
    ensures Nonempty(ps[..k]) && TakeAll(c, ps[..k]).ok
    decreases |ps|
  {
    hide TakePayload;
    if k == |ps| {
      assert ps[..k] == ps;
    } else {
      assert ps[..|ps| - 1][..k] == ps[..k];
      TakenPrefix(c, ps[..|ps| - 1], k);
    }
  }

  /** Callbacks accumulate: what was made before stays in front. */
  lemma EmitAppends(t: Turn, outs: seq<Out>)
    requires t.outs == []
    ensures Emit(t.(outs := outs)) == Emit(t).(outs := outs + Emit(t).outs)
    ensures outs + t.outs == outs
  {
    hide Good, Missing, ClearAu;
  }

  /** The theorem: an access unit that fits, packed in any way into consecutive packets with the marker on the
      last, leaves the receiver as if its units had been appended one by one and the access unit emitted. */
  lemma AnyPackagingDelivers(s: State, ps: seq<Packaging>, wire: seq<Bytes>, q: U16, timestamp: U32, ssrc: U32)
    requires AllOk(ps) && Carries(wire, AllPayloads(ps), q, timestamp, ssrc) && Starts(s, q, timestamp, ssrc)
    requires AppendAll(Entered(s, q, timestamp, ssrc).s.c, AllUnits(ps)).ok
    ensures var e := Entered(s, q, timestamp, ssrc);
            var r := Feed(s, wire);
            && r.outs == Emit(e.(s := e.s.(c := AppendAll(e.s.c, AllUnits(ps)).c))).outs
            && Same(r.s, Emit(e.(s := e.s.(c := AppendAll(e.s.c, AllUnits(ps)).c))).s)
  {
    hide TakeAll, Emit, Starts, Entered, Carries, AllPayloads, AllUnits, AppendAll, Feed;
    var e := Entered(s, q, timestamp, ssrc);
    var payloads := AllPayloads(ps);
    AllPayloadsNonempty(ps);
    StartsUndamaged(s, q, timestamp, ssrc);
    StartsEmpty(s, q, timestamp, ssrc);
    MixTakes(e.s.c, ps);
    CarriesSome(wire, payloads, q, timestamp, ssrc);
    PacketsTake(s, wire, payloads, q, timestamp, ssrc, |wire| - 1);
    assert payloads[..|wire|] == payloads && wire[..|wire|] == wire;
    var c := AppendAll(e.s.c, AllUnits(ps)).c;
    var t := Progress(e, TakeAll(e.s.c, payloads).c, q, |wire| - 1);
    EmitSame(t, e.(s := e.s.(c := c)));
  }

  lemma StartsEmpty(s: State, q: U16, timestamp: U32, ssrc: U32)
    requires Starts(s, q, timestamp, ssrc)
    ensures Entered(s, q, timestamp, ssrc).s.c.fu == []
  {
  }

  lemma CarriesSome(wire: seq<Bytes>, payloads: seq<Bytes>, q: U16, timestamp: U32, ssrc: U32)
    requires Carries(wire, payloads, q, timestamp, ssrc)
    ensures |wire| == |payloads| > 0
  {
  }

  /** Equal but for the last packet number, the leftover fragment header, and whether an access unit is open. */
  ghost predicate Same(a: State, b: State) {
    a == b.(sequence := a.sequence, haveTimestamp := a.haveTimestamp, c := b.c.(fuHeader := a.c.fuHeader))
  }

  lemma EmitSame(t: Turn, u: Turn)
    requires Same(t.s, u.s) && t.outs == u.outs
    ensures Emit(t).outs == Emit(u).outs
    ensures Same(Emit(t).s.(haveTimestamp := false), Emit(u).s)
  {
    assert Good(t.s) == Good(u.s) && Missing(t.s.c) == Missing(u.s.c);
    hide Good, Missing;
  }

  /** Two ways of packing the same units, with possibly different numbers of packets, deliver the same bytes and
      leave the same parameter sets stored. */
  lemma PackagingDoesNotMatter(s: State, ps: seq<Packaging>, wire: seq<Bytes>, qs: seq<Packaging>, other: seq<Bytes>,
                               q: U16, timestamp: U32, ssrc: U32)
    requires AllOk(ps) && Carries(wire, AllPayloads(ps), q, timestamp, ssrc)
    requires AllOk(qs) && Carries(other, AllPayloads(qs), q, timestamp, ssrc)
    requires AllUnits(ps) == AllUnits(qs) && Starts(s, q, timestamp, ssrc)
    requires AppendAll(Entered(s, q, timestamp, ssrc).s.c, AllUnits(ps)).ok
    ensures Feed(s, wire).outs == Feed(s, other).outs
    ensures Feed(s, wire).s.c.sps == Feed(s, other).s.c.sps && Feed(s, wire).s.c.pps == Feed(s, other).s.c.pps
    ensures Feed(s, wire).s.waiting == Feed(s, other).s.waiting
  {
    hide Feed, Emit, Starts, Entered, Carries, AllPayloads, AllUnits, AppendAll, AllOk;
    AnyPackagingDelivers(s, ps, wire, q, timestamp, ssrc);
    AnyPackagingDelivers(s, qs, other, q, timestamp, ssrc);
  }

  // ---------------------------------------------------------------- what is emitted

  /** The start of an access unit. */
  predicate Fresh(c: Content) {
    c.au == [] && c.fu == [] && !c.idr && !c.vcl && !c.hasSps && !c.hasPps
  }

  predicate HasVcl(ns: seq<Nal>) {
    exists i :: 0 <= i < |ns| && ns[i] != [] && 1 <= NalType(ns[i]) <= 5
  }

  lemma HasVclSnoc(ns: seq<Nal>, n: Nal)
    requires n != []
    ensures HasVcl(ns + [n]) <==> HasVcl(ns) || 1 <= NalType(n) <= 5
  {
    hide NalType;
    var all := ns + [n];
    assert all[|ns|] == n;
    if i :| 0 <= i < |ns| && ns[i] != [] && 1 <= NalType(ns[i]) <= 5 { assert all[i] == ns[i]; }
  }

  lemma OneMarks(c: Content, n: Nal)
    requires AppendNalu(c, n).ok
    ensures n != []
    ensures var r, t := AppendNalu(c, n).c, NalType(n);
            && r.idr == (c.idr || t == 5) && r.vcl == (c.vcl || 1 <= t <= 5)
            && r.hasSps == (c.hasSps || t == 7) && r.hasPps == (c.hasPps || t == 8)
            && (t != 7 ==> r.sps == c.sps) && (t != 7 && t != 8 ==> r.pps == c.pps)
  {
    hide Unit;
  }

  /** The marks of an access unit tell which types its units have; sets are stored only from units of their types. */
  lemma {:induction false} AppendAllMarks(c: Content, ns: seq<Nal>)
    requires Fresh(c) && AppendAll(c, ns).ok
    ensures var r := AppendAll(c, ns).c;
            && r.idr == HasType(ns, 5) && r.vcl == HasVcl(ns) && r.hasSps == HasType(ns, 7)
            && r.hasPps == HasType(ns, 8)
            && (!HasType(ns, 7) ==> r.sps == c.sps) && (!HasType(ns, 7) && !HasType(ns, 8) ==> r.pps == c.pps)
    decreases |ns|
  {
    hide AppendNalu, NalType, HasType, HasVcl;
    if ns == [] {
      NoneOfAny();
    } else {
      var init, n := ns[..|ns| - 1], ns[|ns| - 1];
      assert ns == init + [n];
      AppendAllMarks(c, init);
      OneMarks(AppendAll(c, init).c, n);
      HasTypeSnoc(init, n, 5);
      HasTypeSnoc(init, n, 7);
      HasTypeSnoc(init, n, 8);
      HasVclSnoc(init, n);
    }
  }

  lemma NoneOfAny()
    ensures !HasVcl([]) && forall t :: !HasType([], t)
  {
  }

  /** The access unit as it is to come out: before an IDR the parameter sets it does not bring
      itself, then its units. */
  function Emitted(c: Content, ns: seq<Nal>): seq<Nal> {
    (if HasType(ns, 5) && !HasType(ns, 7) then [c.sps] else [])
    + (if HasType(ns, 5) && !HasType(ns, 8) then [c.pps] else []) + ns
  }

  /** There is a picture, an IDR when one is awaited, with both parameter sets known for it, and it all fits. */
  predicate Deliverable(waiting: bool, c: Content, ns: seq<Nal>) {
    && HasVcl(ns) && (waiting ==> HasType(ns, 5)) && (HasType(ns, 5) ==> c.sps != [] && c.pps != [])
    && |Print(Emitted(c, ns))| <= MAX_ACCESS_UNIT_BYTES
  }

  /** What a whole access unit comes to, IDR or not: exactly when it is deliverable it comes out as the printing of the
      missing parameter sets and its units, and no keyframe is awaited any more; otherwise nothing comes out, and a
      keyframe is asked for if one is awaited or a picture was lost. */
  lemma AppendedThenEmitted(s: State, ns: seq<Nal>)
    requires Fresh(s.c) && !s.damaged && ns != [] && AppendAll(s.c, ns).ok
    ensures var c := AppendAll(s.c, ns).c;
            var r := Emit(Turn(s.(c := c), []));
            if Deliverable(s.waiting, c, ns)
            then r.outs == [Deliver(Print(Emitted(c, ns)), s.timestamp)] && !r.s.waiting
            else r.s.waiting == (s.waiting || HasVcl(ns)) && r.outs == if r.s.waiting then [RequestKeyframe] else []
  {
    hide AppendAll, Print, ClearAu, HasType, HasVcl, Unit;
    AppendAllPrints(s.c, ns);
    AppendAllKeepsFu(s.c, ns);
    AppendAllMarks(s.c, ns);
    TotalPositive(ns);
    assert [] + Print(ns) == Print(ns);
    MissingPrints(AppendAll(s.c, ns).c, ns);
  }

  lemma MissingPrints(c: Content, ns: seq<Nal>)
    requires c.hasSps == HasType(ns, 7) && c.hasPps == HasType(ns, 8)
    ensures Print(Emitted(c, ns)) == (if HasType(ns, 5) then Missing(c) else []) + Print(ns)
  {
    hide Print, HasType, Unit;
    var sps := if HasType(ns, 5) && !HasType(ns, 7) then [c.sps] else [];
    var pps := if HasType(ns, 5) && !HasType(ns, 8) then [c.pps] else [];
    PrintAppend(sps + pps, ns);
    PrintAppend(sps, pps);
    PrintOne(c.sps);
    PrintOne(c.pps);
    PrintNone();
  }

  lemma PrintNone()
    ensures Print([]) == []
  {
  }

  lemma TotalPositive(ns: seq<Nal>)
    requires ns != []
    ensures TotalSize(ns) > 0
  {
  }
}
