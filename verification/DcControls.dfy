/** The control messages of the DataChannel receiver over runs: when a picture-loss indication
    is sent, and which bitrates the sender is told. */
module DcControls {
  import opened Wire
  import opened AnnexB
  import opened DcModel
  import opened DcInvariants
  import opened DcOrder

  // ---------------------------------------------------------------- what calls for an indication

  /** A frame that is still needed has become 60 ms old. */
  ghost predicate LosesNeeded(s: State, now: int) {
    exists k :: k in s.pending && Expired(s.pending[k], now) && Needed(s, k)
  }

  /** The turn in which the delivery loop of a drain starts. */
  function LoopStart(t: Turn, now: int): Turn {
    var e := Expire(t, now);
    e.(s := Initialize(e.s))
  }

  /** A number from `from` up to `to` is the number of none of the deliveries. */
  ghost predicate Omits(fs: seq<Delivery>, from: nat, to: nat) {
    exists n: nat :: from <= n < to && !HasNumber(fs, n)
  }

  ghost predicate HasNumber(fs: seq<Delivery>, n: nat) {
    exists i :: 0 <= i < |fs| && fs[i].position == n
  }

  /** The drain leaves a number behind without delivering it: its frame was refused, unfinished or missing. */
  ghost predicate PassesOver(t: Turn, now: int) {
    var i, d := LoopStart(t, now), Drain(t, now);
    i.s.initialized && |t.b.frames| <= |d.b.frames| && Omits(d.b.frames[|t.b.frames|..], i.s.position, d.s.position)
  }

  ghost predicate DrainTroubled(t: Turn, now: int) {
    LosesNeeded(t.s, now) || PassesOver(t, now)
  }

  /** The chunk contradicts what is stored of its frame: other metadata, or other content at its index. */
  predicate Contradicts(s: State, c: Chunk)
    requires c.index < c.count
  {
    && c.seqNo in s.pending
    && var f := s.pending[c.seqNo];
       !SameHeader(f, c) || (f.chunks[c.index] != [] && f.chunks[c.index] != c.payload)
  }

  predicate StaleChunk(s: State, c: Chunk) {
    s.initialized && SequenceDelta(c.seqNo, s.expected) < 0
  }

  ghost predicate ChunkTroubled(d: Turn, c: Chunk, now: int)
    requires c.index < c.count
  {
    && !StaleChunk(d.s, c)
    && (Overflows(d.s, c) || Contradicts(d.s, c) || DrainTroubled(Store(d, c, now), now))
  }

  /** The event gives a reason to ask for a keyframe: a packet under which a needed frame
      expires, a number is passed over, the buffer overflows or a stored chunk is contradicted; a tick in which that
      happens or a keyframe stays awaited. */
  ghost predicate Troubled(s: State, e: Event) {
    var t := Turn(s, EMPTY_BATCH);
    match e
    case Packet(p, now) =>
      && now >= 0 && ParseChunk(p).Some?
      && (DrainTroubled(t, now) || ChunkTroubled(Drain(t, now), ParseChunk(p).value, now))
    case Timer(now) => now >= 0 && (DrainTroubled(t, now) || Drain(t, now).s.waiting)
    case Cleared => false
  }

  /** An indication was sent less than 50 ms before. */
  predicate Recent(s: State, now: int) {
    s.lastPli >= 0 && now - s.lastPli < PLI_US
  }

  // ---------------------------------------------------------------- asking once

  datatype Governor = Governor(lastPli: int, lastIncrease: int, bitrate: int)

  function GovernorOf(s: State): Governor {
    Governor(s.lastPli, s.lastIncrease, s.bitrate)
  }

  /** From `t` to `u` the control side changed by asking for a keyframe once, or not at all. */
  ghost predicate Asks(t: Turn, u: Turn, asked: bool, now: int) {
    var r := if asked then Recover(t, now) else t;
    && u.b.controls == r.b.controls && GovernorOf(u.s) == GovernorOf(r.s)
    && (!asked ==> (u.s.waiting ==> t.s.waiting))
  }

  lemma AsksThen(t: Turn, u: Turn, v: Turn, first: bool, second: bool, now: int)
    requires now >= 0 && Asks(t, u, first, now) && Asks(u, v, second, now)
    ensures Asks(t, v, first || second, now)
  {
  }

  lemma AsksNothing(t: Turn, now: int)
    ensures Asks(t, t, false, now)
  {
  }

  /** Recovery asks, whatever else the step changes first. */
  lemma RecoverAsks(t: Turn, u: Turn, now: int)
    requires Asks(t, u, false, now)
    ensures Asks(t, Recover(u, now), true, now)
  {
  }

  /** A frame numbered below `n` that is still needed has expired. */
  ghost predicate NeededExpire(t: Turn, n: nat, now: int) {
    exists k: U16 :: k < n && k in t.s.pending && Expired(t.s.pending[k], now) && Needed(t.s, k)
  }

  lemma {:induction false} ExpireAsks(t: Turn, n: nat, now: int)
    requires n <= 0x1_0000 && now >= 0
    ensures var e := ExpireBelow(t, n, now);
            && Asks(t, e, NeededExpire(t, n, now), now)
            && e.s.expected == t.s.expected && e.s.initialized == t.s.initialized && e.b.frames == t.b.frames
            && (forall k: U16 :: k >= n ==> (k in e.s.pending <==> k in t.s.pending))
            && (forall k: U16 :: k >= n && k in t.s.pending ==> e.s.pending[k] == t.s.pending[k])
  {
    hide Recover, Expired, Asks, SequenceDelta;
    if n == 0 {
      AsksNothing(t, now);
    } else {
      ExpireAsks(t, n - 1, now);
      var u := ExpireBelow(t, n - 1, now);
      KeyAsks(u, n - 1, now);
      var before := exists k: U16 :: k < n - 1 && k in t.s.pending && Expired(t.s.pending[k], now) && Needed(t.s, k);
      AsksThen(t, u, ExpireBelow(t, n, now), before, KeyLost(u, n - 1, now), now);
    }
  }

  predicate KeyLost(t: Turn, k: U16, now: int) {
    k in t.s.pending && Expired(t.s.pending[k], now) && Needed(t.s, k)
  }

  lemma KeyAsks(t: Turn, k: U16, now: int)
    ensures var e := ExpireKey(t, k, now);
            && Asks(t, e, KeyLost(t, k, now), now)
            && e.s.expected == t.s.expected && e.s.initialized == t.s.initialized && e.b.frames == t.b.frames
            && forall j: U16 :: j != k ==> (j in e.s.pending <==> j in t.s.pending)
                                           && (j in t.s.pending ==> e.s.pending[j] == t.s.pending[j])
  {
    hide Expired, SequenceDelta;
  }

  // ---------------------------------------------------------------- the delivery loop

  /** What the loop did between two turns: it delivered `more`, all of numbers it left behind,
      and asked exactly if it left a number behind undelivered. */
  ghost predicate Walks(t: Turn, u: Turn, more: seq<Delivery>, now: int) {
    && u.b.frames == t.b.frames + more && t.s.position <= u.s.position
    && (forall i :: 0 <= i < |more| ==> t.s.position <= more[i].position < u.s.position)
    && Asks(t, u, Omits(more, t.s.position, u.s.position), now)
  }

  lemma OmitsConcat(a: seq<Delivery>, b: seq<Delivery>, from: nat, mid: nat, to: nat)
    requires from <= mid <= to
    requires forall i :: 0 <= i < |a| ==> from <= a[i].position < mid
    requires forall i :: 0 <= i < |b| ==> mid <= b[i].position < to
    ensures Omits(a + b, from, to) <==> Omits(a, from, mid) || Omits(b, mid, to)
  {
    forall n: nat ensures HasNumber(a + b, n) <==> HasNumber(a, n) || HasNumber(b, n) {
      if i :| 0 <= i < |a| && a[i].position == n { assert (a + b)[i] == a[i]; }
      if i :| 0 <= i < |b| && b[i].position == n { assert (a + b)[|a| + i] == b[i]; }
    }
    forall n: nat | n < mid ensures !HasNumber(b, n) {}
    forall n: nat | n >= mid ensures !HasNumber(a, n) {}
  }

  lemma WalksThen(t: Turn, u: Turn, v: Turn, a: seq<Delivery>, b: seq<Delivery>, now: int)
    requires now >= 0 && Walks(t, u, a, now) && Walks(u, v, b, now)
    ensures Walks(t, v, a + b, now)
  {
    hide Asks, Omits;
    OmitsConcat(a, b, t.s.position, u.s.position, v.s.position);
    AsksThen(t, u, v, Omits(a, t.s.position, u.s.position), Omits(b, u.s.position, v.s.position), now);
    assert t.b.frames + a + b == t.b.frames + (a + b);
  }

  lemma StandsStill(t: Turn, now: int)
    ensures Walks(t, t, [], now)
  {
    AsksNothing(t, now);
    assert t.b.frames + [] == t.b.frames;
  }

  /** One number left behind: with its delivery, or with a request. */
  lemma OneNumber(fs: seq<Delivery>, from: nat)
    requires |fs| == 1 ==> fs[0].position == from
    requires |fs| <= 1
    ensures Omits(fs, from, from + 1) <==> fs == []
  {
    if fs != [] { assert HasNumber(fs, from); } else { assert !HasNumber(fs, from); }
  }

  lemma AssembleAsks(s: State, f: Frame)
    ensures GovernorOf(Assemble(s, f).s) == GovernorOf(s) && (Assemble(s, f).s.waiting ==> s.waiting)
  {
    hide Units, LastOf, HasType, Concat, AccessUnit;
  }

  lemma ConsumeWalks(t: Turn, now: int) returns (more: seq<Delivery>)
    requires t.s.expected in t.s.pending
    ensures Walks(t, Consume(t, now), more, now)
  {
    hide Assemble, Recover, Omits;
    var a := Assemble(t.s, t.s.pending[t.s.expected]);
    AssembleAsks(t.s, t.s.pending[t.s.expected]);
    more := if a.out.Some? then [Delivery(a.out.value, t.s.expected, t.s.period, t.s.position)] else [];
    OneNumber(more, t.s.position);
    RecoverMoves(Turn(a.s, t.b), now);
    if a.out.None? {
      assert t.b.frames + [] == t.b.frames;
      RecoverAsks(t, Turn(a.s, t.b), now);
    }
  }

  lemma RecoverMoves(t: Turn, now: int)
    ensures Recover(t, now).s.position == t.s.position && Recover(t, now).b.frames == t.b.frames
    ensures Recover(t, now).s.expected == t.s.expected && Recover(t, now).s.pending == t.s.pending
    ensures Recover(t, now).s.waiting
  {
  }

  lemma AbandonWalks(t: Turn, now: int)
    requires t.s.expected in t.s.pending
    ensures Walks(t, Abandon(t, now), [], now)
  {
    hide Recover, Omits;
    OneNumber([], t.s.position);
    var u := t.(s := StepOver(t.s));
    RecoverMoves(u, now);
    RecoverAsks(t, u, now);
    assert t.b.frames + [] == t.b.frames;
  }

  lemma JumpWalks(t: Turn, k: U16, now: int)
    requires SequenceDelta(k, t.s.expected) > 0
    ensures Walks(t, Jump(t, k, now), [], now)
  {
    hide Recover, SequenceDelta;
    var u := t.(s := t.s.(expected := k, position := t.s.position + SequenceDelta(k, t.s.expected)));
    RecoverMoves(u, now);
    RecoverAsks(t, u, now);
    assert !HasNumber([], t.s.position);
    assert t.b.frames + [] == t.b.frames;
  }

  lemma NotHere(k: U16, e: U16)
    requires k != e && SequenceDelta(k, e) >= 0
    ensures SequenceDelta(k, e) > 0
  {
  }

  lemma {:induction false} AdvanceWalks(t: Turn, now: int) returns (more: seq<Delivery>)
    requires now >= 0
    ensures Walks(t, Advance(t, now), more, now)
    decreases |t.s.pending|, if t.s.expected in t.s.pending then 0 else 1
  {
    hide Walks, Consume, Abandon, Jump, Nearest, Complete, SequenceDelta;
    var s := t.s;
    more := [];
    StandsStill(t, now);
    if s.pending == map[] {
    } else if s.expected in s.pending {
      ErasedIsSmaller(s.pending, s.expected);
      if Complete(s.pending[s.expected]) {
        var first := ConsumeWalks(t, now);
        var rest := AdvanceWalks(Consume(t, now), now);
        WalksThen(t, Consume(t, now), Advance(t, now), first, rest, now);
        more := first + rest;
      } else if now - s.pending[s.expected].arrival >= SKIP_US {
        AbandonWalks(t, now);
        more := AdvanceWalks(Abandon(t, now), now);
        WalksThen(t, Abandon(t, now), Advance(t, now), [], more, now);
        assert [] + more == more;
      }
    } else if Nearest(s).Some? {
      var k := Nearest(s).value;
      if now - s.pending[k].arrival >= SKIP_US {
        NotHere(k, s.expected);
        JumpWalks(t, k, now);
        more := AdvanceWalks(Jump(t, k, now), now);
        WalksThen(t, Jump(t, k, now), Advance(t, now), [], more, now);
        assert [] + more == more;
      }
    }
  }

  // ---------------------------------------------------------------- one drain

  lemma {:induction false} TrimAsks(s: State, n: nat)
    requires n <= 0x1_0000
    ensures GovernorOf(TrimBelow(s, n)) == GovernorOf(s) && TrimBelow(s, n).position == s.position
    ensures TrimBelow(s, n).waiting == s.waiting
  {
    hide SequenceDelta;
    if n > 0 { TrimAsks(s, n - 1); }
  }

  /** What a drain comes to before the bitrate may be raised. */
  function Drained(t: Turn, now: int): Turn {
    var i := LoopStart(t, now);
    if !i.s.initialized then i
    else
      var a := Advance(i, now);
      a.(s := TrimBelow(a.s, 0x1_0000))
  }

  lemma DrainIs(t: Turn, now: int)
    ensures Drain(t, now) == if LoopStart(t, now).s.initialized then RaiseRate(Drained(t, now), now)
            else Drained(t, now)
  {
    hide ExpireBelow, Advance, TrimBelow, RaiseRate, Initialize;
  }

  lemma RaiseMoves(t: Turn, now: int)
    ensures RaiseRate(t, now).s.position == t.s.position && RaiseRate(t, now).b.frames == t.b.frames
    ensures RaiseRate(t, now).s.waiting == t.s.waiting
  {
  }

  lemma ExpireAllAsks(t: Turn, now: int)
    requires now >= 0
    ensures Asks(t, Expire(t, now), LosesNeeded(t.s, now), now) && Expire(t, now).b.frames == t.b.frames
  {
    hide ExpireBelow, Asks, Expired, Needed;
    ExpireAsks(t, 0x1_0000, now);
  }

  lemma InitializeAsks(t: Turn, e: Turn, asked: bool, now: int)
    requires Asks(t, e, asked, now)
    ensures Asks(t, e.(s := Initialize(e.s)), asked, now)
  {
    hide FirstBelow;
  }

  /** Before the bitrate is raised a drain has asked for a keyframe exactly if it was troubled. */
  lemma DrainAsks(t: Turn, now: int)
    requires now >= 0
    ensures Asks(t, Drained(t, now), DrainTroubled(t, now), now)
    ensures |t.b.frames| <= |Drained(t, now).b.frames| && t.b.frames <= Drained(t, now).b.frames
  {
    hide Expire, Advance, TrimBelow, RaiseRate, Initialize, Asks, LosesNeeded, Omits, Drain;
    ExpireAllAsks(t, now);
    InitializeAsks(t, Expire(t, now), LosesNeeded(t.s, now), now);
    InitializeKeepsFrames(Expire(t, now));
    var i := LoopStart(t, now);
    DrainIs(t, now);
    if i.s.initialized {
      var more := AdvanceWalks(i, now);
      var a := Advance(i, now);
      TrimAsks(a.s, 0x1_0000);
      RaiseMoves(Drained(t, now), now);
      assert a.b.frames[|t.b.frames|..] == more;
      var omits := Omits(more, i.s.position, a.s.position);
      AsksThen(t, i, a, LosesNeeded(t.s, now), omits, now);
      AsksSame(t, a, Drained(t, now), LosesNeeded(t.s, now) || omits, now);
    }
  }

  lemma InitializeKeepsFrames(t: Turn)
    ensures t.(s := Initialize(t.s)).b.frames == t.b.frames
  {
  }

  lemma AsksSame(t: Turn, u: Turn, v: Turn, asked: bool, now: int)
    requires Asks(t, u, asked, now) && v.b.controls == u.b.controls && GovernorOf(v.s) == GovernorOf(u.s)
    requires v.s.waiting == u.s.waiting
    ensures Asks(t, v, asked, now)
  {
  }

  // ---------------------------------------------------------------- one event

  /** From `t` to `u` one more indication exactly if there was a reason and none had been sent in the last 50 ms. */
  ghost predicate Indicates(t: Turn, u: Turn, asked: bool, now: int) {
    var sent := asked && !Recent(t.s, now);
    && Plis(u.b.controls) == Plis(t.b.controls) + (if sent then 1 else 0)
    && u.s.lastPli == if sent then now else t.s.lastPli
  }

  lemma IndicatesThen(t: Turn, u: Turn, v: Turn, first: bool, second: bool, now: int)
    requires now >= 0 && Indicates(t, u, first, now) && Indicates(u, v, second, now)
    ensures Indicates(t, v, first || second, now)
  {
  }

  lemma AsksIndicates(t: Turn, u: Turn, asked: bool, now: int)
    requires Asks(t, u, asked, now)
    ensures Indicates(t, u, asked, now)
  {
    if asked && !Recent(t.s, now) {
      var rate := Recover(t, now).s.bitrate;
      PlisSnoc(t.b.controls, Pli);
      PlisSnoc(t.b.controls + [Pli], Bitrate(rate));
      assert t.b.controls + [Pli, Bitrate(rate)] == t.b.controls + [Pli] + [Bitrate(rate)];
    }
  }

  lemma RaiseIndicates(t: Turn, now: int)
    ensures Indicates(t, RaiseRate(t, now), false, now)
  {
    var u := RaiseRate(t, now);
    if u.b != t.b { PlisSnoc(t.b.controls, Bitrate(u.s.bitrate)); }
  }

  lemma DrainIndicates(t: Turn, now: int)
    requires now >= 0
    ensures Indicates(t, Drain(t, now), DrainTroubled(t, now), now)
  {
    hide Asks, Indicates, DrainTroubled, Drained, RaiseRate, Drain, LoopStart;
    DrainAsks(t, now);
    AsksIndicates(t, Drained(t, now), DrainTroubled(t, now), now);
    DrainIs(t, now);
    RaiseIndicates(Drained(t, now), now);
    if Drain(t, now) != Drained(t, now) {
      IndicatesThen(t, Drained(t, now), Drain(t, now), DrainTroubled(t, now), false, now);
    }
  }

  lemma StoreAsks(t: Turn, c: Chunk, now: int)
    requires c.index < c.count
    ensures Asks(t, Store(t, c, now), Contradicts(t.s, c), now)
  {
    hide Recover;
    var f: Frame := if c.seqNo in t.s.pending then t.s.pending[c.seqNo] else FreshFrame(c, now);
    var s := t.s.(pending := t.s.pending[c.seqNo := f]);
    RecoverAsks(t, t.(s := Erase(s, c.seqNo)), now);
  }

  lemma OverflowAsks(t: Turn, now: int)
    ensures Asks(t, Recover(t.(s := t.s.(pending := map[], bytes := 0, initialized := false)), now), true, now)
  {
    hide Recover;
    RecoverAsks(t, t.(s := t.s.(pending := map[], bytes := 0, initialized := false)), now);
  }

  lemma AcceptIndicates(d: Turn, c: Chunk, now: int)
    requires now >= 0 && c.index < c.count
    ensures Indicates(d, Accept(d, c, now), ChunkTroubled(d, c, now), now)
  {
    hide Asks, Indicates, Recover, Drain, Store, DrainTroubled, Contradicts, SequenceDelta;
    AsksNothing(d, now);
    AsksIndicates(d, d, false, now);
    if !StaleChunk(d.s, c) {
      if Overflows(d.s, c) {
        OverflowAsks(d, now);
        AsksIndicates(d, Accept(d, c, now), true, now);
      } else {
        var t := Store(d, c, now);
        StoreAsks(d, c, now);
        AsksIndicates(d, t, Contradicts(d.s, c), now);
        DrainIndicates(t, now);
        IndicatesThen(d, t, Drain(t, now), Contradicts(d.s, c), DrainTroubled(t, now), now);
      }
    }
  }

  lemma StepIndicates(s: State, e: Event)
    requires !e.Cleared?
    ensures Indicates(Turn(s, EMPTY_BATCH), Step(s, e), Troubled(s, e), e.now)
  {
    hide Asks, Indicates, Recover, Drain, Accept, ParseChunk, DrainTroubled, ChunkTroubled;
    var t := Turn(s, EMPTY_BATCH);
    AsksNothing(t, e.now);
    AsksIndicates(t, t, false, e.now);
    if e.now >= 0 {
      var d := Drain(t, e.now);
      DrainIndicates(t, e.now);
      match e {
        case Packet(p, now) =>
          if ParseChunk(p).Some? {
            var c := ParseChunk(p).value;
            AcceptIndicates(d, c, now);
            IndicatesThen(t, d, Accept(d, c, now), DrainTroubled(t, now), ChunkTroubled(d, c, now), now);
          }
        case Timer(now) =>
          AsksNothing(d, now);
          RecoverAsks(d, d, now);
          AsksIndicates(d, Recover(d, now), true, now);
          if d.s.waiting { IndicatesThen(t, d, Recover(d, now), DrainTroubled(t, now), true, now); }
      }
    }
  }

  // ---------------------------------------------------------------- indications over runs

  lemma TimerWaits(s: State, now: int)
    requires now >= 0 && Step(s, Timer(now)).s.waiting
    ensures Troubled(s, Timer(now))
  {
    hide Drain, DrainTroubled, Recover;
  }

  /** An indication was sent less than 50 ms before `now`, as the list of them tells. */
  predicate Asked(plis: seq<int>, now: int) {
    plis != [] && now - plis[|plis| - 1] < PLI_US
  }

  /** Over every run: an event makes the receiver send an indication exactly if it gives a
      reason and none was sent in the 50 ms before. So after any reason for one, and after any tick with a keyframe
      still awaited, the last indication is less than 50 ms old. */
  lemma RunAsks(es: seq<Event>)
    requires es != [] && !es[|es| - 1].Cleared?
    ensures var before, e := Run(es[..|es| - 1]), es[|es| - 1];
            && Run(es).plis == before.plis
               + (if Troubled(before.s, e) && !Asked(before.plis, e.now) then [e.now] else [])
            && (Troubled(before.s, e) ==> Asked(Run(es).plis, e.now))
            && (e.Timer? && e.now >= 0 && Run(es).s.waiting ==> Asked(Run(es).plis, e.now))
  {
    hide Step, Troubled, Plis, Spaced;
    var before, e := Run(es[..|es| - 1]), es[|es| - 1];
    PlisAreSpaced(es[..|es| - 1]);
    StepIndicates(before.s, e);
    NeverIndicates(before.s, e);
    var sent := Plis(Step(before.s, e).b.controls);
    MoreTimes(before.plis, sent, e.now);
    if e.Timer? && e.now >= 0 && Run(es).s.waiting { TimerWaits(before.s, e.now); }
  }

  lemma MoreTimes(plis: seq<int>, more: nat, now: int)
    requires more <= 1
    ensures plis + seq(more, _ => now) == plis + if more == 1 then [now] else []
    ensures more == 1 ==> Asked(plis + [now], now)
    ensures plis + [] == plis
  {
  }

  lemma NeverIndicates(s: State, e: Event)
    ensures Plis(EMPTY_BATCH.controls) == 0
    ensures Troubled(s, e) ==> !e.Cleared? && e.now >= 0
  {
    hide DrainTroubled, ChunkTroubled, Drain, ParseChunk;
  }

  // ---------------------------------------------------------------- the rates the sender is told

  /** The rate the sender was told last; it starts at 3 Mbit/s. */
  function Told(cs: seq<Control>): int {
    if cs == [] then 3000000
    else if cs[|cs| - 1].Bitrate? then cs[|cs| - 1].bps
    else Told(cs[..|cs| - 1])
  }

  /** The rate to tell at a loss: 85 percent of the last one in whole bits, and no less than 2 Mbit/s. */
  predicate IsCut(rate: int, cut: int) {
    if 85 * rate < 100 * 2000000 then cut == 2000000 else 100 * cut <= 85 * rate < 100 * (cut + 1)
  }

  /** The rate to tell when all is well: 300 kbit/s more, and no more than 8 Mbit/s. */
  predicate IsRaise(rate: int, raised: int) {
    if rate + 300000 <= 8000000 then raised == rate + 300000 else raised == 8000000
  }

  /** Every indication is followed at once by a cut rate, and every other rate is a raise, each
      from the rate told before. */
  ghost predicate WellTold(cs: seq<Control>) {
    forall i :: 0 <= i < |cs| ==> ToldAt(cs, i)
  }

  ghost predicate ToldAt(cs: seq<Control>, i: nat)
    requires i < |cs|
  {
    match cs[i]
    case Pli => i + 1 < |cs| && cs[i + 1].Bitrate? && IsCut(Told(cs[..i]), cs[i + 1].bps)
    case Bitrate(rate) => (i > 0 && cs[i - 1].Pli?) || IsRaise(Told(cs[..i]), rate)
  }

  /** With the controls sent before, those of the turn are well told, and the state holds the rate told last. */
  ghost predicate Tells(past: seq<Control>, t: Turn) {
    WellTold(past + t.b.controls) && t.s.bitrate == Told(past + t.b.controls)
  }

  lemma ToldSnoc(cs: seq<Control>, c: Control)
    ensures Told(cs + [c]) == if c.Bitrate? then c.bps else Told(cs)
  {
    assert (cs + [c])[..|cs|] == cs;
  }

  lemma ToldStays(cs: seq<Control>, more: seq<Control>, i: nat)
    requires i < |cs| && ToldAt(cs, i)
    ensures ToldAt(cs + more, i)
  {
    hide IsCut, IsRaise, Told;
    var all := cs + more;
    assert all[..i] == cs[..i] && all[i] == cs[i];
    if i + 1 < |cs| { assert all[i + 1] == cs[i + 1]; }
    if i > 0 { assert all[i - 1] == cs[i - 1]; }
  }

  lemma CutTold(cs: seq<Control>, cut: int)
    requires WellTold(cs) && IsCut(Told(cs), cut)
    ensures WellTold(cs + [Pli, Bitrate(cut)]) && Told(cs + [Pli, Bitrate(cut)]) == cut
  {
    hide IsCut, IsRaise, Told, ToldAt;
    var more := [Pli, Bitrate(cut)];
    var all, n := cs + more, |cs|;
    assert all == cs + [Pli] + [Bitrate(cut)];
    ToldSnoc(cs + [Pli], Bitrate(cut));
    assert all[n] == Pli && all[n + 1] == Bitrate(cut) && all[..n] == cs;
    forall i | 0 <= i < |all| ensures ToldAt(all, i) {
      if i < n { ToldStays(cs, more, i); } else { LastTold(all, n, i, cut); }
    }
  }

  lemma LastTold(all: seq<Control>, n: nat, i: nat, cut: int)
    requires |all| == n + 2 && n <= i < |all| && all[n] == Pli && all[n + 1] == Bitrate(cut)
             && IsCut(Told(all[..n]), cut)
    ensures ToldAt(all, i)
  {
    hide IsCut, IsRaise, Told;
  }

  lemma RaiseTold(cs: seq<Control>, raised: int)
    requires WellTold(cs) && IsRaise(Told(cs), raised)
    ensures WellTold(cs + [Bitrate(raised)]) && Told(cs + [Bitrate(raised)]) == raised
  {
    hide IsCut, IsRaise, Told;
    var more := [Bitrate(raised)];
    var all, n := cs + more, |cs|;
    ToldSnoc(cs, Bitrate(raised));
    assert all[n] == Bitrate(raised) && all[..n] == cs;
    forall i | 0 <= i < |all| ensures ToldAt(all, i) {
      if i < n { ToldStays(cs, more, i); }
    }
  }

  lemma RecoverTells(past: seq<Control>, t: Turn, now: int)
    requires Tells(past, t)
    ensures Tells(past, Recover(t, now))
  {
    hide WellTold, Told;
    var r := Recover(t, now);
    if r.b != t.b {
      CutIs(t.s.bitrate);
      CutTold(past + t.b.controls, r.s.bitrate);
      assert past + (t.b.controls + [Pli, Bitrate(r.s.bitrate)]) == past + t.b.controls + [Pli, Bitrate(r.s.bitrate)];
    }
  }

  lemma CutIs(rate: int)
    ensures var reduced := rate * 85 / 100;
            IsCut(rate, if reduced > MIN_BITRATE then reduced else MIN_BITRATE)
  {
  }

  lemma AsksTell(past: seq<Control>, t: Turn, u: Turn, asked: bool, now: int)
    requires Tells(past, t) && Asks(t, u, asked, now)
    ensures Tells(past, u)
  {
    hide WellTold, Told, Recover;
    RecoverTells(past, t, now);
  }

  lemma RaiseTells(past: seq<Control>, t: Turn, now: int)
    requires Tells(past, t)
    ensures Tells(past, RaiseRate(t, now))
  {
    hide WellTold, Told;
    var u := RaiseRate(t, now);
    if u.b != t.b {
      RaiseTold(past + t.b.controls, u.s.bitrate);
      assert past + (t.b.controls + [Bitrate(u.s.bitrate)]) == past + t.b.controls + [Bitrate(u.s.bitrate)];
    }
  }

  lemma DrainTells(past: seq<Control>, t: Turn, now: int)
    requires now >= 0 && Tells(past, t)
    ensures Tells(past, Drain(t, now))
  {
    hide Tells, Asks, DrainTroubled, Drained, RaiseRate, Drain, LoopStart;
    DrainAsks(t, now);
    AsksTell(past, t, Drained(t, now), DrainTroubled(t, now), now);
    DrainIs(t, now);
    RaiseTells(past, Drained(t, now), now);
  }

  lemma StepTells(past: seq<Control>, s: State, e: Event)
    requires !e.Cleared? && Tells(past, Turn(s, EMPTY_BATCH))
    ensures Tells(past, Step(s, e))
  {
    hide Tells, Asks, Recover, Drain, Store, ParseChunk, SequenceDelta, Contradicts;
    var t := Turn(s, EMPTY_BATCH);
    if e.now >= 0 {
      DrainTells(past, t, e.now);
      var d := Drain(t, e.now);
      match e {
        case Packet(p, now) =>
          if ParseChunk(p).Some? && !StaleChunk(d.s, ParseChunk(p).value) {
            var c := ParseChunk(p).value;
            OverflowAsks(d, now);
            StoreAsks(d, c, now);
            if Overflows(d.s, c) {
              AsksTell(past, d, Accept(d, c, now), true, now);
            } else {
              AsksTell(past, d, Store(d, c, now), Contradicts(d.s, c), now);
              DrainTells(past, Store(d, c, now), now);
            }
          }
        case Timer(now) => RecoverTells(past, d, now);
      }
    }
  }

  /** Everything sent since the last reset. */
  function Controls(es: seq<Event>): seq<Control> {
    if es == [] || es[|es| - 1].Cleared? then []
    else Controls(es[..|es| - 1]) + Step(Run(es[..|es| - 1]).s, es[|es| - 1]).b.controls
  }

  /** Over every run, from a reset on: each indication is followed at once by the cut of the
      rate told before it, every other message is a raise of it, and the receiver holds the rate it told last. */
  lemma {:induction false} RatesAreTold(es: seq<Event>)
    ensures WellTold(Controls(es)) && Run(es).s.bitrate == Told(Controls(es))
  {
    hide WellTold, Step;
    NothingTold();
    if es != [] {
      RatesAreTold(es[..|es| - 1]);
      var l, e, past := Run(es[..|es| - 1]), es[|es| - 1], Controls(es[..|es| - 1]);
      if e.Cleared? {
        ClearedRate(l.s);
      } else {
        assert past + EMPTY_BATCH.controls == past;
        StepTells(past, l.s, e);
      }
    }
  }

  lemma NothingTold()
    ensures WellTold([]) && Told([]) == INITIAL.bitrate
  {
  }

  lemma ClearedRate(s: State)
    ensures Step(s, Cleared).s.bitrate == 3000000
  {
  }

  // ---------------------------------------------------------------- when the rate is raised

  function Rates(cs: seq<Control>): nat {
    if cs == [] then 0 else Rates(cs[..|cs| - 1]) + (if cs[|cs| - 1].Bitrate? then 1 else 0)
  }

  /** How many rates were told without an indication. */
  function Raises(cs: seq<Control>): int {
    Rates(cs) - Plis(cs)
  }

  lemma RaisesSnoc(cs: seq<Control>, c: Control)
    ensures Raises(cs + [c]) == Raises(cs) + if c.Bitrate? then 1 else -1
  {
    assert (cs + [c])[..|cs|] == cs;
  }

  /** From `t` to `u`: at most one raise, due for 2 s since the last change and with something
      delivered; what was told last counts as the last change, and otherwise it stands, or the
      first delivery begins the count. */
  ghost predicate Rises(t: Turn, u: Turn, now: int) {
    && Raises(t.b.controls) <= Raises(u.b.controls) <= Raises(t.b.controls) + 1
    && (Raises(u.b.controls) > Raises(t.b.controls) ==>
          t.s.lastIncrease >= 0 && now - t.s.lastIncrease >= RAISE_US && u.b.frames != [])
    && |t.b.controls| <= |u.b.controls| && (t.b.frames != [] ==> u.b.frames != [])
    && (if |u.b.controls| > |t.b.controls| then u.s.lastIncrease == now
        else u.b.controls == t.b.controls
             && (u.s.lastIncrease == t.s.lastIncrease
                 || (t.s.lastIncrease < 0 && u.s.lastIncrease == now && u.b.frames != [])))
    && (u.b.controls == t.b.controls ==> u.s.lastPli == t.s.lastPli)
    && (u.b.controls == t.b.controls && t.s.lastPli < 0 ==>
          (u.s.waiting ==> t.s.waiting && u.s.lastIncrease == t.s.lastIncrease))
  }

  lemma RisesThen(t: Turn, u: Turn, v: Turn, now: int)
    requires now >= 0 && Rises(t, u, now) && Rises(u, v, now)
    ensures Rises(t, v, now)
  {
    hide Raises;
  }

  lemma AsksRise(t: Turn, u: Turn, asked: bool, now: int)
    requires Asks(t, u, asked, now) && (t.b.frames != [] ==> u.b.frames != [])
    ensures Rises(t, u, now)
  {
    hide Raises;
    var r := Recover(t, now);
    if r.b.controls != t.b.controls {
      var rate := r.s.bitrate;
      RaisesSnoc(t.b.controls, Pli);
      RaisesSnoc(t.b.controls + [Pli], Bitrate(rate));
      assert t.b.controls + [Pli, Bitrate(rate)] == t.b.controls + [Pli] + [Bitrate(rate)];
    }
  }

  lemma RaiseRises(t: Turn, now: int)
    ensures Rises(t, RaiseRate(t, now), now)
  {
    hide Raises;
    var u := RaiseRate(t, now);
    if u.b != t.b { RaisesSnoc(t.b.controls, Bitrate(u.s.bitrate)); }
  }

  /** Something came out and no keyframe is awaited. */
  predicate Flows(t: Turn) {
    t.b.frames != [] && !t.s.waiting
  }

  /** The last change is less than 2 s old. */
  predicate Fresh(s: State, now: int) {
    s.lastIncrease >= 0 && now - s.lastIncrease < RAISE_US
  }

  lemma RaiseIsFresh(t: Turn, now: int)
    requires now >= 0
    ensures Flows(t) ==> Fresh(RaiseRate(t, now).s, now)
    ensures Flows(RaiseRate(t, now)) == Flows(t)
  {
  }

  lemma DrainRises(t: Turn, now: int)
    requires now >= 0 && (t.b.frames != [] ==> t.s.initialized)
    ensures Rises(t, Drain(t, now), now)
    ensures Flows(Drain(t, now)) ==> Fresh(Drain(t, now).s, now)
    ensures Drain(t, now).b.frames != [] ==> Drain(t, now).s.initialized
  {
    hide Rises, Asks, DrainTroubled, RaiseRate, Drain, LoopStart, Advance, TrimBelow, Fresh, Flows;
    DrainAsks(t, now);
    AsksRise(t, Drained(t, now), DrainTroubled(t, now), now);
    DrainIs(t, now);
    RaiseRises(Drained(t, now), now);
    RisesThen(t, Drained(t, now), RaiseRate(Drained(t, now), now), now);
    RaiseIsFresh(Drained(t, now), now);
    StartsInitialized(t, now);
    if LoopStart(t, now).s.initialized {
      AdvanceLeaves(LoopStart(t, now), now);
      TrimLeaves(Advance(LoopStart(t, now), now).s, 0x1_0000);
      RaiseLeaves(Drained(t, now), now);
    } else {
      NothingFlows(Drained(t, now));
    }
  }

  lemma NothingFlows(t: Turn)
    ensures t.b.frames == [] ==> !Flows(t)
  {
  }

  lemma StartsInitialized(t: Turn, now: int)
    ensures t.s.initialized ==> LoopStart(t, now).s.initialized
    ensures LoopStart(t, now).b.frames == t.b.frames
  {
    hide ExpireBelow, FirstBelow, Expired;
    if now >= 0 { ExpireAsks(t, 0x1_0000, now); } else { ExpireKeepsFlag(t, 0x1_0000, now); }
  }

  lemma {:induction false} ExpireKeepsFlag(t: Turn, n: nat, now: int)
    requires n <= 0x1_0000
    ensures ExpireBelow(t, n, now).s.initialized == t.s.initialized && ExpireBelow(t, n, now).b.frames == t.b.frames
  {
    hide Expired;
    if n > 0 {
      ExpireKeepsFlag(t, n - 1, now);
      KeyAsks(ExpireBelow(t, n - 1, now), n - 1, now);
    }
  }

  lemma StoreFrames(t: Turn, c: Chunk, now: int)
    requires c.index < c.count
    ensures Store(t, c, now).b.frames == t.b.frames && Store(t, c, now).s.initialized == t.s.initialized
  {
    hide SameHeader, AddChunk;
  }

  lemma AcceptRises(d: Turn, c: Chunk, now: int)
    requires now >= 0 && c.index < c.count && (d.b.frames != [] ==> d.s.initialized) && (Flows(d) ==> Fresh(d.s, now))
    ensures Rises(d, Accept(d, c, now), now)
    ensures Flows(Accept(d, c, now)) ==> Fresh(Accept(d, c, now).s, now)
  {
    hide Rises, Asks, Drain, Store, Contradicts, SequenceDelta;
    AsksNothing(d, now);
    AsksRise(d, d, false, now);
    if !StaleChunk(d.s, c) {
      if Overflows(d.s, c) {
        OverflowAsks(d, now);
        AsksRise(d, Accept(d, c, now), true, now);
      } else {
        var t := Store(d, c, now);
        StoreAsks(d, c, now);
        StoreFrames(d, c, now);
        AsksRise(d, t, Contradicts(d.s, c), now);
        DrainRises(t, now);
        RisesThen(d, t, Drain(t, now), now);
      }
    }
  }

  lemma StepRises(s: State, e: Event)
    requires !e.Cleared?
    ensures Rises(Turn(s, EMPTY_BATCH), Step(s, e), e.now)
    ensures Flows(Step(s, e)) ==> Fresh(Step(s, e).s, e.now)
  {
    hide Rises, Asks, Recover, Drain, Accept, ParseChunk, Fresh;
    var t := Turn(s, EMPTY_BATCH);
    AsksNothing(t, e.now);
    AsksRise(t, t, false, e.now);
    if e.now >= 0 {
      var d := Drain(t, e.now);
      DrainRises(t, e.now);
      match e {
        case Packet(p, now) =>
          if ParseChunk(p).Some? {
            AcceptRises(d, ParseChunk(p).value, now);
            RisesThen(t, d, Step(s, e), now);
          }
        case Timer(now) =>
          AsksNothing(d, now);
          RecoverAsks(d, d, now);
          RecoverMoves(d, now);
          AsksRise(d, Recover(d, now), true, now);
          RisesThen(t, d, Recover(d, now), now);
      }
    }
  }

  // ---------------------------------------------------------------- raises over runs

  /** The times since the last reset at which the rate changed; the first delivery with nothing
      awaited begins the count. */
  function Changes(es: seq<Event>): seq<int> {
    if es == [] || es[|es| - 1].Cleared? then []
    else
      var before, e := Changes(es[..|es| - 1]), es[|es| - 1];
      var t := Step(Run(es[..|es| - 1]).s, e);
      before + if t.b.controls != [] || (before == [] && Flows(t)) then [e.now] else []
  }

  /** A change 2 s ago or more. */
  predicate Due(changes: seq<int>, now: int) {
    changes != [] && now - changes[|changes| - 1] >= RAISE_US
  }

  ghost predicate CountsFrom(s: State, changes: seq<int>) {
    && (if changes == [] then s.lastIncrease < 0 else s.lastIncrease == changes[|changes| - 1] >= 0)
    && (s.lastPli >= 0 ==> changes != [])
  }

  lemma {:induction false} OneOfTwo(cs: seq<Control>)
    ensures Rates(cs) + Plis(cs) == |cs|
  {
    if cs != [] { OneOfTwo(cs[..|cs| - 1]); }
  }

  lemma NegativeStep(s: State, e: Event)
    requires !e.Cleared? && e.now < 0
    ensures Step(s, e) == Turn(s, EMPTY_BATCH)
  {
    hide Drain, Accept, ParseChunk;
  }

  /** What one event does to the count. */
  lemma CountMoves(s: State, e: Event, changes: seq<int>)
    requires !e.Cleared? && CountsFrom(s, changes)
    ensures var t := Step(s, e);
            CountsFrom(t.s, changes + if t.b.controls != [] || (changes == [] && Flows(t)) then [e.now] else [])
  {
    hide Step, Raises;
    StepRises(s, e);
    if e.now < 0 { NegativeStep(s, e); }
    assert changes + [] == changes;
  }

  lemma {:induction false} CountOverRuns(es: seq<Event>)
    ensures CountsFrom(Run(es).s, Changes(es))
  {
    hide Step, CountsFrom, Flows;
    if es == [] {
      CountStarts(INITIAL);
    } else {
      CountOverRuns(es[..|es| - 1]);
      var l, e := Run(es[..|es| - 1]), es[|es| - 1];
      if e.Cleared? { ClearedCount(l.s); } else { CountMoves(l.s, e, Changes(es[..|es| - 1])); }
    }
  }

  lemma CountStarts(s: State)
    requires s.lastIncrease < 0 && s.lastPli < 0
    ensures CountsFrom(s, [])
  {
  }

  lemma ClearedCount(s: State)
    ensures CountsFrom(Step(s, Cleared).s, [])
  {
  }

  /** Over every run: an event raises the rate at most once, and only when it delivers
      something 2 s or more after the last change; and when it delivers, with no keyframe awaited in the end and no
      indication sent, after such a time, it does raise it. */
  lemma RaisesWhenDue(es: seq<Event>)
    requires es != [] && !es[|es| - 1].Cleared?
    ensures var changes, now := Changes(es[..|es| - 1]), es[|es| - 1].now;
            var t := Step(Run(es[..|es| - 1]).s, es[|es| - 1]);
            && 0 <= Raises(t.b.controls) <= 1
            && (Raises(t.b.controls) == 1 ==> Due(changes, now) && t.b.frames != [])
            && (Flows(t) && Due(changes, now) && Plis(t.b.controls) == 0 ==> Raises(t.b.controls) == 1)
  {
    hide Step;
    var s, e := Run(es[..|es| - 1]).s, es[|es| - 1];
    CountOverRuns(es[..|es| - 1]);
    StepRises(s, e);
    OneOfTwo(Step(s, e).b.controls);
  }
}
