/** From the sender's chunks to the delivered access unit: any arrival order and any duplicates give the same
    single delivery. */
module DcReassembly {
  import opened Wire
  import opened AnnexB
  import opened DcModel
  import opened DcInvariants
  import opened DcPacketizer

  /** One access unit in flight. */
  datatype Sending = Sending(seqNo: U16, timestamp: U32, stableFlags: nat, parts: seq<Bytes>)

  /** Chunk `index` reaches the receiver at time `now`. */
  datatype Arrival = Arrival(index: nat, now: int)

  ghost predicate SendingOk(u: Sending) {
    && 0 < |u.parts| < 0x100 && u.stableFlags < 4
    && (forall i :: 0 <= i < |u.parts| ==> 0 < |u.parts[i]| <= PAYLOAD_BYTES)
    && Size(u.parts) + PAYLOAD_BYTES <= MAX_PENDING_BYTES
  }

  function ChunkOf(u: Sending, i: nat): Chunk
    requires |u.parts| < 0x100 && i < |u.parts|
  {
    Chunk(u.stableFlags, i, |u.parts|, u.seqNo, u.timestamp, u.parts[i])
  }

  /** Packet `i` carries chunk `i` of the unit. */
  ghost predicate Carries(wire: seq<Bytes>, u: Sending) {
    && |wire| == |u.parts| < 0x100
    && forall i :: 0 <= i < |wire| ==> ParseChunk(wire[i]) == Some(ChunkOf(u, i))
  }

  datatype Fed = Fed(s: State, outs: seq<Output>)

  function Outs(fs: seq<Delivery>): (os: seq<Output>)
    ensures |os| == |fs| && forall i :: 0 <= i < |fs| ==> os[i] == fs[i].out
  {
    seq(|fs|, i requires 0 <= i < |fs| => fs[i].out)
  }

  /** The receiver processes the arrivals one after the other. */
  function Feed(s: State, wire: seq<Bytes>, arrivals: seq<Arrival>): Fed
    requires forall a :: a in arrivals ==> a.index < |wire|
  {
    if arrivals == [] then Fed(s, [])
    else
      var before := Feed(s, wire, arrivals[..|arrivals| - 1]);
      var a := arrivals[|arrivals| - 1];
      var t := Process(before.s, wire[a.index], a.now);
      Fed(t.s, before.outs + Outs(t.b.frames))
  }

  // ---------------------------------------------------------------- what has arrived so far

  predicate Seen(arrivals: seq<Arrival>, i: nat) {
    exists k :: 0 <= k < |arrivals| && arrivals[k].index == i
  }

  ghost predicate Covered(u: Sending, arrivals: seq<Arrival>) {
    forall i :: 0 <= i < |u.parts| ==> Seen(arrivals, i)
  }

  function Table(u: Sending, arrivals: seq<Arrival>): (t: seq<Bytes>)
    ensures |t| == |u.parts|
    ensures forall i :: 0 <= i < |t| ==> t[i] == if Seen(arrivals, i) then u.parts[i] else []
  {
    seq(|u.parts|, i requires 0 <= i < |u.parts| => if Seen(arrivals, i) then u.parts[i] else [])
  }

  function FrameSoFar(u: Sending, arrivals: seq<Arrival>): Frame
    requires arrivals != [] && |u.parts| < 0x100
  {
    var t := Table(u, arrivals);
    Frame(u.timestamp, |u.parts|, u.stableFlags, Filled(t), Size(t), arrivals[0].now, t)
  }

  function Partial(s: State, u: Sending, arrivals: seq<Arrival>): State
    requires |u.parts| < 0x100
  {
    if arrivals == [] then s
    else
      var f := FrameSoFar(u, arrivals);
      s.(pending := map[u.seqNo := f], bytes := f.bytes)
  }

  /** The buffer is empty and the unit is the one to come: a keyframe to start at, or the expected number. */
  ghost predicate Ready(s: State, u: Sending) {
    && s.pending == map[] && s.bytes == 0
    && (if s.initialized then s.expected == u.seqNo else u.stableFlags % 2 == 1)
  }

  /** How long an incomplete unit may take. */
  function Patience(s: State): nat {
    if s.initialized then SKIP_US else EXPIRE_US
  }

  ghost predicate InTime(s: State, u: Sending, arrivals: seq<Arrival>) {
    && (forall a :: a in arrivals ==> a.index < |u.parts|)
    && (forall k :: 0 <= k < |arrivals| ==> 0 <= arrivals[k].now < arrivals[0].now + Patience(s))
  }

  lemma SeenSnoc(arrivals: seq<Arrival>, a: Arrival, i: nat)
    ensures Seen(arrivals + [a], i) <==> Seen(arrivals, i) || a.index == i
  {
    var all := arrivals + [a];
    assert all[|arrivals|] == a;
    if Seen(arrivals, i) {
      var k :| 0 <= k < |arrivals| && arrivals[k].index == i;
      assert all[k] == arrivals[k];
    }
  }

  lemma TableSnoc(u: Sending, arrivals: seq<Arrival>, a: Arrival)
    requires a.index < |u.parts|
    ensures Table(u, arrivals + [a]) == Table(u, arrivals)[a.index := u.parts[a.index]]
  {
    hide Seen;
    forall i | 0 <= i < |u.parts|
      ensures Table(u, arrivals + [a])[i] == Table(u, arrivals)[a.index := u.parts[a.index]][i]
    {
      SeenSnoc(arrivals, a, i);
    }
  }

  lemma {:induction false} FilledCount(t: seq<Bytes>)
    ensures Filled(t) <= |t|
    ensures Filled(t) == |t| <==> forall i :: 0 <= i < |t| ==> t[i] != []
  {
    if t != [] {
      var init := t[..|t| - 1];
      FilledCount(init);
      assert forall i :: 0 <= i < |init| ==> init[i] == t[i];
    }
  }

  lemma {:induction false} SizeMonotone(t: seq<Bytes>, parts: seq<Bytes>)
    requires |t| == |parts| && forall i :: 0 <= i < |t| ==> t[i] == parts[i] || t[i] == []
    ensures Size(t) <= Size(parts)
  {
    if t != [] {
      var t0, p0 := t[..|t| - 1], parts[..|t| - 1];
      assert forall i :: 0 <= i < |t0| ==> t0[i] == t[i] && p0[i] == parts[i];
      SizeMonotone(t0, p0);
    }
  }

  lemma CompleteIffCovered(u: Sending, arrivals: seq<Arrival>)
    requires SendingOk(u) && arrivals != []
    ensures Complete(FrameSoFar(u, arrivals)) <==> Covered(u, arrivals)
    ensures Covered(u, arrivals) ==> Table(u, arrivals) == u.parts
  {
    hide Seen, Filled, Size;
    FilledCount(Table(u, arrivals));
    assert forall i :: 0 <= i < |u.parts| ==> (Table(u, arrivals)[i] != [] <==> Seen(arrivals, i));
  }

  // ---------------------------------------------------------------- draining while incomplete

  lemma {:induction false} ExpireNothing(t: Turn, n: nat, now: int)
    requires n <= 0x1_0000 && forall k :: k in t.s.pending ==> !Expired(t.s.pending[k], now)
    ensures ExpireBelow(t, n, now) == t
  {
    if n > 0 {
      ExpireNothing(t, n - 1, now);
    }
  }

  lemma {:induction false} TrimNothing(s: State, n: nat)
    requires n <= 0x1_0000 && forall k :: k in s.pending ==> SequenceDelta(k, s.expected) >= 0
    ensures TrimBelow(s, n) == s
  {
    hide SequenceDelta;
    if n > 0 {
      TrimNothing(s, n - 1);
    }
  }

  lemma DrainEmpty(s: State, now: int)
    requires s.pending == map[]
    ensures Drain(Turn(s, EMPTY_BATCH), now) == Turn(s, EMPTY_BATCH)
  {
    hide FirstBelow, ExpireBelow, TrimBelow;
    var t := Turn(s, EMPTY_BATCH);
    ExpireNothing(t, 0x1_0000, now);
    TrimNothing(s, 0x1_0000);
    FirstIsEarliest(s.pending, 0x1_0000);
  }

  /** `s` holds one frame, under the number the unit was sent with. */
  ghost predicate Holds(s: State, u: Sending, f: Frame) {
    && s.pending == map[u.seqNo := f]
    && (if s.initialized then s.expected == u.seqNo else f.stableFlags % 2 == 1)
  }

  lemma DrainWaits(s: State, u: Sending, f: Frame, now: int)
    requires Holds(s, u, f) && !Complete(f) && now - f.arrival < Patience(s)
    ensures Drain(Turn(s, EMPTY_BATCH), now) == Turn(s, EMPTY_BATCH)
  {
    hide FirstBelow, ExpireBelow, TrimBelow, SequenceDelta;
    var t := Turn(s, EMPTY_BATCH);
    ExpireNothing(t, 0x1_0000, now);
    FirstIsEarliest(s.pending, 0x1_0000);
    assert FirstBelow(s.pending, 0x1_0000).None?;
    if s.initialized {
      ZeroDelta(u.seqNo);
      TrimNothing(s, 0x1_0000);
    }
  }

  lemma ZeroDelta(k: U16)
    ensures SequenceDelta(k, k) == 0 && SequenceDelta(k, (k + 1) % 0x1_0000) == -1
  {
  }

  // ---------------------------------------------------------------- draining when complete

  function Started(s: State, u: Sending): State {
    if s.initialized then s
    else s.(expected := u.seqNo, initialized := true, period := s.period + 1, position := u.seqNo)
  }

  lemma DrainFinishes(s: State, u: Sending, f: Frame, now: int)
    requires Holds(s, u, f) && Complete(f) && now - f.arrival < Patience(s)
    ensures Started(s, u).expected in Started(s, u).pending
    ensures Drain(Turn(s, EMPTY_BATCH), now) == RaiseRate(Consume(Turn(Started(s, u), EMPTY_BATCH), now), now)
  {
    hide FirstBelow, ExpireBelow, TrimBelow, SequenceDelta, Consume, RaiseRate;
    var t := Turn(s, EMPTY_BATCH);
    ExpireNothing(t, 0x1_0000, now);
    FirstIsEarliest(s.pending, 0x1_0000);
    assert Candidate(s.pending, u.seqNo) || s.initialized;
    assert Initialize(s) == Started(s, u);
    var i := Turn(Started(s, u), EMPTY_BATCH);
    var c := Consume(i, now);
    assert c.s.pending == map[];
    AdvanceOnce(i, now);
    TrimNothing(c.s, 0x1_0000);
  }

  lemma AdvanceOnce(t: Turn, now: int)
    requires t.s.expected in t.s.pending && Complete(t.s.pending[t.s.expected])
    requires Consume(t, now).s.pending == map[]
    ensures Advance(t, now) == Consume(t, now)
  {
    hide Consume, Complete;
    ErasedIsSmaller(t.s.pending, t.s.expected);
  }

  /** What the whole unit assembles to. */
  function Whole(u: Sending, now: int): Frame
    requires |u.parts| < 0x100
  {
    Frame(u.timestamp, |u.parts|, u.stableFlags, Filled(u.parts), Size(u.parts), now, u.parts)
  }

  lemma AssembleDependsOn(s: State, r: State, f: Frame, g: Frame)
    requires s.sps == r.sps && s.pps == r.pps && s.waiting == r.waiting
    requires f.chunks == g.chunks && f.timestamp == g.timestamp && f.stableFlags == g.stableFlags
    ensures var a, b := Assemble(s, f), Assemble(r, g);
            a.out == b.out && a.s.sps == b.s.sps && a.s.pps == b.s.pps && a.s.waiting == b.s.waiting
  {
    hide Units, Concat, HasType, LastOf, AccessUnit, Print;
    var u := Units(Concat(f.chunks));
    assert u == Units(Concat(g.chunks));
  }

  /** The unit is over: nothing pending, and the next number is expected. */
  ghost predicate Finished(s: State, u: Sending) {
    s.pending == map[] && s.bytes == 0 && s.initialized && s.expected == (u.seqNo + 1) % 0x1_0000
  }

  /** After the unit the parameter sets are those of assembling it, and a keyframe is awaited unless it worked. */
  ghost predicate Outcome(before: State, u: Sending, after: State, outs: seq<Output>)
    requires |u.parts| < 0x100
  {
    var a := Assemble(before, Whole(u, 0));
    && after.sps == a.s.sps && after.pps == a.s.pps
    && after.waiting == (a.out.None? || a.s.waiting)
    && outs == if a.out.Some? then [a.out.value] else []
  }

  lemma FinishIs(s: State, u: Sending, f: Frame, now: int)
    requires Holds(s, u, f) && SendingOk(u) && f.chunks == u.parts && f.timestamp == u.timestamp
             && f.stableFlags == u.stableFlags
    requires s.bytes == f.bytes
    ensures Started(s, u).expected in Started(s, u).pending
    ensures var t := RaiseRate(Consume(Turn(Started(s, u), EMPTY_BATCH), now), now);
            Finished(t.s, u) && Outcome(s, u, t.s, Outs(t.b.frames))
  {
    hide Assemble, Recover, Size, Filled;
    var i := Started(s, u);
    var a := Assemble(i, f);
    AssembleKeeps(i, f);
    AssembleDependsOn(s, i, Whole(u, 0), f);
    RecoverOnly(Turn(a.s, EMPTY_BATCH), now);
  }

  /** Recovery touches neither the buffer nor the parameter sets nor the frames. */
  lemma RecoverOnly(t: Turn, now: int)
    ensures var r := Recover(t, now);
            && r.b.frames == t.b.frames && r.s.waiting && r.s.pending == t.s.pending && r.s.bytes == t.s.bytes
            && r.s.sps == t.s.sps && r.s.pps == t.s.pps && r.s.initialized == t.s.initialized
            && r.s.expected == t.s.expected
  {
  }

  // ---------------------------------------------------------------- one arrival

  lemma StoreFirst(s: State, u: Sending, a: Arrival)
    requires SendingOk(u) && Ready(s, u) && a.index < |u.parts|
    ensures Store(Turn(s, EMPTY_BATCH), ChunkOf(u, a.index), a.now) == Turn(Partial(s, u, [a]), EMPTY_BATCH)
  {
    hide Filled, Size;
    var c := ChunkOf(u, a.index);
    var f := FreshFrame(c, a.now);
    EmptyChunks(|u.parts|);
    TableSnoc(u, [], a);
    assert [] + [a] == [a];
    assert Table(u, []) == f.chunks;
    FillChunk(f.chunks, a.index, c.payload);
    assert AddChunk(f, c) == FrameSoFar(u, [a]);
    assert s.pending[u.seqNo := f][u.seqNo := AddChunk(f, c)] == map[u.seqNo := AddChunk(f, c)];
  }

  lemma StoreNext(s: State, u: Sending, arrivals: seq<Arrival>, a: Arrival)
    requires SendingOk(u) && Ready(s, u) && a.index < |u.parts| && arrivals != []
    ensures Store(Turn(Partial(s, u, arrivals), EMPTY_BATCH), ChunkOf(u, a.index), a.now)
            == Turn(Partial(s, u, arrivals + [a]), EMPTY_BATCH)
  {
    hide Filled, Size, Seen;
    var c := ChunkOf(u, a.index);
    var f, g := FrameSoFar(u, arrivals), FrameSoFar(u, arrivals + [a]);
    TableSnoc(u, arrivals, a);
    assert (arrivals + [a])[0] == arrivals[0];
    if f.chunks[a.index] == [] {
      FillChunk(f.chunks, a.index, c.payload);
      assert AddChunk(f, c) == g;
    } else {
      assert g.chunks == f.chunks;
    }
    assert map[u.seqNo := f][u.seqNo := f] == map[u.seqNo := f];
    assert map[u.seqNo := f][u.seqNo := g] == map[u.seqNo := g];
  }

  lemma PartialFits(s: State, u: Sending, arrivals: seq<Arrival>)
    requires SendingOk(u) && Ready(s, u)
    ensures Partial(s, u, arrivals).bytes <= Size(u.parts) && |Partial(s, u, arrivals).pending| <= 1
    ensures arrivals != [] ==> Holds(Partial(s, u, arrivals), u, FrameSoFar(u, arrivals))
  {
    hide Filled, Size, Seen;
    SizeMonotone(Table(u, arrivals), u.parts);
    NoSize();
  }

  lemma NoSize()
    ensures forall parts: seq<Bytes> :: Size(parts) >= 0
  {
  }

  /** While chunks are missing an arrival is stored, and the drains around it change nothing. */
  lemma ArrivalStored(s: State, u: Sending, arrivals: seq<Arrival>, a: Arrival)
    requires SendingOk(u) && Ready(s, u) && InTime(s, u, arrivals + [a])
    requires !Covered(u, arrivals)
    ensures var t := Turn(Partial(s, u, arrivals), EMPTY_BATCH);
            Accept(Drain(t, a.now), ChunkOf(u, a.index), a.now)
              == Drain(Turn(Partial(s, u, arrivals + [a]), EMPTY_BATCH), a.now)
  {
    hide Drain, Store, Covered, Size, Complete, SequenceDelta, FrameSoFar;
    var t := Turn(Partial(s, u, arrivals), EMPTY_BATCH);
    var all := arrivals + [a];
    assert all[|arrivals|] == a && a in all;
    PartialFits(s, u, arrivals);
    ZeroDelta(u.seqNo);
    if arrivals == [] {
      DrainEmpty(s, a.now);
      StoreFirst(s, u, a);
      assert all == [a];
    } else {
      assert all[0] == arrivals[0];
      CompleteIffCovered(u, arrivals);
      ArrivalTime(u, arrivals);
      DrainWaits(t.s, u, FrameSoFar(u, arrivals), a.now);
      StoreNext(s, u, arrivals, a);
    }
  }

  lemma ArrivalTime(u: Sending, arrivals: seq<Arrival>)
    requires arrivals != [] && |u.parts| < 0x100
    ensures FrameSoFar(u, arrivals).arrival == arrivals[0].now
    ensures FrameSoFar(u, arrivals).stableFlags == u.stableFlags && FrameSoFar(u, arrivals).timestamp == u.timestamp
    ensures FrameSoFar(u, arrivals).chunks == Table(u, arrivals)
            && FrameSoFar(u, arrivals).bytes == Size(Table(u, arrivals))
  {
  }

  /** The drain behind an arrival: it waits, or it finishes the unit. */
  lemma DrainBehind(s: State, u: Sending, arrivals: seq<Arrival>, now: int)
    requires SendingOk(u) && Ready(s, u) && arrivals != [] && now - arrivals[0].now < Patience(s)
    ensures var t := Drain(Turn(Partial(s, u, arrivals), EMPTY_BATCH), now);
            if Covered(u, arrivals) then Finished(t.s, u) && Outcome(s, u, t.s, Outs(t.b.frames))
            else t == Turn(Partial(s, u, arrivals), EMPTY_BATCH)
  {
    hide Drain, Covered, Complete, FrameSoFar, Outcome, Consume, RaiseRate, Size;
    var p, f := Partial(s, u, arrivals), FrameSoFar(u, arrivals);
    PartialFits(s, u, arrivals);
    CompleteIffCovered(u, arrivals);
    ArrivalTime(u, arrivals);
    if Covered(u, arrivals) {
      DrainFinishes(p, u, f, now);
      FinishIs(p, u, f, now);
      OutcomeDependsOn(p, s, u, Drain(Turn(p, EMPTY_BATCH), now));
    } else {
      DrainWaits(p, u, f, now);
    }
  }

  lemma OutcomeDependsOn(p: State, s: State, u: Sending, t: Turn)
    requires |u.parts| < 0x100 && p.sps == s.sps && p.pps == s.pps && p.waiting == s.waiting
    requires Outcome(p, u, t.s, Outs(t.b.frames))
    ensures Outcome(s, u, t.s, Outs(t.b.frames))
  {
    hide Assemble;
    AssembleDependsOn(p, s, Whole(u, 0), Whole(u, 0));
  }

  /** Chunks of a unit that is over are stale. */
  lemma DuplicateIgnored(s: State, u: Sending, p: Bytes, i: nat, now: int)
    requires Finished(s, u) && |u.parts| < 0x100 && i < |u.parts| && ParseChunk(p) == Some(ChunkOf(u, i))
    ensures Process(s, p, now) == Turn(s, EMPTY_BATCH)
  {
    hide Drain, SequenceDelta, ParseChunk;
    DrainEmpty(s, now);
    ZeroDelta(u.seqNo);
  }

  // ---------------------------------------------------------------- the theorem for one unit

  /** Chunks in any order with any duplicates, in time: nothing is delivered before the unit is complete, and
      then exactly what assembling the whole unit gives, once. */
  lemma {:induction false} AnyOrderReassembles(s: State, u: Sending, wire: seq<Bytes>, arrivals: seq<Arrival>)
    requires SendingOk(u) && Carries(wire, u) && Ready(s, u) && InTime(s, u, arrivals)
    ensures var r := Feed(s, wire, arrivals);
            if Covered(u, arrivals) then Finished(r.s, u) && Outcome(s, u, r.s, r.outs)
            else r.s == Partial(s, u, arrivals) && r.outs == []
    decreases |arrivals|
  {
    hide Process, Covered, Outcome, ChunkOf, ParseChunk;
    if arrivals == [] {
      NothingCovered(u);
    } else {
      var earlier, a := arrivals[..|arrivals| - 1], arrivals[|arrivals| - 1];
      assert arrivals == earlier + [a];
      assert a in arrivals;
      EarlierInTime(s, u, earlier, a);
      AnyOrderReassembles(s, u, wire, earlier);
      var before := Feed(s, wire, earlier);
      if Covered(u, earlier) {
        CoveredSnoc(u, earlier, a);
        DuplicateIgnored(before.s, u, wire[a.index], a.index, a.now);
        assert before.outs + Outs([]) == before.outs;
      } else {
        ArrivalStored(s, u, earlier, a);
        ProcessIs(before.s, wire[a.index], ChunkOf(u, a.index), a.now);
        DrainBehind(s, u, arrivals, a.now);
        OutsAfterNothing(Process(before.s, wire[a.index], a.now).b.frames);
      }
    }
  }

  lemma ProcessIs(s: State, p: Bytes, c: Chunk, now: int)
    requires ParseChunk(p) == Some(c) && now >= 0
    ensures Process(s, p, now) == Accept(Drain(Turn(s, EMPTY_BATCH), now), c, now)
  {
    hide ParseChunk, Drain, Accept;
  }

  lemma OutsAfterNothing(fs: seq<Delivery>)
    ensures [] + Outs(fs) == Outs(fs)
    ensures Outs([]) == []
  {
  }

  lemma NothingCovered(u: Sending)
    requires SendingOk(u)
    ensures !Covered(u, [])
  {
    assert !Seen([], 0);
  }

  lemma EarlierInTime(s: State, u: Sending, earlier: seq<Arrival>, a: Arrival)
    requires InTime(s, u, earlier + [a])
    ensures InTime(s, u, earlier) && a.index < |u.parts| && a.now >= 0
  {
    var all := earlier + [a];
    assert all[|earlier|] == a && a in all;
    forall b | b in earlier ensures b.index < |u.parts| { assert b in all; }
    forall k | 0 <= k < |earlier| ensures 0 <= earlier[k].now < earlier[0].now + Patience(s) {
      assert all[k] == earlier[k] && all[0] == earlier[0];
    }
  }

  lemma CoveredSnoc(u: Sending, earlier: seq<Arrival>, a: Arrival)
    requires Covered(u, earlier)
    ensures Covered(u, earlier + [a])
  {
    hide Seen;
    forall i | 0 <= i < |u.parts| ensures Seen(earlier + [a], i) {
      SeenSnoc(earlier, a, i);
    }
  }
}
