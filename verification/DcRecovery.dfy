/** Delivery after a loss: from any state, a complete keyframe behind lost or unfinished frames
    comes out as soon as what lies before it has been waited for. */
module DcRecovery {
  import opened Wire
  import opened AnnexB
  import opened DcModel
  import opened DcInvariants
  import opened DcEndToEnd
  import opened DcReassembly
  import opened DcPacketizer

  /** The frames that have not expired. */
  ghost function Alive(m: Pending, now: int): Pending {
    map k | k in m && !Expired(m[k], now) :: m[k]
  }

  function Before(k: U16): U16 {
    (k - 1) % 0x1_0000
  }

  function After(k: U16): U16 {
    (k + 1) % 0x1_0000
  }

  predicate Waited(f: Frame, now: int) {
    now - f.arrival >= SKIP_US
  }

  /** The loop will not stop at frame `j`: it has been waited for, or it is complete and comes right behind the expected
      number or another frame. */
  ghost predicate Passable(m: Pending, e: U16, j: U16, now: int)
    requires j in m
  {
    Waited(m[j], now) || (Complete(m[j]) && (j == e || Before(j) in m))
  }

  /** The way from the expected number `e` to frame `k` is free. */
  ghost predicate Way(m: Pending, e: U16, k: U16, now: int) {
    && k in m && Complete(m[k]) && SequenceDelta(k, e) >= 0
    && forall j :: j in m && 0 <= SequenceDelta(j, e) <= SequenceDelta(k, e) ==> Passable(m, e, j, now)
  }

  /** A distance is determined by the numbers. */
  lemma DeltaUnique(a: U16, b: U16, d: int)
    requires -0x8000 <= d < 0x8000 && (b + d) % 0x1_0000 == a
    ensures SequenceDelta(a, b) == d
  {
  }

  lemma Carried(e: int, x: int, d: int)
    ensures ((e + x) % 0x1_0000 + d) % 0x1_0000 == (e + x + d) % 0x1_0000
  {
  }

  lemma DeltaStep(j: U16, e: U16)
    requires SequenceDelta(j, After(e)) >= 0 && SequenceDelta(j, After(e)) < 0x7fff
    ensures SequenceDelta(j, e) == SequenceDelta(j, After(e)) + 1
  {
    hide SequenceDelta;
    var d := SequenceDelta(j, After(e));
    Carried(e, 1, d);
    DeltaUnique(j, e, d + 1);
  }

  lemma DeltaStepBack(j: U16, e: U16)
    requires SequenceDelta(j, e) > 0
    ensures SequenceDelta(j, After(e)) == SequenceDelta(j, e) - 1
  {
    hide SequenceDelta;
    var d := SequenceDelta(j, e);
    Carried(e, 1, d - 1);
    DeltaUnique(j, After(e), d - 1);
  }

  lemma DeltaVia(j: U16, n: U16, e: U16)
    requires SequenceDelta(n, e) >= 0 && SequenceDelta(j, n) >= 0 && SequenceDelta(n, e) + SequenceDelta(j, n) < 0x8000
    ensures SequenceDelta(j, e) == SequenceDelta(n, e) + SequenceDelta(j, n)
  {
    hide SequenceDelta;
    var x, y := SequenceDelta(n, e), SequenceDelta(j, n);
    Carried(e, x, y);
    DeltaUnique(j, e, x + y);
  }

  lemma DeltaFrom(j: U16, n: U16, e: U16)
    requires 0 <= SequenceDelta(n, e) <= SequenceDelta(j, e)
    ensures SequenceDelta(j, n) == SequenceDelta(j, e) - SequenceDelta(n, e)
  {
    hide SequenceDelta;
    var x, y := SequenceDelta(n, e), SequenceDelta(j, e);
    Carried(e, x, y - x);
    DeltaUnique(j, n, y - x);
  }

  lemma DeltaBefore(j: U16, e: U16)
    requires SequenceDelta(j, e) > 0
    ensures SequenceDelta(Before(j), e) == SequenceDelta(j, e) - 1
  {
    hide SequenceDelta;
    var d := SequenceDelta(j, e);
    Carried(e, d, -1);
    DeltaUnique(Before(j), e, d - 1);
  }

  lemma DeltaZero(j: U16, e: U16)
    ensures SequenceDelta(j, e) == 0 <==> j == e
  {
  }

  lemma AfterBefore(j: U16, e: U16)
    ensures Before(j) == e <==> j == After(e)
  {
  }

  /** The expected frame gone, the way goes on from the next number. */
  lemma WayAfter(m: Pending, e: U16, k: U16, now: int)
    requires Way(m, e, k, now) && e != k
    ensures Way(m - {e}, After(e), k, now)
  {
    hide SequenceDelta, Complete, Waited, After, Before;
    DeltaZero(k, e);
    DeltaStepBack(k, e);
    var m', e' := m - {e}, After(e);
    forall j | j in m' && 0 <= SequenceDelta(j, e') <= SequenceDelta(k, e') ensures Passable(m', e', j, now) {
      DeltaStep(j, e);
      AfterBefore(j, e);
      DeltaZero(j, e);
      assert Passable(m, e, j, now);
    }
  }

  /** From the nearest frame on the way is free. */
  lemma WayJump(m: Pending, e: U16, n: U16, k: U16, now: int)
    requires Way(m, e, k, now) && n in m && 0 <= SequenceDelta(n, e) <= SequenceDelta(k, e) && e !in m
    ensures Way(m, n, k, now)
  {
    hide SequenceDelta, Complete, Waited, Before;
    DeltaFrom(k, n, e);
    forall j | j in m && 0 <= SequenceDelta(j, n) <= SequenceDelta(k, n) ensures Passable(m, n, j, now) {
      DeltaVia(j, n, e);
      assert Passable(m, e, j, now);
    }
  }

  /** The nearest frame on the way, when the expected one is missing, has been waited for. */
  lemma NearestWaited(s: State, k: U16, now: int)
    requires Way(s.pending, s.expected, k, now) && s.expected !in s.pending
    ensures Nearest(s).Some?
    ensures var n := Nearest(s).value;
            Waited(s.pending[n], now) && 0 <= SequenceDelta(n, s.expected) <= SequenceDelta(k, s.expected)
  {
    hide SequenceDelta, Complete, Waited, Before, NearestBelow;
    NearestBelowIs(s.pending, s.expected, 0x1_0000);
    var n := Nearest(s).value;
    assert !Closer(k, n, s.expected);
    DeltaZero(n, s.expected);
    DeltaBefore(n, s.expected);
    assert Passable(s.pending, s.expected, n, now);
    assert Before(n) in s.pending ==> !Closer(Before(n), n, s.expected);
  }

  // ---------------------------------------------------------------- the loop reaches the keyframe

  ghost predicate Extends(a: seq<Delivery>, b: seq<Delivery>) {
    |a| <= |b| && b[..|a|] == a
  }

  /** The turn `u` is one the loop comes to on its way from `t`, and frame `k` is the next it consumes. */
  ghost predicate Reaches(t: Turn, u: Turn, k: U16, now: int) {
    && Advance(t, now) == Advance(u, now)
    && u.s.expected == k && k in u.s.pending && k in t.s.pending && u.s.pending[k] == t.s.pending[k]
    && u.s.initialized == t.s.initialized
  }

  lemma LoopKeeps(t: Turn, k: U16, now: int)
    ensures t.s.expected in t.s.pending ==>
              && Consume(t, now).s.expected == Abandon(t, now).s.expected == After(t.s.expected)
              && Consume(t, now).s.initialized == Abandon(t, now).s.initialized == t.s.initialized
    ensures SequenceDelta(k, t.s.expected) >= 0 ==> Jump(t, k, now).s.initialized == t.s.initialized
  {
    hide Assemble, SequenceDelta;
    if t.s.expected in t.s.pending { AssembleKeeps(t.s, t.s.pending[t.s.expected]); }
  }

  lemma {:induction false} LoopReaches(t: Turn, k: U16, now: int) returns (u: Turn)
    requires Way(t.s.pending, t.s.expected, k, now)
    ensures Reaches(t, u, k, now)
    decreases |t.s.pending|, if t.s.expected in t.s.pending then 0 else 1
  {
    hide Consume, Abandon, Jump, Nearest, Complete, SequenceDelta, Way, After;
    var s := t.s;
    WayHas(s.pending, s.expected, k, now);
    if s.expected == k {
      u := t;
    } else if s.expected in s.pending {
      ErasedIsSmaller(s.pending, s.expected);
      WayAfter(s.pending, s.expected, k, now);
      LoopKeeps(t, k, now);
      if Complete(s.pending[s.expected]) {
        u := LoopReaches(Consume(t, now), k, now);
      } else {
        IncompleteWaited(s, k, now);
        u := LoopReaches(Abandon(t, now), k, now);
      }
    } else {
      NearestWaited(s, k, now);
      var n := Nearest(s).value;
      WayJump(s.pending, s.expected, n, k, now);
      LoopKeeps(t, n, now);
      u := LoopReaches(Jump(t, n, now), k, now);
    }
  }

  lemma WayHas(m: Pending, e: U16, k: U16, now: int)
    requires Way(m, e, k, now)
    ensures k in m && Complete(m[k]) && m != map[]
  {
  }

  lemma IncompleteWaited(s: State, k: U16, now: int)
    requires Way(s.pending, s.expected, k, now) && s.expected in s.pending && !Complete(s.pending[s.expected])
    ensures now - s.pending[s.expected].arrival >= SKIP_US
  {
    hide SequenceDelta;
    DeltaZero(s.expected, s.expected);
    assert Passable(s.pending, s.expected, s.expected, now);
  }

  // ---------------------------------------------------------------- what comes out stays out

  lemma Appended(a: seq<Delivery>, b: seq<Delivery>, c: seq<Delivery>)
    requires Extends(a, b) && Extends(b, c)
    ensures Extends(a, c)
  {
    assert c[..|a|] == c[..|b|][..|a|];
  }

  lemma StepExtends(t: Turn, k: U16, now: int)
    ensures t.s.expected in t.s.pending ==>
              Extends(t.b.frames, Consume(t, now).b.frames) && Extends(t.b.frames, Abandon(t, now).b.frames)
    ensures SequenceDelta(k, t.s.expected) >= 0 ==> Extends(t.b.frames, Jump(t, k, now).b.frames)
  {
    hide Assemble, SequenceDelta;
  }

  lemma {:induction false} LoopExtends(t: Turn, now: int)
    ensures Extends(t.b.frames, Advance(t, now).b.frames)
    decreases |t.s.pending|, if t.s.expected in t.s.pending then 0 else 1
  {
    hide Consume, Abandon, Jump, Nearest, Complete, SequenceDelta, Extends;
    var s := t.s;
    SameExtends(t.b.frames);
    if s.pending == map[] {
    } else if s.expected in s.pending {
      ErasedIsSmaller(s.pending, s.expected);
      StepExtends(t, s.expected, now);
      if Complete(s.pending[s.expected]) {
        LoopExtends(Consume(t, now), now);
        Appended(t.b.frames, Consume(t, now).b.frames, Advance(t, now).b.frames);
      } else if now - s.pending[s.expected].arrival >= SKIP_US {
        LoopExtends(Abandon(t, now), now);
        Appended(t.b.frames, Abandon(t, now).b.frames, Advance(t, now).b.frames);
      }
    } else if Nearest(s).Some? {
      var n := Nearest(s).value;
      StepExtends(t, n, now);
      if now - s.pending[n].arrival >= SKIP_US {
        LoopExtends(Jump(t, n, now), now);
        Appended(t.b.frames, Jump(t, n, now).b.frames, Advance(t, now).b.frames);
      }
    }
  }

  lemma SameExtends(a: seq<Delivery>)
    ensures Extends(a, a)
  {
  }

  // ---------------------------------------------------------------- the keyframe

  /** The frame holds unit `a`, which is a keyframe that brings its own parameter sets. */
  ghost predicate HoldsKeyframe(f: Frame, a: Au) {
    && AuOk(NO_SETS, a) && Idr(a)
    && f.chunks == SendingOf(a, 0).parts && f.timestamp == a.timestampUs % 0x1_0000_0000
    && f.stableFlags == if a.key then 1 else 0
  }

  /** Such a unit needs nothing of what the receiver knows. */
  lemma SelfContained(known: Sets, a: Au)
    requires AuOk(NO_SETS, a) && Idr(a)
    ensures AuOk(known, a) && OutputOf(known, a) == OutputOf(NO_SETS, a)
  {
    hide Split, HasType, LastOf, AccessUnit, Print;
  }

  lemma KeyframeAssembles(s: State, f: Frame, a: Au)
    requires HoldsKeyframe(f, a)
    ensures Split(a.data).Some?
    ensures Assemble(s, f).out == Some(OutputOf(NO_SETS, a)) && !Assemble(s, f).s.waiting
  {
    hide Split, HasType, Assemble, OutputOf, AuOk, Whole;
    AuSplits(a);
    SelfContained(KnownTo(s), a);
    AssembleWhole(s, a, 0);
    WholeIs(a);
    AssembleDependsOn(s, s, f, Whole(SendingOf(a, 0), 0));
  }

  lemma AuSplits(a: Au)
    requires AuOk(NO_SETS, a)
    ensures Split(a.data).Some? && 0 < |a.data| <= MAX_AU_BYTES
    ensures |SendingOf(a, 0).parts| < 0x100
  {
    hide Split, HasType;
    CountBound(a.data);
  }

  lemma WholeIs(a: Au)
    requires 0 < |a.data| <= MAX_AU_BYTES && |SendingOf(a, 0).parts| < 0x100
    ensures var w := Whole(SendingOf(a, 0), 0);
            && w.chunks == SendingOf(a, 0).parts && w.timestamp == a.timestampUs % 0x1_0000_0000
            && w.stableFlags == if a.key then 1 else 0
  {
    hide Size, Filled;
  }

  /** A delivery of frame `k` with output `o`. */
  ghost predicate Delivers(fs: seq<Delivery>, k: U16, o: Output) {
    exists i :: 0 <= i < |fs| && fs[i].seqNo == k && fs[i].out == o
  }

  lemma DeliversMore(a: seq<Delivery>, b: seq<Delivery>, k: U16, o: Output)
    requires Delivers(a, k, o) && Extends(a, b)
    ensures Delivers(b, k, o)
  {
    var i :| 0 <= i < |a| && a[i].seqNo == k && a[i].out == o;
    assert b[i] == b[..|a|][i];
  }

  /** Consuming the keyframe delivers it, and no keyframe is awaited any more. */
  lemma KeyframeConsumed(u: Turn, a: Au, now: int)
    requires u.s.expected in u.s.pending && HoldsKeyframe(u.s.pending[u.s.expected], a)
    ensures Split(a.data).Some? && Delivers(Consume(u, now).b.frames, u.s.expected, OutputOf(NO_SETS, a))
    ensures !Consume(u, now).s.waiting
  {
    hide Assemble, HoldsKeyframe, OutputOf, Split;
    var f := u.s.pending[u.s.expected];
    KeyframeAssembles(u.s, f, a);
    var fs := Consume(u, now).b.frames;
    assert fs[|fs| - 1].out == OutputOf(NO_SETS, a) && fs[|fs| - 1].seqNo == u.s.expected;
  }

  lemma LoopDelivers(t: Turn, k: U16, a: Au, now: int) returns (u: Turn)
    requires Way(t.s.pending, t.s.expected, k, now) && HoldsKeyframe(t.s.pending[k], a)
    ensures Split(a.data).Some? && Delivers(Advance(t, now).b.frames, k, OutputOf(NO_SETS, a))
    ensures Reaches(t, u, k, now) && !Consume(u, now).s.waiting
  {
    hide HoldsKeyframe, Way, OutputOf, Split, Consume, Advance, Delivers, Extends;
    u := LoopReaches(t, k, now);
    KeyframeConsumed(u, a, now);
    WayHas(t.s.pending, t.s.expected, k, now);
    AdvanceConsumes(u, now, t.s.pending[k]);
    LoopExtends(Consume(u, now), now);
    DeliversMore(Consume(u, now).b.frames, Advance(t, now).b.frames, k, OutputOf(NO_SETS, a));
  }

  lemma AdvanceConsumes(u: Turn, now: int, f: Frame)
    requires u.s.expected in u.s.pending && u.s.pending[u.s.expected] == f && Complete(f)
    ensures Advance(u, now) == Advance(Consume(u, now), now)
  {
    hide Consume, Complete;
    ErasedIsSmaller(u.s.pending, u.s.expected);
  }

  // ---------------------------------------------------------------- nothing less is enough

  /** Frame `j` lies before `k` or is it, and the loop will stop there. */
  ghost predicate Blocks(m: Pending, e: U16, j: U16, k: U16, now: int) {
    j in m && k in m && 0 <= SequenceDelta(j, e) <= SequenceDelta(k, e) && !Passable(m, e, j, now)
  }

  lemma BlocksAfter(m: Pending, e: U16, j: U16, k: U16, now: int)
    requires Blocks(m, e, j, k, now) && e in m && (Complete(m[e]) || Waited(m[e], now))
    ensures Blocks(m - {e}, After(e), j, k, now)
  {
    hide SequenceDelta, Complete, Waited, After, Before;
    DeltaZero(j, e);
    DeltaStepBack(j, e);
    DeltaStepBack(k, e);
    AfterBefore(j, e);
  }

  lemma BlocksJump(m: Pending, e: U16, n: U16, j: U16, k: U16, now: int)
    requires Blocks(m, e, j, k, now) && n in m && 0 <= SequenceDelta(n, e) && !Closer(j, n, e) && Waited(m[n], now)
    ensures Blocks(m, n, j, k, now)
  {
    hide SequenceDelta, Complete, Waited, Before;
    DeltaFrom(j, n, e);
    DeltaFrom(k, n, e);
  }

  /** Before a frame the loop stops at, nothing behind it is taken. */
  lemma {:induction false} LoopStops(t: Turn, j: U16, k: U16, now: int)
    requires Blocks(t.s.pending, t.s.expected, j, k, now)
    ensures k in Advance(t, now).s.pending
    decreases |t.s.pending|, if t.s.expected in t.s.pending then 0 else 1
  {
    hide Consume, Abandon, Jump, Nearest, Complete, SequenceDelta, Passable, After;
    var s := t.s;
    LoopKeeps(t, s.expected, now);
    if s.expected in s.pending {
      ErasedIsSmaller(s.pending, s.expected);
      if Complete(s.pending[s.expected]) {
        BlocksAfter(s.pending, s.expected, j, k, now);
        LoopStops(Consume(t, now), j, k, now);
      } else if Waited(s.pending[s.expected], now) {
        BlocksAfter(s.pending, s.expected, j, k, now);
        LoopStops(Abandon(t, now), j, k, now);
      }
    } else if Nearest(s).Some? {
      var n := Nearest(s).value;
      if Waited(s.pending[n], now) {
        NearestBlocks(s, n, j);
        BlocksJump(s.pending, s.expected, n, j, k, now);
        LoopStops(Jump(t, n, now), j, k, now);
      }
    }
  }

  lemma NearestBlocks(s: State, n: U16, j: U16)
    requires Nearest(s) == Some(n) && j in s.pending
    ensures !Closer(j, n, s.expected)
  {
    hide SequenceDelta, NearestBelow, Closer;
    NearestBelowIs(s.pending, s.expected, 0x1_0000);
  }

  /** The loop takes a complete frame if and only if the way to it is free. */
  lemma TakenExactly(t: Turn, k: U16, now: int)
    requires t.s.initialized && k in t.s.pending && Complete(t.s.pending[k]) && SequenceDelta(k, t.s.expected) >= 0
    ensures k !in Advance(t, now).s.pending <==> Way(t.s.pending, t.s.expected, k, now)
  {
    hide SequenceDelta, Complete, Passable, Consume, Advance;
    if Way(t.s.pending, t.s.expected, k, now) {
      var u := LoopReaches(t, k, now);
      AdvanceConsumes(u, now, t.s.pending[k]);
      LoopKeeps(u, k, now);
      AdvanceLeaves(Consume(u, now), now);
    } else {
      var j :| j in t.s.pending && 0 <= SequenceDelta(j, t.s.expected) <= SequenceDelta(k, t.s.expected)
               && !Passable(t.s.pending, t.s.expected, j, now);
      LoopStops(t, j, k, now);
    }
  }

  // ---------------------------------------------------------------- the whole drain

  lemma {:induction false} ExpireLeavesAlive(t: Turn, n: nat, now: int)
    requires n <= 0x1_0000
    ensures var e := ExpireBelow(t, n, now);
            && e.b.frames == t.b.frames && e.s.expected == t.s.expected && e.s.initialized == t.s.initialized
            && forall k :: k in e.s.pending <==> k in t.s.pending && !(k < n && Expired(t.s.pending[k], now))
    ensures forall k :: k in ExpireBelow(t, n, now).s.pending ==> ExpireBelow(t, n, now).s.pending[k] == t.s.pending[k]
  {
    hide Expired;
    if n > 0 { ExpireLeavesAlive(t, n - 1, now); }
  }

  lemma ExpireIs(t: Turn, now: int)
    ensures var e := Expire(t, now);
            && e.b.frames == t.b.frames && e.s.expected == t.s.expected && e.s.initialized == t.s.initialized
            && e.s.pending == Alive(t.s.pending, now)
  {
    hide Expired, ExpireBelow;
    ExpireLeavesAlive(t, 0x1_0000, now);
  }

  /** The frame the loop starts at, once what has expired is gone. */
  ghost predicate StartsAt(s: State, m: Pending, e: U16) {
    if s.initialized then e == s.expected
    else Candidate(m, e) && forall j: U16 :: Candidate(m, j) ==> Earlier(m, e, j)
  }

  lemma EarliestIs(m: Pending, e: U16)
    requires Candidate(m, e) && forall j: U16 :: Candidate(m, j) ==> Earlier(m, e, j)
    ensures FirstBelow(m, 0x1_0000) == Some(e)
  {
    hide FirstBelow;
    FirstIsEarliest(m, 0x1_0000);
  }

  /** Recovery: whatever was lost before, if the way to a complete keyframe is free among the
      frames not expired, the next drain delivers it, and right after it no keyframe is awaited. */
  lemma KeyframeRecovers(s: State, e: U16, k: U16, a: Au, now: int) returns (u: Turn)
    requires StartsAt(s, Alive(s.pending, now), e) && Way(Alive(s.pending, now), e, k, now)
    requires HoldsKeyframe(Alive(s.pending, now)[k], a)
    ensures Split(a.data).Some? && Delivers(Drain(Turn(s, EMPTY_BATCH), now).b.frames, k, OutputOf(NO_SETS, a))
    ensures var x := Expire(Turn(s, EMPTY_BATCH), now);
            Reaches(x.(s := Initialize(x.s)), u, k, now) && u.s.pending[k] == Alive(s.pending, now)[k]
    ensures !Consume(u, now).s.waiting
  {
    hide HoldsKeyframe, Way, OutputOf, Split, Consume, Advance, Delivers, Expire, Alive, TrimBelow, FirstBelow,
      RaiseRate,
      Candidate;
    var t := Turn(s, EMPTY_BATCH);
    ExpireIs(t, now);
    var x := Expire(t, now);
    if !s.initialized { EarliestIs(x.s.pending, e); }
    var i := x.(s := Initialize(x.s));
    assert i.s.pending == x.s.pending && i.s.expected == e && i.s.initialized;
    u := LoopDelivers(i, k, a, now);
    var d := Advance(i, now);
    RaiseFrames(d.(s := TrimBelow(d.s, 0x1_0000)), now);
  }

  lemma RaiseFrames(t: Turn, now: int)
    ensures RaiseRate(t, now).b.frames == t.b.frames
  {
  }

  /** In particular the next tick of the timer delivers it. */
  lemma TickRecovers(s: State, e: U16, k: U16, a: Au, now: int)
    requires now >= 0
    requires StartsAt(s, Alive(s.pending, now), e) && Way(Alive(s.pending, now), e, k, now)
    requires HoldsKeyframe(Alive(s.pending, now)[k], a)
    ensures Split(a.data).Some? && Delivers(Tick(s, now).b.frames, k, OutputOf(NO_SETS, a))
  {
    hide HoldsKeyframe, Way, OutputOf, Split, Drain, Delivers, Alive;
    var u := KeyframeRecovers(s, e, k, a, now);
    RecoverOnly(Drain(Turn(s, EMPTY_BATCH), now), now);
  }

  /** Ten milliseconds are enough: once every frame still alive up to the keyframe has been
      waited for, the way is free. */
  lemma WaitedIsFree(m: Pending, e: U16, k: U16, now: int)
    requires k in m && Complete(m[k]) && SequenceDelta(k, e) >= 0
    requires forall j :: j in m && 0 <= SequenceDelta(j, e) <= SequenceDelta(k, e) ==> Waited(m[j], now)
    ensures Way(m, e, k, now)
  {
    hide SequenceDelta, Complete, Waited;
  }
}
