/** What every packet and timer tick keeps: memory bounds, exact accounting, and freshness of what is pending. */
module DcInvariants {
  import opened Wire
  import opened AnnexB
  import opened DcModel

  function Filled(chunks: seq<Bytes>): nat {
    if chunks == [] then 0 else Filled(chunks[..|chunks| - 1]) + (if chunks[|chunks| - 1] == [] then 0 else 1)
  }

  function Size(chunks: seq<Bytes>): nat {
    if chunks == [] then 0 else Size(chunks[..|chunks| - 1]) + |chunks[|chunks| - 1]|
  }

  ghost predicate FrameOk(f: Frame) {
    0 < f.count && f.stableFlags < 4 && f.received == Filled(f.chunks) && f.bytes == Size(f.chunks)
  }

  ghost predicate FramesOk(m: Pending) {
    forall k :: k in m ==> FrameOk(m[k])
  }

  ghost predicate RateOk(s: State) {
    MIN_BITRATE <= s.bitrate <= MAX_BITRATE
  }

  ghost predicate Inv(s: State) {
    && FramesOk(s.pending) && RateOk(s)
    && s.bytes == Total(s.pending) && |s.pending| <= MAX_PENDING_FRAMES && s.bytes <= MAX_PENDING_BYTES
  }

  // ---------------------------------------------------------------- sums over the map

  lemma {:induction false} SumWithout(m: Pending, k: U16, n: nat)
    requires n <= 0x1_0000
    ensures SumBelow(m, n) == SumBelow(m - {k}, n) + (if k in m && k < n then m[k].bytes else 0)
  {
    if n > 0 {
      SumWithout(m, k, n - 1);
    }
  }

  lemma {:induction false} SumSame(m: Pending, m': Pending, n: nat)
    requires n <= 0x1_0000
    requires forall k :: 0 <= k < n ==> (k in m <==> k in m') && (k in m ==> m[k].bytes == m'[k].bytes)
    ensures SumBelow(m, n) == SumBelow(m', n)
  {
    if n > 0 {
      SumSame(m, m', n - 1);
    }
  }

  lemma TotalPut(m: Pending, k: U16, f: Frame)
    ensures Total(m[k := f]) == Total(m) - (if k in m then m[k].bytes else 0) + f.bytes
  {
    SumWithout(m, k, 0x1_0000);
    SumWithout(m[k := f], k, 0x1_0000);
    assert m[k := f] - {k} == m - {k};
  }

  lemma TotalOfNothing()
    ensures Total(map[]) == 0
  {
    ZeroSum(0x1_0000);
  }

  lemma {:induction false} ZeroSum(n: nat)
    requires n <= 0x1_0000
    ensures SumBelow(map[], n) == 0
  {
    if n > 0 {
      ZeroSum(n - 1);
    }
  }

  // ---------------------------------------------------------------- every drain step keeps the invariant

  /** `m'` holds some of the frames of `m`, unchanged. */
  ghost predicate Sub(m': Pending, m: Pending) {
    forall k :: k in m' ==> k in m && m'[k] == m[k]
  }

  lemma EraseKeeps(s: State, k: U16)
    requires Inv(s) && k in s.pending
    ensures Inv(Erase(s, k))
  {
    hide FrameOk;
    SumWithout(s.pending, k, 0x1_0000);
    ErasedIsSmaller(s.pending, k);
  }

  lemma RecoverKeeps(t: Turn, now: int)
    requires RateOk(t.s)
    ensures RateOk(Recover(t, now).s)
    ensures Recover(t, now).s.bytes == t.s.bytes
    ensures Inv(t.s) ==> Inv(Recover(t, now).s)
  {
    hide FramesOk, SumBelow;
  }

  lemma ExpireKeyKeeps(t: Turn, k: U16, now: int)
    requires Inv(t.s)
    ensures Inv(ExpireKey(t, k, now).s)
  {
    hide Inv, Recover, Erase;
    if k in t.s.pending && Expired(t.s.pending[k], now) {
      EraseKeeps(t.s, k);
      InvRate(Erase(t.s, k));
      RecoverKeeps(t.(s := Erase(t.s, k)), now);
    }
  }

  lemma InvRate(s: State)
    requires Inv(s)
    ensures RateOk(s)
  {
  }

  lemma {:induction false} ExpireKeeps(t: Turn, n: nat, now: int)
    requires Inv(t.s) && n <= 0x1_0000
    ensures Inv(ExpireBelow(t, n, now).s)
  {
    hide Inv, ExpireKey;
    if n > 0 {
      ExpireKeeps(t, n - 1, now);
      ExpireKeyKeeps(ExpireBelow(t, n - 1, now), n - 1, now);
    }
  }

  lemma ConsumeKeeps(t: Turn, now: int)
    requires Inv(t.s) && t.s.expected in t.s.pending
    ensures Inv(Consume(t, now).s)
  {
    hide FramesOk, SumBelow;
    var a := Assemble(t.s, t.s.pending[t.s.expected]);
    AssembleKeeps(t.s, t.s.pending[t.s.expected]);
    RecoverKeeps(Turn(a.s, t.b), now);
    var r := if a.out.Some? then a.s else Recover(Turn(a.s, t.b), now).s;
    EraseKeeps(r, r.expected);
    assert Consume(t, now).s.pending == Erase(r, r.expected).pending;
  }

  lemma AssembleKeeps(s: State, f: Frame)
    ensures Assemble(s, f).s.bytes == s.bytes && Assemble(s, f).s.bitrate == s.bitrate
    ensures Assemble(s, f).s.initialized == s.initialized
  {
    hide Units, HasType, LastOf, Concat, AccessUnit;
  }

  lemma AbandonKeeps(t: Turn, now: int)
    requires Inv(t.s) && t.s.expected in t.s.pending
    ensures Inv(Abandon(t, now).s)
  {
    hide FramesOk, SumBelow;
    EraseKeeps(t.s, t.s.expected);
    RecoverKeeps(t.(s := StepOver(t.s)), now);
  }

  lemma JumpKeeps(t: Turn, k: U16, now: int)
    requires Inv(t.s) && SequenceDelta(k, t.s.expected) >= 0
    ensures Inv(Jump(t, k, now).s)
  {
    hide FramesOk, SumBelow;
    RecoverKeeps(t.(s := t.s.(expected := k, position := t.s.position + SequenceDelta(k, t.s.expected))), now);
  }

  lemma {:induction false} AdvanceKeeps(t: Turn, now: int)
    requires Inv(t.s)
    ensures Inv(Advance(t, now).s)
    decreases |t.s.pending|, if t.s.expected in t.s.pending then 0 else 1
  {
    hide Inv, Consume, Abandon, Jump, Nearest, Complete;
    var s := t.s;
    if s.pending == map[] {
    } else if s.expected in s.pending {
      ErasedIsSmaller(s.pending, s.expected);
      if Complete(s.pending[s.expected]) {
        ConsumeKeeps(t, now);
        AdvanceKeeps(Consume(t, now), now);
      } else if now - s.pending[s.expected].arrival >= SKIP_US {
        AbandonKeeps(t, now);
        AdvanceKeeps(Abandon(t, now), now);
      }
    } else if Nearest(s).Some? {
      var k := Nearest(s).value;
      if now - s.pending[k].arrival >= SKIP_US {
        JumpKeeps(t, k, now);
        AdvanceKeeps(Jump(t, k, now), now);
      }
    }
  }

  lemma {:induction false} TrimKeeps(s: State, n: nat)
    requires Inv(s) && n <= 0x1_0000
    ensures Inv(TrimBelow(s, n))
  {
    hide Inv, Erase;
    if n > 0 {
      TrimKeeps(s, n - 1);
      var r := TrimBelow(s, n - 1);
      if n - 1 in r.pending { EraseKeeps(r, n - 1); }
    }
  }

  lemma RaiseKeeps(t: Turn, now: int)
    requires Inv(t.s)
    ensures Inv(RaiseRate(t, now).s) && RaiseRate(t, now).s.pending == t.s.pending
  {
    hide FramesOk, SumBelow;
  }

  lemma InitializeKeeps(s: State)
    requires Inv(s)
    ensures Inv(Initialize(s))
  {
    hide FramesOk, SumBelow, FirstBelow;
  }

  lemma DrainKeeps(t: Turn, now: int)
    requires Inv(t.s)
    ensures Inv(Drain(t, now).s)
  {
    hide Inv, ExpireBelow, Initialize, Advance, TrimBelow, RaiseRate;
    ExpireKeeps(t, 0x1_0000, now);
    var e := Expire(t, now);
    InitializeKeeps(e.s);
    var i := e.(s := Initialize(e.s));
    AdvanceKeeps(i, now);
    var a := Advance(i, now);
    TrimKeeps(a.s, 0x1_0000);
    RaiseKeeps(a.(s := TrimBelow(a.s, 0x1_0000)), now);
  }

  // ---------------------------------------------------------------- storing a chunk

  lemma {:induction false} EmptyChunks(n: nat)
    ensures Filled(EmptyTable(n)) == 0 && Size(EmptyTable(n)) == 0
  {
    if n > 0 {
      EmptyChunks(n - 1);
      assert EmptyTable(n)[..n - 1] == EmptyTable(n - 1);
    }
  }

  lemma {:induction false} FillChunk(chunks: seq<Bytes>, i: nat, c: Bytes)
    requires i < |chunks| && chunks[i] == [] && c != []
    ensures Filled(chunks[i := c]) == Filled(chunks) + 1
    ensures Size(chunks[i := c]) == Size(chunks) + |c|
  {
    var last, filled := |chunks| - 1, chunks[i := c];
    if i == last {
      assert filled[..last] == chunks[..last] && filled[last] == c;
    } else {
      assert filled[..last] == chunks[..last][i := c] && filled[last] == chunks[last];
      FillChunk(chunks[..last], i, c);
    }
  }

  lemma AddChunkOk(f: Frame, c: Chunk)
    requires FrameOk(f) && c.index < f.count && f.chunks[c.index] == [] && c.payload != []
    ensures FrameOk(AddChunk(f, c))
  {
    hide Filled, Size;
    FillChunk(f.chunks, c.index, c.payload);
  }

  lemma FreshFrameOk(c: Chunk, now: int)
    requires 0 < c.count && c.stableFlags < 4
    ensures FrameOk(FreshFrame(c, now))
  {
    hide Filled, Size;
    EmptyChunks(c.count);
  }

  ghost predicate ChunkOk(c: Chunk) {
    c.index < c.count && c.payload != [] && c.stableFlags < 4
  }

  /** Inv, but for the number of frames. */
  ghost predicate Accounted(s: State) {
    FramesOk(s.pending) && RateOk(s) && s.bytes == Total(s.pending)
  }

  lemma PutKeeps(s: State, k: U16, f: Frame)
    requires Accounted(s) && FrameOk(f)
    ensures Accounted(s.(pending := s.pending[k := f],
                         bytes := s.bytes - (if k in s.pending then s.pending[k].bytes else 0) + f.bytes))
  {
    hide SumBelow, FrameOk;
    TotalPut(s.pending, k, f);
  }

  lemma SizeAfterPut(m: Pending, k: U16, f: Frame)
    ensures |m[k := f]| == |m| + if k in m then 0 else 1
  {
    assert m[k := f].Keys == m.Keys + {k};
    assert |m[k := f].Keys| == |m[k := f]| && |m.Keys| == |m|;
  }

  lemma StoreKeeps(t: Turn, c: Chunk, now: int)
    requires Inv(t.s) && ChunkOk(c) && !Overflows(t.s, c)
    ensures Inv(Store(t, c, now).s)
  {
    hide SumBelow, FrameOk, RateOk, FramesOk;
    var k := c.seqNo;
    var f: Frame := if k in t.s.pending then t.s.pending[k] else FreshFrame(c, now);
    assert FrameOk(f) by { StoredFrameOk(t.s, c, now); }
    var s := t.s.(pending := t.s.pending[k := f]);
    SizeAfterPut(t.s.pending, k, f);
    PutKeeps(t.s, k, f);
    assert k !in t.s.pending ==> f.bytes == 0;
    assert Inv(s);
    if !SameHeader(f, c) || (f.chunks[c.index] != [] && f.chunks[c.index] != c.payload) {
      EraseKeeps(s, k);
      InvRate(Erase(s, k));
      RecoverKeeps(t.(s := Erase(s, k)), now);
    } else if f.chunks[c.index] == [] {
      AddChunkOk(f, c);
      PutKeeps(s, k, AddChunk(f, c));
      SizeAfterPut(s.pending, k, AddChunk(f, c));
    }
  }

  lemma StoredFrameOk(s: State, c: Chunk, now: int)
    requires FramesOk(s.pending) && ChunkOk(c)
    ensures FrameOk(if c.seqNo in s.pending then s.pending[c.seqNo] else FreshFrame(c, now))
  {
    hide FrameOk;
    FreshFrameOk(c, now);
  }

  lemma AcceptKeeps(t: Turn, c: Chunk, now: int)
    requires Inv(t.s) && ChunkOk(c)
    ensures Inv(Accept(t, c, now).s)
  {
    hide Drain, Store, SumBelow, FrameOk;
    if t.s.initialized && SequenceDelta(c.seqNo, t.s.expected) < 0 {
    } else if Overflows(t.s, c) {
      TotalOfNothing();
      RecoverKeeps(t.(s := t.s.(pending := map[], bytes := 0, initialized := false)), now);
    } else {
      StoreKeeps(t, c, now);
      DrainKeeps(Store(t, c, now), now);
    }
  }

  // ---------------------------------------------------------------- what a drain leaves pending

  /** Nothing outdated, nothing that could be delivered, and the next frame to come is younger than 10 ms. */
  ghost predicate Settled(s: State, now: int) {
    && (forall k :: k in s.pending ==> !Expired(s.pending[k], now))
    && (!s.initialized ==> forall k :: !Candidate(s.pending, k))
    && (s.initialized ==> (forall k :: k in s.pending ==> SequenceDelta(k, s.expected) >= 0) && Young(s, now))
  }

  /** `k` is the pending frame closest ahead of the expected number. */
  ghost predicate IsNearest(s: State, k: U16) {
    && k in s.pending && SequenceDelta(k, s.expected) >= 0
    && forall j :: j in s.pending ==> !Closer(j, k, s.expected)
  }

  ghost predicate Young(s: State, now: int) {
    && (forall k :: IsNearest(s, k) ==> now - s.pending[k].arrival < SKIP_US)
    && (s.expected in s.pending ==> !Complete(s.pending[s.expected]))
  }

  lemma {:induction false} ExpireLeaves(t: Turn, n: nat, now: int)
    requires n <= 0x1_0000
    ensures Sub(ExpireBelow(t, n, now).s.pending, t.s.pending)
    ensures forall k :: k in ExpireBelow(t, n, now).s.pending && k < n ==>
              !Expired(ExpireBelow(t, n, now).s.pending[k], now)
  {
    hide Expired, Recover;
    if n > 0 {
      ExpireLeaves(t, n - 1, now);
    }
  }

  predicate Earlier(m: Pending, a: U16, k: U16)
    requires a in m && k in m
  {
    m[a].arrival < m[k].arrival || (m[a].arrival == m[k].arrival && a <= k)
  }

  /** FirstBelow picks the earliest complete keyframe-flagged frame, and misses none. */
  lemma {:induction false} FirstIsEarliest(m: Pending, n: nat)
    requires n <= 0x1_0000
    ensures match FirstBelow(m, n)
            case None => forall k: U16 :: k < n ==> !Candidate(m, k)
            case Some(a) => Candidate(m, a) && a < n && (forall k: U16 :: k < n && Candidate(m, k) ==> Earlier(m, a, k))
  {
    hide Candidate;
    if n > 0 {
      FirstIsEarliest(m, n - 1);
      CandidateIn(m, n - 1);
    }
  }

  lemma CandidateIn(m: Pending, k: U16)
    ensures Candidate(m, k) ==> k in m
  {
  }

  /** `k` is ahead of `expected` and closer to it than `a`. */
  predicate Closer(k: U16, a: U16, expected: U16) {
    0 <= SequenceDelta(k, expected) < SequenceDelta(a, expected)
  }

  lemma {:induction false} NearestBelowIs(m: Pending, expected: U16, n: nat)
    requires n <= 0x1_0000
    ensures match NearestBelow(m, expected, n)
            case None => forall k :: k in m && k < n ==> SequenceDelta(k, expected) < 0
            case Some(a) => forall k :: k in m && k < n ==> !Closer(k, a, expected)
  {
    hide SequenceDelta;
    if n > 0 {
      NearestBelowIs(m, expected, n - 1);
    }
  }

  /** Two different numbers are never at the same distance. */
  lemma SameDelta(a: U16, b: U16, e: U16)
    requires SequenceDelta(a, e) == SequenceDelta(b, e)
    ensures a == b
  {
  }

  lemma NearestIs(s: State)
    ensures match Nearest(s)
            case None => forall k :: !IsNearest(s, k)
            case Some(a) => forall k :: IsNearest(s, k) ==> k == a
  {
    hide SequenceDelta, NearestBelow;
    NearestBelowIs(s.pending, s.expected, 0x1_0000);
    if Nearest(s).Some? {
      var a := Nearest(s).value;
      forall k | IsNearest(s, k) ensures k == a {
        SameDelta(k, a, s.expected);
      }
    }
  }

  lemma SubTrans(a: Pending, b: Pending, c: Pending)
    requires Sub(a, b) && Sub(b, c)
    ensures Sub(a, c)
  {
  }

  lemma YoungWhenExpected(s: State, now: int)
    requires s.expected in s.pending && !Complete(s.pending[s.expected])
    requires now - s.pending[s.expected].arrival < SKIP_US
    ensures Young(s, now)
  {
    forall k | IsNearest(s, k) ensures k == s.expected {
      assert SequenceDelta(s.expected, s.expected) == 0;
      SameDelta(k, s.expected, s.expected);
    }
  }

  lemma InitializedStays(t: Turn, now: int)
    requires t.s.initialized
    ensures t.s.expected in t.s.pending ==> Consume(t, now).s.initialized && Abandon(t, now).s.initialized
    ensures forall k: U16 :: SequenceDelta(k, t.s.expected) >= 0 ==> Jump(t, k, now).s.initialized
  {
    hide SequenceDelta, Assemble;
    if t.s.expected in t.s.pending {
      AssembleKeeps(t.s, t.s.pending[t.s.expected]);
    }
  }

  lemma {:induction false} AdvanceLeaves(t: Turn, now: int)
    requires t.s.initialized
    ensures Sub(Advance(t, now).s.pending, t.s.pending) && Advance(t, now).s.initialized
    ensures Young(Advance(t, now).s, now)
    decreases |t.s.pending|, if t.s.expected in t.s.pending then 0 else 1
  {
    hide Consume, Abandon, Jump, Nearest, Complete, Young, IsNearest, SequenceDelta;
    var s := t.s;
    InitializedStays(t, now);
    if s.pending == map[] {
      YoungWhenEmpty(s, now);
    } else if s.expected in s.pending {
      ErasedIsSmaller(s.pending, s.expected);
      if Complete(s.pending[s.expected]) {
        AdvanceLeaves(Consume(t, now), now);
      } else if now - s.pending[s.expected].arrival >= SKIP_US {
        AdvanceLeaves(Abandon(t, now), now);
      } else {
        YoungWhenExpected(s, now);
      }
    } else {
      NearestIs(s);
      if Nearest(s).None? || now - s.pending[Nearest(s).value].arrival < SKIP_US {
        YoungWhenAbsent(s, now);
      } else {
        AdvanceLeaves(Jump(t, Nearest(s).value, now), now);
      }
    }
  }

  lemma YoungWhenEmpty(s: State, now: int)
    requires s.pending == map[]
    ensures Young(s, now)
  {
  }

  lemma YoungWhenAbsent(s: State, now: int)
    requires s.expected !in s.pending
    requires Nearest(s).Some? ==> now - s.pending[Nearest(s).value].arrival < SKIP_US
    ensures Young(s, now)
  {
    hide SequenceDelta, Nearest, IsNearest;
    NearestIs(s);
  }

  lemma {:induction false} TrimLeaves(s: State, n: nat)
    requires n <= 0x1_0000
    ensures Sub(TrimBelow(s, n).pending, s.pending)
    ensures TrimBelow(s, n).expected == s.expected && TrimBelow(s, n).initialized == s.initialized
    ensures forall k :: k in s.pending ==>
              (k in TrimBelow(s, n).pending <==> !(k < n && SequenceDelta(k, s.expected) < 0))
  {
    hide SequenceDelta;
    if n > 0 {
      TrimLeaves(s, n - 1);
    }
  }

  lemma TrimStaysYoung(s: State, now: int)
    requires Young(s, now)
    ensures Young(TrimBelow(s, 0x1_0000), now)
  {
    hide SequenceDelta, Complete, TrimBelow;
    TrimLeaves(s, 0x1_0000);
    var r := TrimBelow(s, 0x1_0000);
    forall k | IsNearest(r, k) ensures now - r.pending[k].arrival < SKIP_US {
      assert IsNearest(s, k);
    }
  }

  lemma InitializeLeaves(s: State)
    ensures Initialize(s).pending == s.pending
    ensures !Initialize(s).initialized ==> forall k :: !Candidate(s.pending, k)
  {
    hide FirstBelow, Candidate;
    FirstIsEarliest(s.pending, 0x1_0000);
  }

  lemma RaiseLeaves(t: Turn, now: int)
    ensures var r := RaiseRate(t, now).s;
            r.pending == t.s.pending && r.initialized == t.s.initialized && r.expected == t.s.expected
              && r.bytes == t.s.bytes
            && r.waiting == t.s.waiting
  {
  }

  lemma SettledDependsOn(s: State, r: State, now: int)
    requires r.pending == s.pending && r.initialized == s.initialized && r.expected == s.expected
    ensures Young(s, now) <==> Young(r, now)
    ensures Settled(s, now) <==> Settled(r, now)
  {
    hide SequenceDelta, Complete, Expired, Candidate;
    assert forall k :: IsNearest(s, k) == IsNearest(r, k);
  }

  lemma DrainSettles(t: Turn, now: int)
    ensures Settled(Drain(t, now).s, now)
  {
    hide ExpireBelow, Initialize, Advance, TrimBelow, RaiseRate, Young, Expired, Candidate, SequenceDelta;
    ExpireLeaves(t, 0x1_0000, now);
    var e := Expire(t, now);
    InitializeLeaves(e.s);
    var i := e.(s := Initialize(e.s));
    if i.s.initialized {
      AdvanceLeaves(i, now);
      var a := Advance(i, now);
      TrimLeaves(a.s, 0x1_0000);
      TrimStaysYoung(a.s, now);
      var r := a.(s := TrimBelow(a.s, 0x1_0000));
      SubTrans(r.s.pending, a.s.pending, i.s.pending);
      RaiseLeaves(r, now);
      SettledDependsOn(r.s, RaiseRate(r, now).s, now);
    }
  }

  lemma AcceptSettles(t: Turn, c: Chunk, now: int)
    requires Settled(t.s, now) && c.index < c.count
    ensures Settled(Accept(t, c, now).s, now)
  {
    hide Drain, Store, Young, Settled, SequenceDelta;
    if t.s.initialized && SequenceDelta(c.seqNo, t.s.expected) < 0 {
    } else if Overflows(t.s, c) {
      SettledWhenEmpty(Accept(t, c, now).s, now);
    } else {
      DrainSettles(Store(t, c, now), now);
    }
  }

  lemma SettledWhenEmpty(s: State, now: int)
    requires s.pending == map[] && !s.initialized
    ensures Settled(s, now)
  {
  }

  // ---------------------------------------------------------------- the step theorems

  /** Every packet keeps the bounds and the accounting; a well-formed one also leaves the buffer settled. */
  lemma ProcessKeeps(s: State, p: Bytes, now: int)
    requires Inv(s)
    ensures Inv(Process(s, p, now).s)
    ensures now >= 0 && ParseChunk(p).Some? ==> Settled(Process(s, p, now).s, now)
  {
    hide Inv, Settled, Drain, Accept, ParseChunk;
    var c := ParseChunk(p);
    if now >= 0 && c.Some? {
      var t := Turn(s, EMPTY_BATCH);
      DrainKeeps(t, now);
      DrainSettles(t, now);
      AcceptKeeps(Drain(t, now), c.value, now);
      AcceptSettles(Drain(t, now), c.value, now);
    }
  }

  lemma TickKeeps(s: State, now: int)
    requires Inv(s)
    ensures Inv(Tick(s, now).s)
    ensures now >= 0 ==> Settled(Tick(s, now).s, now)
  {
    hide Inv, Settled, Drain;
    if now >= 0 {
      var t := Drain(Turn(s, EMPTY_BATCH), now);
      DrainKeeps(Turn(s, EMPTY_BATCH), now);
      DrainSettles(Turn(s, EMPTY_BATCH), now);
      InvRate(t.s);
      RecoverKeeps(t, now);
      RecoverLeaves(t, now);
      SettledDependsOn(t.s, Recover(t, now).s, now);
    }
  }

  lemma RecoverLeaves(t: Turn, now: int)
    ensures Recover(t, now).s.initialized == t.s.initialized
  {
  }

  lemma ResetKeeps(s: State)
    ensures Inv(Reset(s)) && Inv(INITIAL)
  {
    TotalOfNothing();
  }
}
