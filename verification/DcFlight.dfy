/** Several frames in flight at once: the map of 16-bit keys seen as a map of units, and what storing, waiting and
    consuming do to it. */
module DcFlight {
  import opened Wire
  import opened DcModel
  import opened DcInvariants
  import opened DcReassembly

  const HALF: int := 0x8000

  // ---------------------------------------------------------------- units and keys

  /** Unit `j` of a stream travels under this key. */
  function KeyOf(base: int, j: nat): U16 {
    (base + j) % 0x1_0000
  }

  /** The unit that key `k` stands for when unit `e` is the first of interest. */
  function UnitAt(base: int, e: nat, k: U16): nat {
    e + (k - base - e) % 0x1_0000
  }

  lemma KeyThenUnit(base: int, e: nat, j: nat)
    requires e <= j < e + 0x1_0000
    ensures UnitAt(base, e, KeyOf(base, j)) == j
  {
    var q := (base + j) / 0x1_0000;
    assert KeyOf(base, j) - base - e == (j - e) - q * 0x1_0000;
  }

  lemma UnitThenKey(base: int, e: nat, k: U16)
    ensures KeyOf(base, UnitAt(base, e, k)) == k
  {
    var d := k - base - e;
    assert base + UnitAt(base, e, k) == k - d / 0x1_0000 * 0x1_0000;
  }

  lemma KeyDistance(base: int, e: nat, j: nat)
    requires -HALF <= j - e < HALF
    ensures SequenceDelta(KeyOf(base, j), KeyOf(base, e)) == j - e
  {
    assert ((base + j) % 0x1_0000 - (base + e) % 0x1_0000) % 0x1_0000 == (j - e) % 0x1_0000;
  }

  lemma NextKey(base: int, e: nat)
    ensures (KeyOf(base, e) + 1) % 0x1_0000 == KeyOf(base, e + 1)
  {
  }

  // ---------------------------------------------------------------- the pending map

  type Frames = map<nat, Frame>

  ghost predicate PendsAt(m: Pending, base: int, e: nat, f: Frames, k: U16) {
    var j := UnitAt(base, e, k);
    && (k in m <==> j in f)
    && (k in m ==> m[k] == f[j])
  }

  /** The pending map holds the frames `f` of units from `e` on, each under its key. */
  ghost predicate Pends(m: Pending, base: int, e: nat, f: Frames) {
    && (forall k: U16 :: PendsAt(m, base, e, f, k))
    && (forall j :: j in f ==> e <= j < e + HALF)
  }

  lemma PendsUnit(m: Pending, base: int, e: nat, f: Frames, j: nat)
    requires Pends(m, base, e, f) && e <= j < e + 0x1_0000
    ensures KeyOf(base, j) in m <==> j in f
    ensures j in f ==> m[KeyOf(base, j)] == f[j]
  {
    hide UnitAt, KeyOf;
    KeyThenUnit(base, e, j);
    assert PendsAt(m, base, e, f, KeyOf(base, j));
  }

  lemma PendsKey(m: Pending, base: int, e: nat, f: Frames, k: U16)
    requires Pends(m, base, e, f) && k in m
    ensures UnitAt(base, e, k) in f && f[UnitAt(base, e, k)] == m[k]
    ensures SequenceDelta(k, KeyOf(base, e)) == UnitAt(base, e, k) - e >= 0
  {
    hide UnitAt, KeyOf, SequenceDelta;
    assert PendsAt(m, base, e, f, k);
    UnitThenKey(base, e, k);
    KeyDistance(base, e, UnitAt(base, e, k));
  }

  lemma PendsPut(m: Pending, base: int, e: nat, f: Frames, j: nat, g: Frame)
    requires Pends(m, base, e, f) && e <= j < e + HALF
    ensures Pends(m[KeyOf(base, j) := g], base, e, f[j := g])
  {
    hide UnitAt, KeyOf;
    var m', f' := m[KeyOf(base, j) := g], f[j := g];
    forall k: U16 ensures PendsAt(m', base, e, f', k) {
      assert PendsAt(m, base, e, f, k);
      KeyThenUnit(base, e, j);
      UnitThenKey(base, e, k);
    }
  }

  lemma ShiftUnit(base: int, e: nat, k: U16)
    ensures UnitAt(base, e + 1, k) == if k == KeyOf(base, e) then e + 0x1_0000 else UnitAt(base, e, k)
  {
    var d := (k - base - e) % 0x1_0000;
    assert (k - base - (e + 1)) % 0x1_0000 == if d == 0 then 0xffff else d - 1;
    UnitThenKey(base, e, k);
    KeyThenUnit(base, e, e);
  }

  /** The first unit gone, its successor is the first. */
  lemma PendsShift(m: Pending, base: int, e: nat, f: Frames)
    requires Pends(m, base, e, f)
    ensures Pends(m - {KeyOf(base, e)}, base, e + 1, f - {e})
  {
    hide UnitAt, KeyOf;
    var m', f', e' := m - {KeyOf(base, e)}, f - {e}, e + 1;
    forall k: U16 ensures PendsAt(m', base, e', f', k) {
      assert PendsAt(m, base, e, f, k);
      ShiftUnit(base, e, k);
      UnitThenKey(base, e, k);
    }
  }

  lemma PendsNothing(base: int, e: nat)
    ensures Pends(map[], base, e, map[])
  {
  }

  /** As many keys as units. */
  lemma {:induction false} PendsSize(m: Pending, base: int, e: nat, f: Frames)
    requires Pends(m, base, e, f)
    ensures |m| == |f|
    decreases |f|
  {
    hide UnitAt, KeyOf;
    if f == map[] {
      forall k: U16 ensures k !in m { assert PendsAt(m, base, e, f, k); }
      assert m == map[];
    } else {
      var j :| j in f;
      PendsUnit(m, base, e, f, j);
      var k := KeyOf(base, j);
      PendsWithout(m, base, e, f, j);
      ErasedIsSmaller(m, k);
      SmallerFrames(f, j);
      PendsSize(m - {k}, base, e, f - {j});
    }
  }

  lemma SmallerFrames(f: Frames, j: nat)
    requires j in f
    ensures |f - {j}| == |f| - 1
  {
    assert (f - {j}).Keys == f.Keys - {j};
    assert |(f - {j}).Keys| == |f - {j}| && |f.Keys| == |f|;
  }

  lemma PendsWithout(m: Pending, base: int, e: nat, f: Frames, j: nat)
    requires Pends(m, base, e, f) && j in f
    ensures Pends(m - {KeyOf(base, j)}, base, e, f - {j})
  {
    hide UnitAt, KeyOf;
    var m', f' := m - {KeyOf(base, j)}, f - {j};
    forall k: U16 ensures PendsAt(m', base, e, f', k) {
      assert PendsAt(m, base, e, f, k);
      KeyThenUnit(base, e, j);
      UnitThenKey(base, e, k);
    }
  }

  // ---------------------------------------------------------------- a drain that waits

  ghost predicate Unexpired(s: State, now: int) {
    forall k :: k in s.pending ==> !Expired(s.pending[k], now)
  }

  ghost predicate NothingBehind(s: State) {
    forall k :: k in s.pending ==> SequenceDelta(k, s.expected) >= 0
  }

  /** The delivery loop has nothing to do at this time. */
  ghost predicate Waits(s: State, now: int) {
    if s.expected in s.pending then !Complete(s.pending[s.expected]) && now - s.pending[s.expected].arrival < SKIP_US
    else Nearest(s).Some? ==> now - s.pending[Nearest(s).value].arrival < SKIP_US
  }

  lemma AdvanceWaits(t: Turn, now: int)
    requires Waits(t.s, now)
    ensures Advance(t, now) == t
  {
    hide Nearest, Complete, Consume, Abandon, Jump;
  }

  lemma DrainRests(s: State, now: int)
    requires Unexpired(s, now) && NothingBehind(s)
    requires if s.initialized then Waits(s, now) else forall k :: !Candidate(s.pending, k)
    ensures Drain(Turn(s, EMPTY_BATCH), now) == Turn(s, EMPTY_BATCH)
  {
    hide FirstBelow, ExpireBelow, TrimBelow, SequenceDelta, Waits, Advance, Candidate;
    var t := Turn(s, EMPTY_BATCH);
    ExpireNothing(t, 0x1_0000, now);
    FirstIsEarliest(s.pending, 0x1_0000);
    if s.initialized {
      AdvanceWaits(t, now);
      TrimNothing(s, 0x1_0000);
    }
  }

  /** Before the first keyframe what is behind does not matter. */
  lemma DrainIdles(s: State, now: int)
    requires Unexpired(s, now) && !s.initialized && forall k :: !Candidate(s.pending, k)
    ensures Drain(Turn(s, EMPTY_BATCH), now) == Turn(s, EMPTY_BATCH)
  {
    hide FirstBelow, ExpireBelow, TrimBelow, SequenceDelta, Advance, Candidate;
    ExpireNothing(Turn(s, EMPTY_BATCH), 0x1_0000, now);
    FirstIsEarliest(s.pending, 0x1_0000);
  }

  /** A drain that starts with `i` initialised and ends its loop at `a`: only the bitrate may still change. */
  lemma DrainRuns(s: State, i: State, a: Turn, now: int)
    requires Unexpired(s, now) && Initialize(s) == i && i.initialized
    requires Advance(Turn(i, EMPTY_BATCH), now) == a && NothingBehind(a.s)
    ensures Drain(Turn(s, EMPTY_BATCH), now) == RaiseRate(a, now)
  {
    hide ExpireBelow, TrimBelow, SequenceDelta, Advance, Initialize, RaiseRate;
    ExpireNothing(Turn(s, EMPTY_BATCH), 0x1_0000, now);
    TrimNothing(a.s, 0x1_0000);
  }

  /** Raising the bitrate touches nothing else that matters here. */
  lemma RaiseOnly(t: Turn, now: int)
    ensures var r := RaiseRate(t, now);
            && r.b.frames == t.b.frames && r.s.pending == t.s.pending && r.s.bytes == t.s.bytes
            && r.s.expected == t.s.expected && r.s.initialized == t.s.initialized && r.s.waiting == t.s.waiting
            && r.s.sps == t.s.sps && r.s.pps == t.s.pps
  {
  }

  // ---------------------------------------------------------------- storing a chunk among others

  lemma SeenNothing(u: Sending)
    ensures Table(u, []) == EmptyTable(|u.parts|)
  {
  }

  lemma StoreAmong(s: State, u: Sending, arrivals: seq<Arrival>, a: Arrival)
    requires SendingOk(u) && a.index < |u.parts|
    requires if arrivals == [] then u.seqNo !in s.pending
             else u.seqNo in s.pending && s.pending[u.seqNo] == FrameSoFar(u, arrivals)
    ensures var g := FrameSoFar(u, arrivals + [a]);
            Store(Turn(s, EMPTY_BATCH), ChunkOf(u, a.index), a.now)
            == Turn(s.(pending := s.pending[u.seqNo := g],
                       bytes := s.bytes + g.bytes - if arrivals == [] then 0 else FrameSoFar(u, arrivals).bytes),
                         EMPTY_BATCH)
  {
    hide Filled, Size, Seen;
    var c := ChunkOf(u, a.index);
    var k, g := u.seqNo, FrameSoFar(u, arrivals + [a]);
    TableSnoc(u, arrivals, a);
    if arrivals == [] {
      var f := FreshFrame(c, a.now);
      EmptyChunks(|u.parts|);
      assert [] + [a] == [a];
      SeenNothing(u);
      FillChunk(f.chunks, a.index, c.payload);
      assert AddChunk(f, c) == g;
      assert s.pending[k := f][k := g] == s.pending[k := g];
    } else {
      var f := FrameSoFar(u, arrivals);
      assert (arrivals + [a])[0] == arrivals[0];
      assert s.pending[k := f] == s.pending;
      if f.chunks[a.index] == [] {
        FillChunk(f.chunks, a.index, c.payload);
        assert AddChunk(f, c) == g;
      } else {
        assert g.chunks == f.chunks;
      }
    }
  }
}
