/** What feedback says about what arrived: the receptions reported are exactly the numbers recorded, in blocks of 512,
    and builds make progress exactly while every block holds a reception. */
module TwccCoverage {
  import opened Wire
  import opened TwccModel
  import opened TwccFeedback

  /** An arrival under its transport-wide number before it is cut to 16 bits. */
  datatype Arrival = Arrival(number: int, us: int, size: U16)

  function Record1(s: State, a: Arrival): State {
    OnPacket(s, a.number % 0x1_0000, a.us, a.size)
  }

  function RecordAll(s: State, arrivals: seq<Arrival>): State {
    if arrivals == [] then s else Record1(RecordAll(s, arrivals[..|arrivals| - 1]), arrivals[|arrivals| - 1])
  }

  // ---------------------------------------------------------------- what a state holds

  ghost predicate Clean(s: State) {
    !s.pending.some && forall j :: 0 <= j < RING ==> !s.records[j].received
  }

  /** The slot of number `k` tells whether `k` was recorded, and when. */
  ghost predicate HoldsAt(r: Ring, k: int, times: map<int, int>) {
    var rec := r[k % RING];
    && (rec.received <==> k in times)
    && (k in times ==> rec.arrivalUs == times[k])
  }

  ghost predicate Holds(r: Ring, lo: int, times: map<int, int>) {
    forall k :: lo <= k < lo + RING ==> HoldsAt(r, k, times)
  }

  ghost predicate InSpan(lo: int, hi: int, times: map<int, int>) {
    && lo <= hi < lo + RING
    && hi in times
    && forall k :: k in times ==> lo <= k <= hi
  }

  /** The state owes reports for exactly the numbers of `times`, all in `lo..hi`. */
  ghost predicate Tracks(s: State, lo: int, hi: int, times: map<int, int>) {
    && InSpan(lo, hi, times)
    && s.pending == Pending(lo % 0x1_0000, (hi + 1) % 0x1_0000, true)
    && Holds(s.records, lo, times)
  }

  // ---------------------------------------------------------------- circles

  lemma SlotOf(k: int)
    ensures (k % 0x1_0000) % RING == k % RING
  {
    var q, m := k / 0x1_0000, k % 0x1_0000;
    SmallMultiple(RING, 32 * q + m / RING - k / RING);
  }

  lemma SlotIs(lo: int, hi: int, i: nat)
    ensures Slot(Pending(lo % 0x1_0000, (hi + 1) % 0x1_0000, true), i) == (lo + i) % RING
  {
    SlotOf(lo + i);
    BaseMoves(lo, i);
  }

  lemma SameSlot(a: int, b: int)
    requires a - b < RING && b - a < RING && a % RING == b % RING
    ensures a == b
  {
  }

  lemma Around(k: int)
    ensures (k - RING) % RING == k % RING
  {
  }

  lemma DeltaIs(a: int, b: int)
    requires -0x8000 <= a - b < 0x8000
    ensures SequenceDelta(a % 0x1_0000, b % 0x1_0000) == a - b
  {
  }

  // ---------------------------------------------------------------- recording

  lemma WidenIs(lo: int, hi: int, n: int)
    requires lo <= hi && hi - lo < RING && hi - n < RING && n - lo < RING
    ensures Widen(Pending(lo % 0x1_0000, (hi + 1) % 0x1_0000, true), n % 0x1_0000)
            == Pending((if n < lo then n else lo) % 0x1_0000, ((if n > hi then n else hi) + 1) % 0x1_0000, true)
  {
    hide SequenceDelta;
    DeltaIs(n, lo);
    DeltaIs(n, hi + 1);
    BaseMoves(n, 1);
  }

  lemma RingTakes(r: Ring, lo: int, hi: int, times: map<int, int>, a: Arrival)
    requires InSpan(lo, hi, times) && Holds(r, lo, times) && hi - a.number < RING && a.number - lo < RING
    ensures Holds(r[a.number % RING := Record(a.us, a.size, true)], if a.number < lo then a.number else lo,
            times[a.number := a.us])
  {
    var n := a.number;
    var from := if n < lo then n else lo;
    var after, later := r[n % RING := Record(a.us, a.size, true)], times[n := a.us];
    forall k | from <= k < from + RING ensures HoldsAt(after, k, later) {
      if k != n {
        assert k % RING == n % RING ==> false by { if k % RING == n % RING { SameSlot(k, n); } }
        if k < lo {
          Around(k + RING);
          assert HoldsAt(r, k + RING, times);
        } else {
          assert HoldsAt(r, k, times);
        }
      }
    }
  }

  lemma RecordTracks(s: State, lo: int, hi: int, times: map<int, int>, a: Arrival)
    requires Tracks(s, lo, hi, times) && hi - a.number < RING && a.number - lo < RING
    ensures Tracks(Record1(s, a), if a.number < lo then a.number else lo, if a.number > hi then a.number else hi,
            times[a.number := a.us])
  {
    hide Holds, Widen;
    SlotOf(a.number);
    RingTakes(s.records, lo, hi, times, a);
    WidenIs(lo, hi, a.number);
  }

  lemma FirstTracks(s: State, a: Arrival)
    requires Clean(s)
    ensures Tracks(Record1(s, a), a.number, a.number, map[a.number := a.us])
  {
    var n, times := a.number, map[a.number := a.us];
    var after := Record1(s, a);
    SlotOf(n);
    assert (n % 0x1_0000 + 1) % 0x1_0000 == (n + 1) % 0x1_0000;
    forall k | n <= k < n + RING ensures HoldsAt(after.records, k, times) {
      if k != n {
        assert k % RING == n % RING ==> false by { if k % RING == n % RING { SameSlot(k, n); } }
        assert !s.records[k % RING].received;
      }
    }
  }

  // ---------------------------------------------------------------- arrivals

  /** The last arrival time of each number. */
  function Times(arrivals: seq<Arrival>): (times: map<int, int>)
    ensures forall i :: 0 <= i < |arrivals| ==> arrivals[i].number in times
    ensures forall k :: k in times ==> exists i :: 0 <= i < |arrivals| && arrivals[i].number == k
  {
    if arrivals == [] then map[]
    else
      var n := |arrivals| - 1;
      var earlier := Times(arrivals[..n]);
      assert forall k :: k in earlier ==> exists i :: 0 <= i < n && arrivals[..n][i].number == k;
      earlier[arrivals[n].number := arrivals[n].us]
  }

  function Lowest(arrivals: seq<Arrival>): (lo: int)
    requires arrivals != []
    ensures forall i :: 0 <= i < |arrivals| ==> lo <= arrivals[i].number
    ensures exists i :: 0 <= i < |arrivals| && arrivals[i].number == lo
  {
    var n := |arrivals| - 1;
    if n == 0 then arrivals[0].number
    else
      var lo := Lowest(arrivals[..n]);
      if arrivals[n].number < lo then arrivals[n].number else lo
  }

  function Highest(arrivals: seq<Arrival>): (hi: int)
    requires arrivals != []
    ensures forall i :: 0 <= i < |arrivals| ==> arrivals[i].number <= hi
    ensures exists i :: 0 <= i < |arrivals| && arrivals[i].number == hi
  {
    var n := |arrivals| - 1;
    if n == 0 then arrivals[0].number
    else
      var hi := Highest(arrivals[..n]);
      if arrivals[n].number > hi then arrivals[n].number else hi
  }

  lemma LastArrivalIs(s: State, arrivals: seq<Arrival>)
    requires arrivals != []
    ensures var n := |arrivals| - 1;
            var earlier, last := arrivals[..n], arrivals[n];
            && Times(arrivals) == Times(earlier)[last.number := last.us]
            && RecordAll(s, arrivals) == Record1(RecordAll(s, earlier), last)
            && (n == 0 ==>
                 RecordAll(s, earlier) == s && Times(earlier) == map[]
                   && Lowest(arrivals) == Highest(arrivals) == last.number)
            && (n > 0 ==> Lowest(arrivals) == (if last.number < Lowest(earlier) then last.number else Lowest(earlier))
                          && Highest(arrivals) == if last.number > Highest(earlier) then last.number
                             else Highest(earlier))
  {
  }

  lemma SpanShrinks(arrivals: seq<Arrival>)
    requires |arrivals| > 1 && Highest(arrivals) - Lowest(arrivals) < RING
    ensures var n := |arrivals| - 1;
            var earlier, last := arrivals[..n], arrivals[n].number;
            Highest(earlier) - Lowest(earlier) < RING && Highest(earlier) - last < RING && last - Lowest(earlier) < RING
  {
    hide Times;
  }

  /** Recording from a clean state, in any order and with any repetitions: the state owes exactly what was recorded. */
  lemma {:induction false} RunTracks(s: State, arrivals: seq<Arrival>)
    requires Clean(s) && arrivals != [] && Highest(arrivals) - Lowest(arrivals) < RING
    ensures Tracks(RecordAll(s, arrivals), Lowest(arrivals), Highest(arrivals), Times(arrivals))
    decreases |arrivals|
  {
    hide Clean, Tracks, Record1, Lowest, Highest, Times, RecordAll;
    var n := |arrivals| - 1;
    var earlier, last := arrivals[..n], arrivals[n];
    LastArrivalIs(s, arrivals);
    if n == 0 {
      FirstTracks(s, last);
    } else {
      SpanShrinks(arrivals);
      RunTracks(s, earlier);
      RecordTracks(RecordAll(s, earlier), Lowest(earlier), Highest(earlier), Times(earlier), last);
    }
  }

  // ---------------------------------------------------------------- one build

  function Least(a: nat, b: nat): nat {
    if a < b then a else b
  }

  ghost predicate Heard(times: map<int, int>, lo: int, n: nat) {
    exists k :: k in times && lo <= k < lo + n
  }

  function From(times: map<int, int>, lo: int): map<int, int> {
    map k | k in times && k >= lo :: times[k]
  }

  lemma CircleDistance(a: int, b: int)
    requires 0 <= a - b <= RING
    ensures (a % 0x1_0000 - b % 0x1_0000) % 0x1_0000 == a - b
  {
  }

  lemma CountIs(s: State, lo: int, hi: int, times: map<int, int>)
    requires Tracks(s, lo, hi, times)
    ensures Count(s.pending) == Least(MAX_REPORTED, hi - lo + 1)
  {
    hide Holds;
    CircleDistance(hi + 1, lo);
  }

  lemma WindowIs(s: State, lo: int, hi: int, times: map<int, int>, i: nat)
    requires Tracks(s, lo, hi, times) && i < Count(s.pending)
    ensures Window(s)[i].received <==> lo + i in times
    ensures lo + i in times ==> Window(s)[i].arrivalUs == times[lo + i]
  {
    SlotIs(lo, hi, i);
    assert HoldsAt(s.records, lo + i, times);
  }

  lemma {:induction false} ReferenceIs(w: seq<Record>)
    ensures Reference(w).Some? <==> exists i :: 0 <= i < |w| && w[i].received
  {
    if w != [] {
      var n := |w| - 1;
      ReferenceIs(w[..n]);
      if i :| 0 <= i < |w| && w[i].received {
        if i < n { assert w[..n][i].received; }
      }
    }
  }

  lemma {:induction false} ClearedAt(s: State, lo: int, hi: int, times: map<int, int>, n: nat, k: int)
    requires Tracks(s, lo, hi, times) && n <= RING && lo <= k < lo + RING
    ensures Cleared(s, n)[k % RING] == if k < lo + n then EMPTY else s.records[k % RING]
    decreases n
  {
    hide Tracks;
    if n > 0 {
      ClearedAt(s, lo, hi, times, n - 1, k);
      ClearedSlot(s, lo, hi, times, n - 1);
      if k % RING == (lo + n - 1) % RING { SameSlot(k, lo + n - 1); }
    }
  }

  lemma ClearedSlot(s: State, lo: int, hi: int, times: map<int, int>, i: nat)
    requires Tracks(s, lo, hi, times)
    ensures Slot(s.pending, i) == (lo + i) % RING
  {
    SlotIs(lo, hi, i);
  }

  lemma RingForgets(s: State, lo: int, hi: int, times: map<int, int>, n: nat)
    requires Tracks(s, lo, hi, times) && n <= hi - lo + 1
    ensures Holds(Cleared(s, n), lo + n, From(times, lo + n))
  {
    hide Cleared;
    var from, cleared, later := lo + n, Cleared(s, n), From(times, lo + n);
    forall k | from <= k < from + RING ensures HoldsAt(cleared, k, later) {
      if k < lo + RING {
        ClearedAt(s, lo, hi, times, n, k);
        assert HoldsAt(s.records, k, times);
      } else {
        Around(k);
        ClearedAt(s, lo, hi, times, n, k - RING);
      }
    }
  }

  lemma NothingHeld(r: Ring, lo: int)
    requires Holds(r, lo, map[])
    ensures forall j :: 0 <= j < RING ==> !r[j].received
  {
    forall j | 0 <= j < RING ensures !r[j].received {
      var k := lo + (j - lo) % RING;
      SlotBack(lo, j);
      assert HoldsAt(r, k, map[]);
    }
  }

  lemma SlotBack(lo: int, j: nat)
    requires j < RING
    ensures (lo + (j - lo) % RING) % RING == j
  {
    var d := (j - lo) % RING;
    var k := lo + d;
    assert k - j == RING * (-((j - lo) / RING));
    SmallMultiple(RING, -((j - lo) / RING) - k / RING);
  }

  lemma AdvanceIs(s: State, lo: int, hi: int, times: map<int, int>)
    requires Tracks(s, lo, hi, times)
    ensures var n := Count(s.pending);
            && n <= hi - lo + 1
            && (n == hi - lo + 1 ==> Clean(Advance(s)))
            && (n < hi - lo + 1 ==> Tracks(Advance(s), lo + n, hi, From(times, lo + n)))
  {
    hide Holds, Cleared, Count, Clean, InSpan;
    CountIs(s, lo, hi, times);
    var n := Count(s.pending);
    SpanIs(lo, hi, times, n);
    RingForgets(s, lo, hi, times, n);
    BaseMoves(lo, n);
    if n == hi - lo + 1 {
      NothingHeld(Cleared(s, n), lo + n);
      CleanIs(Advance(s));
    } else {
      OthersOwed(lo + n, hi);
    }
  }

  lemma CleanIs(s: State)
    requires !s.pending.some && forall j :: 0 <= j < RING ==> !s.records[j].received
    ensures Clean(s)
  {
  }

  lemma SpanIs(lo: int, hi: int, times: map<int, int>, n: nat)
    requires InSpan(lo, hi, times) && n <= hi - lo + 1
    ensures n == hi - lo + 1 ==> From(times, lo + n) == map[]
    ensures n < hi - lo + 1 ==> InSpan(lo + n, hi, From(times, lo + n))
    ensures lo <= hi < lo + RING
  {
  }

  /** The base after a build, on the circle. */
  lemma BaseMoves(lo: int, n: nat)
    ensures (lo % 0x1_0000 + n) % 0x1_0000 == (lo + n) % 0x1_0000
  {
  }

  /** What is still owed starts elsewhere than it ends. */
  lemma OthersOwed(lo: int, hi: int)
    requires lo <= hi < lo + RING
    ensures lo % 0x1_0000 != (hi + 1) % 0x1_0000
  {
    CircleDistance(hi + 1, lo);
  }

  /** One build: it says something exactly when the next 512 numbers (or what is left) hold a reception. Then a reader
      finds the oldest owed number as base and, for each number of the block, whether it was recorded, and the state
      owes exactly the rest. Otherwise nothing at all changes. */
  lemma BlockReported(s: State, lo: int, hi: int, times: map<int, int>, senderSsrc: U32, mediaSsrc: U32)
    requires Tracks(s, lo, hi, times)
    ensures var n := Least(MAX_REPORTED, hi - lo + 1);
            var built := Build(s, senderSsrc, mediaSsrc);
            if !Heard(times, lo, n) then built == Built(s, [])
            else && ReportsBlock(ReadFeedback(built.packet), s.fbCount, lo, n, times)
                 && (n == hi - lo + 1 ==> Clean(built.s))
                 && (n < hi - lo + 1 ==> Tracks(built.s, lo + n, hi, From(times, lo + n)))
                 && built.s.fbCount == (s.fbCount + 1) % 0x100
  {
    hide Holds, Clean, InSpan, Count, ReadFeedback, Statuses, Window, Reference, Advance, Packet;
    var w := Window(s);
    CountIs(s, lo, hi, times);
    HeardIs(s, lo, hi, times);
    AdvanceIs(s, lo, hi, times);
    if Reference(w).Some? {
      PacketIsNotEmpty(s, senderSsrc, mediaSsrc, Reference(w).value);
      BuiltPacketReads(s, senderSsrc, mediaSsrc);
      StatusesAre(s, lo, hi, times);
      AdvanceCounts(s);
    }
  }

  ghost predicate ReportsBlock(f: Option<Feedback>, fbCount: Byte, lo: int, n: nat, times: map<int, int>) {
    && f.Some?
    && f.value.base == lo % 0x1_0000
    && f.value.fbCount == fbCount
    && |f.value.packets| == n
    && forall i :: 0 <= i < n ==> (f.value.packets[i].Some? <==> lo + i in times)
  }

  lemma AdvanceCounts(s: State)
    ensures Advance(s).fbCount == (s.fbCount + 1) % 0x100
  {
    hide Cleared, Count;
  }

  lemma HeardIs(s: State, lo: int, hi: int, times: map<int, int>)
    requires Tracks(s, lo, hi, times)
    ensures Heard(times, lo, Count(s.pending)) <==> Reference(Window(s)).Some?
  {
    hide Tracks, Window, Reference, Count;
    var w := Window(s);
    ReferenceIs(w);
    forall i | 0 <= i < |w| ensures w[i].received <==> lo + i in times { WindowIs(s, lo, hi, times, i); }
    if k :| k in times && lo <= k < lo + Count(s.pending) {
      assert w[k - lo].received;
    }
  }

  lemma StatusesAre(s: State, lo: int, hi: int, times: map<int, int>)
    requires Tracks(s, lo, hi, times)
    ensures |Reported(Statuses(Window(s)))| == Count(s.pending)
    ensures forall i :: 0 <= i < Count(s.pending) ==> (Reported(Statuses(Window(s)))[i].Some? <==> lo + i in times)
  {
    hide Tracks, Window, Count, Statuses, TicksAfter;
    var w := Window(s);
    StatusesOk(w);
    forall i | 0 <= i < |w| ensures Reported(Statuses(w))[i].Some? <==> lo + i in times {
      WindowIs(s, lo, hi, times, i);
    }
  }

  lemma PacketIsNotEmpty(s: State, senderSsrc: U32, mediaSsrc: U32, reference: int)
    ensures Packet(s, senderSsrc, mediaSsrc, reference) != []
  {
    hide Statuses, ChunkBytes, Deltas, Chunks, PutBe16, PutBe32, PutBe24, Count;
  }

  // ---------------------------------------------------------------- whole batches

  /** Arrivals that span at most 512 numbers, in any order and across the 16-bit wrap, are all reported by one build:
      the base is the oldest number, the statuses are exactly the recorded set, and nothing stays owed. */
  lemma BatchReported(s: State, arrivals: seq<Arrival>, senderSsrc: U32, mediaSsrc: U32)
    requires Clean(s) && arrivals != [] && Highest(arrivals) - Lowest(arrivals) < MAX_REPORTED
    ensures var lo, n := Lowest(arrivals), Highest(arrivals) - Lowest(arrivals) + 1;
            var built := Build(RecordAll(s, arrivals), senderSsrc, mediaSsrc);
            && ReportsBlock(ReadFeedback(built.packet), s.fbCount, lo, n, Times(arrivals))
            && Clean(built.s) && built.s.fbCount == (s.fbCount + 1) % 0x100
  {
    hide Clean, Tracks, Times, Lowest, Highest, Record1, ReadFeedback, ReportsBlock;
    var lo, hi, times := Lowest(arrivals), Highest(arrivals), Times(arrivals);
    RunTracks(s, arrivals);
    CountKept(s, arrivals);
    LowestHeard(arrivals, hi - lo + 1);
    BlockReported(RecordAll(s, arrivals), lo, hi, times, senderSsrc, mediaSsrc);
  }

  lemma LowestHeard(arrivals: seq<Arrival>, n: nat)
    requires arrivals != [] && n > 0
    ensures Heard(Times(arrivals), Lowest(arrivals), n)
  {
    hide Times, Lowest;
    assert Lowest(arrivals) in Times(arrivals);
  }

  lemma {:induction false} CountKept(s: State, arrivals: seq<Arrival>)
    ensures RecordAll(s, arrivals).fbCount == s.fbCount
    decreases |arrivals|
  {
    if arrivals != [] { CountKept(s, arrivals[..|arrivals| - 1]); }
  }

  datatype Ran = Ran(s: State, packets: seq<Bytes>)

  /** Record a batch, build, and so on. */
  function RunBatches(s: State, batches: seq<seq<Arrival>>, senderSsrc: U32, mediaSsrc: U32): (r: Ran)
    ensures |r.packets| == |batches|
  {
    if batches == [] then Ran(s, [])
    else
      var n := |batches| - 1;
      var earlier := RunBatches(s, batches[..n], senderSsrc, mediaSsrc);
      var built := Build(RecordAll(earlier.s, batches[n]), senderSsrc, mediaSsrc);
      Ran(built.s, earlier.packets + [built.packet])
  }

  ghost predicate OneBlock(batch: seq<Arrival>) {
    batch != [] && Highest(batch) - Lowest(batch) < MAX_REPORTED
  }

  /** A whole session of such batches: packet `i` is numbered `i` (modulo 256) and reports batch `i`, nothing of any
      other batch, so every reception is reported exactly once. */
  lemma {:induction false} SessionReported(s: State, batches: seq<seq<Arrival>>, senderSsrc: U32, mediaSsrc: U32)
    requires Clean(s) && forall i :: 0 <= i < |batches| ==> OneBlock(batches[i])
    ensures var r := RunBatches(s, batches, senderSsrc, mediaSsrc);
            && Clean(r.s) && r.s.fbCount == (s.fbCount + |batches|) % 0x100
            && forall i :: 0 <= i < |batches| ==>
                 BatchIsReported(r.packets[i], (s.fbCount + i) % 0x100, batches[i])
    decreases |batches|
  {
    hide Clean, Lowest, Highest, Times, Record1, RecordAll, Build, ReadFeedback, ReportsBlock, RunBatches;
    SessionStep(s, batches, senderSsrc, mediaSsrc);
    if batches != [] {
      var n := |batches| - 1;
      var earlier := RunBatches(s, batches[..n], senderSsrc, mediaSsrc);
      forall i | 0 <= i < n ensures OneBlock(batches[..n][i]) { assert OneBlock(batches[i]); }
      SessionReported(s, batches[..n], senderSsrc, mediaSsrc);
      assert OneBlock(batches[n]);
      BatchReported(earlier.s, batches[n], senderSsrc, mediaSsrc);
      forall i | 0 <= i < n
        ensures BatchIsReported(RunBatches(s, batches, senderSsrc, mediaSsrc).packets[i], (s.fbCount + i) % 0x100,
                batches[i])
      {
        assert BatchIsReported(earlier.packets[i], (s.fbCount + i) % 0x100, batches[..n][i]);
      }
    }
  }

  lemma SessionStep(s: State, batches: seq<seq<Arrival>>, senderSsrc: U32, mediaSsrc: U32)
    ensures batches == [] ==> RunBatches(s, batches, senderSsrc, mediaSsrc).s == s
    ensures batches != [] ==>
              (var n := |batches| - 1;
               var earlier := RunBatches(s, batches[..n], senderSsrc, mediaSsrc);
               var built := Build(RecordAll(earlier.s, batches[n]), senderSsrc, mediaSsrc);
               RunBatches(s, batches, senderSsrc, mediaSsrc) == Ran(built.s, earlier.packets + [built.packet]))
  {
    hide Build, RecordAll;
  }

  ghost predicate BatchIsReported(packet: Bytes, fbCount: Byte, batch: seq<Arrival>) {
    && OneBlock(batch)
    && ReportsBlock(ReadFeedback(packet), fbCount, Lowest(batch), Highest(batch) - Lowest(batch) + 1, Times(batch))
  }

  // ---------------------------------------------------------------- longer spans

  function BuildMany(s: State, n: nat, senderSsrc: U32, mediaSsrc: U32): State
    decreases n
  {
    hide *;
    if n == 0 then s else BuildMany(Build(s, senderSsrc, mediaSsrc).s, n - 1, senderSsrc, mediaSsrc)
  }

  /** Every block of 512 numbers from the oldest on holds a reception. */
  ghost predicate NoSilentBlock(times: map<int, int>, lo: int, hi: int)
    decreases hi - lo
  {
    lo <= hi ==> Heard(times, lo, Least(MAX_REPORTED, hi - lo + 1)) && NoSilentBlock(times, lo + MAX_REPORTED, hi)
  }

  /** With a longer span (up to the ring) builds with no arrivals between report everything if and only if no block is
      silent. */
  lemma {:induction false} DrainsExactlyWithoutSilence(s: State, lo: int, hi: int, times: map<int, int>, n: nat,
                                                       senderSsrc: U32, mediaSsrc: U32)
    requires Tracks(s, lo, hi, times) && n * MAX_REPORTED >= hi - lo + 1
    ensures Clean(BuildMany(s, n, senderSsrc, mediaSsrc)) <==> NoSilentBlock(times, lo, hi)
    decreases n
  {
    hide Build, Clean, Holds, ReportsBlock, From, Heard, ReadFeedback;
    var block := Least(MAX_REPORTED, hi - lo + 1);
    var next := Build(s, senderSsrc, mediaSsrc).s;
    BlockReported(s, lo, hi, times, senderSsrc, mediaSsrc);
    if !Heard(times, lo, block) {
      StaysSilent(s, n, senderSsrc, mediaSsrc);
      OwingIsNotClean(s, lo, hi, times);
    } else if block == hi - lo + 1 {
      CleanStays(next, n - 1, senderSsrc, mediaSsrc);
      assert NoSilentBlock(times, lo + MAX_REPORTED, hi);
    } else {
      DrainsExactlyWithoutSilence(next, lo + block, hi, From(times, lo + block), n - 1, senderSsrc, mediaSsrc);
      SilenceAhead(times, lo + block, lo + block, hi);
    }
  }

  /** The blocks before the first silent one. */
  ghost function HeardBlocks(times: map<int, int>, lo: int, hi: int): nat
    decreases hi - lo
  {
    if lo <= hi && Heard(times, lo, Least(MAX_REPORTED, hi - lo + 1))
      then 1 + HeardBlocks(times, lo + MAX_REPORTED, hi) else 0
  }

  /** With no arrivals between, the first builds speak, one for each block before the first silent one; no build after
      them says anything. */
  lemma {:induction false} BuildsSpeakUntilSilence(s: State, lo: int, hi: int, times: map<int, int>, n: nat,
                                                   senderSsrc: U32, mediaSsrc: U32)
    requires Tracks(s, lo, hi, times)
    ensures Build(BuildMany(s, n, senderSsrc, mediaSsrc), senderSsrc, mediaSsrc).packet != []
            <==> n < HeardBlocks(times, lo, hi)
    decreases n
  {
    hide Build, Clean, Holds, ReportsBlock, From, Heard, ReadFeedback;
    var block := Least(MAX_REPORTED, hi - lo + 1);
    var next := Build(s, senderSsrc, mediaSsrc).s;
    BlockReported(s, lo, hi, times, senderSsrc, mediaSsrc);
    NoPacketNoReport(s.fbCount, lo, block, times);
    if !Heard(times, lo, block) {
      StaysSilent(s, n, senderSsrc, mediaSsrc);
    } else if n > 0 {
      if block == hi - lo + 1 {
        CleanStays(next, n - 1, senderSsrc, mediaSsrc);
        CleanSaysNothing(next, senderSsrc, mediaSsrc);
        assert HeardBlocks(times, lo + MAX_REPORTED, hi) == 0;
      } else {
        BuildsSpeakUntilSilence(next, lo + block, hi, From(times, lo + block), n - 1, senderSsrc, mediaSsrc);
        BlocksAhead(times, lo + block, lo + block, hi);
      }
    }
  }

  lemma NoPacketNoReport(fbCount: Byte, lo: int, n: nat, times: map<int, int>)
    ensures !ReportsBlock(ReadFeedback([]), fbCount, lo, n, times)
  {
  }

  lemma CleanSaysNothing(s: State, senderSsrc: U32, mediaSsrc: U32)
    requires Clean(s)
    ensures Build(s, senderSsrc, mediaSsrc) == Built(s, [])
  {
  }

  lemma {:induction false} BlocksAhead(times: map<int, int>, from: int, lo: int, hi: int)
    requires from <= lo
    ensures HeardBlocks(times, lo, hi) == HeardBlocks(From(times, from), lo, hi)
    decreases hi - lo
  {
    hide Heard, From;
    if lo <= hi {
      BlocksAhead(times, from, lo + MAX_REPORTED, hi);
      HeardAhead(times, from, lo, Least(MAX_REPORTED, hi - lo + 1));
    }
  }

  lemma OwingIsNotClean(s: State, lo: int, hi: int, times: map<int, int>)
    requires Tracks(s, lo, hi, times)
    ensures !Clean(s)
  {
    hide Holds, InSpan;
  }

  lemma {:induction false} StaysSilent(s: State, n: nat, senderSsrc: U32, mediaSsrc: U32)
    requires Build(s, senderSsrc, mediaSsrc).s == s
    ensures BuildMany(s, n, senderSsrc, mediaSsrc) == s
    decreases n
  {
    if n > 0 { StaysSilent(s, n - 1, senderSsrc, mediaSsrc); }
  }

  lemma CleanStays(s: State, n: nat, senderSsrc: U32, mediaSsrc: U32)
    requires Clean(s)
    ensures BuildMany(s, n, senderSsrc, mediaSsrc) == s
  {
    CleanSaysNothing(s, senderSsrc, mediaSsrc);
    StaysSilent(s, n, senderSsrc, mediaSsrc);
  }

  lemma {:induction false} SilenceAhead(times: map<int, int>, from: int, lo: int, hi: int)
    requires from <= lo
    ensures NoSilentBlock(times, lo, hi) <==> NoSilentBlock(From(times, from), lo, hi)
    decreases hi - lo
  {
    hide Heard, From;
    if lo <= hi {
      SilenceAhead(times, from, lo + MAX_REPORTED, hi);
      HeardAhead(times, from, lo, Least(MAX_REPORTED, hi - lo + 1));
    }
  }

  lemma HeardAhead(times: map<int, int>, from: int, lo: int, n: nat)
    requires from <= lo
    ensures Heard(times, lo, n) <==> Heard(From(times, from), lo, n)
  {
    if k :| k in times && lo <= k < lo + n { assert k in From(times, from); }
    if k :| k in From(times, from) && lo <= k < lo + n { assert k in times; }
  }

  /** Two receptions 1100 apart are enough: with no further arrivals the second is never reported. */
  lemma GapStalls(s: State, lo: int, us: int, size: U16, builds: nat, senderSsrc: U32, mediaSsrc: U32)
    requires Clean(s)
    ensures var arrivals := [Arrival(lo, us, size), Arrival(lo + 1100, us, size)];
            !Clean(BuildMany(RecordAll(s, arrivals), builds, senderSsrc, mediaSsrc))
  {
    hide Clean, Build, Record1, RecordAll, BuildMany, NoSilentBlock;
    var arrivals := [Arrival(lo, us, size), Arrival(lo + 1100, us, size)];
    TwoArrivals(arrivals[0], arrivals[1]);
    RunTracks(s, arrivals);
    var t := RecordAll(s, arrivals);
    CleanLater(t, builds, 3, senderSsrc, mediaSsrc);
    DrainsExactlyWithoutSilence(t, lo, lo + 1100, Times(arrivals), builds + 3, senderSsrc, mediaSsrc);
    SilentMiddle(lo, us);
  }

  lemma TwoArrivals(a: Arrival, b: Arrival)
    requires a.number < b.number
    ensures Lowest([a, b]) == a.number && Highest([a, b]) == b.number
    ensures Times([a, b]) == map[a.number := a.us, b.number := b.us]
  {
    assert [a, b][..1] == [a] && [a][..0] == [];
  }

  lemma SilentMiddle(lo: int, us: int)
    ensures !NoSilentBlock(map[lo := us, lo + 1100 := us], lo, lo + 1100)
  {
    assert !Heard(map[lo := us, lo + 1100 := us], lo + MAX_REPORTED, MAX_REPORTED);
  }

  lemma {:induction false} CleanLater(s: State, n: nat, more: nat, senderSsrc: U32, mediaSsrc: U32)
    ensures Clean(BuildMany(s, n, senderSsrc, mediaSsrc)) ==> Clean(BuildMany(s, n + more, senderSsrc, mediaSsrc))
    decreases n
  {
    hide Build, Clean;
    if n > 0 {
      CleanLater(Build(s, senderSsrc, mediaSsrc).s, n - 1, more, senderSsrc, mediaSsrc);
    } else if Clean(s) {
      CleanStays(s, more, senderSsrc, mediaSsrc);
    }
  }
}
