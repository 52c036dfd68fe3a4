/** Feedback over whole runs in which arrivals and builds alternate freely: what a running receiver owes and reports,
    when it stalls, what ends a stall, and what happens outside the window of the ring. */
module TwccRuns {
  import opened Wire
  import opened TwccModel
  import opened TwccFeedback
  import opened TwccCoverage

  datatype Event = Came(a: Arrival) | Asked

  /** The reports a receiver owes: the numbers recorded and not reported since, with their arrival times. */
  datatype Owed = Nothing | Owes(lo: int, hi: int, times: map<int, int>)

  ghost predicate Owing(s: State, o: Owed) {
    if o.Nothing? then Clean(s) else Tracks(s, o.lo, o.hi, o.times)
  }

  function Note(o: Owed, a: Arrival): Owed {
    var n := a.number;
    if o.Nothing? then Owes(n, n, map[n := a.us])
    else Owes(if n < o.lo then n else o.lo, if n > o.hi then n else o.hi, o.times[n := a.us])
  }

  /** How many numbers the next feedback covers. */
  function Block(o: Owed): nat {
    if o.Nothing? || o.hi < o.lo then 0 else Least(MAX_REPORTED, o.hi - o.lo + 1)
  }

  /** Whether a build says something: one of the next numbers was recorded. */
  ghost predicate Speaks(o: Owed) {
    o.Owes? && Heard(o.times, o.lo, Block(o))
  }

  ghost function Report(o: Owed): Owed {
    if !Speaks(o) then o
    else if Block(o) == o.hi - o.lo + 1 then Nothing
    else Owes(o.lo + Block(o), o.hi, From(o.times, o.lo + Block(o)))
  }

  /** What is owed after a run from a receiver that owes nothing. */
  ghost function Ledger(es: seq<Event>): Owed {
    if es == [] then Nothing
    else
      var before := Ledger(es[..|es| - 1]);
      match es[|es| - 1]
      case Came(a) => Note(before, a)
      case Asked => Report(before)
  }

  /** Less than a ring lies between the number and the oldest and newest owed. */
  predicate InWindow(o: Owed, n: int) {
    o.Owes? ==> o.hi - n < RING && n - o.lo < RING
  }

  ghost predicate Fits(es: seq<Event>) {
    es != [] ==>
      var earlier, ev := es[..|es| - 1], es[|es| - 1];
      Fits(earlier) && (ev.Came? ==> InWindow(Ledger(earlier), ev.a.number))
  }

  function React(s: State, ev: Event, senderSsrc: U32, mediaSsrc: U32): Built {
    match ev
    case Came(a) => Built(Record1(s, a), [])
    case Asked => Build(s, senderSsrc, mediaSsrc)
  }

  /** Packet `i` is what event `i` produced; arrivals produce none. */
  function RunEvents(s: State, es: seq<Event>, senderSsrc: U32, mediaSsrc: U32): (r: Ran)
    ensures |r.packets| == |es|
  {
    if es == [] then Ran(s, [])
    else
      var before := RunEvents(s, es[..|es| - 1], senderSsrc, mediaSsrc);
      var built := React(before.s, es[|es| - 1], senderSsrc, mediaSsrc);
      Ran(built.s, before.packets + [built.packet])
  }

  /** How many builds of the run spoke. */
  ghost function Spoken(es: seq<Event>): nat {
    if es == [] then 0
    else Spoken(es[..|es| - 1]) + if es[|es| - 1].Asked? && Speaks(Ledger(es[..|es| - 1])) then 1 else 0
  }

  // ---------------------------------------------------------------- one event

  /** A build is as the ledger says: silent, or the report of the block with its statuses. */
  ghost predicate AsOwed(packet: Bytes, o: Owed, fbCount: Byte) {
    && (packet != [] <==> Speaks(o))
    && (Speaks(o) ==> ReportsBlock(ReadFeedback(packet), fbCount, o.lo, Block(o), o.times))
  }

  lemma CameOwes(s: State, o: Owed, a: Arrival)
    requires Owing(s, o) && InWindow(o, a.number)
    ensures Owing(Record1(s, a), Note(o, a)) && Record1(s, a).fbCount == s.fbCount
  {
    hide Clean, Tracks;
    match o
    case Nothing => FirstTracks(s, a);
    case Owes(lo, hi, times) => RecordTracks(s, lo, hi, times, a);
  }

  lemma AskedOwes(s: State, o: Owed, senderSsrc: U32, mediaSsrc: U32)
    requires Owing(s, o)
    ensures var b := Build(s, senderSsrc, mediaSsrc);
            && Owing(b.s, Report(o)) && AsOwed(b.packet, o, s.fbCount)
            && b.s.fbCount == (s.fbCount + if Speaks(o) then 1 else 0) % 0x100
  {
    hide Tracks, Build, Heard, ReadFeedback, From;
    match o
    case Nothing => CleanSaysNothing(s, senderSsrc, mediaSsrc);
    case Owes(lo, hi, times) =>
      TracksSpan(s, lo, hi, times);
      BlockReported(s, lo, hi, times, senderSsrc, mediaSsrc);
      NoPacketNoReport(s.fbCount, lo, Block(o), times);
  }

  lemma TracksSpan(s: State, lo: int, hi: int, times: map<int, int>)
    requires Tracks(s, lo, hi, times)
    ensures lo <= hi < lo + RING && hi in times && s.pending.some
  {
  }

  // ---------------------------------------------------------------- whole runs

  /** While every arrival is less than a ring from the oldest and the newest number owed, the
      receiver owes just what the ledger says, and every build reports the next block of it: each status is whether
      the number was recorded. */
  lemma {:induction false} RunReports(s: State, es: seq<Event>, senderSsrc: U32, mediaSsrc: U32)
    requires Clean(s) && Fits(es)
    ensures var r := RunEvents(s, es, senderSsrc, mediaSsrc);
            && Owing(r.s, Ledger(es)) && r.s.fbCount == (s.fbCount + Spoken(es)) % 0x100
            && forall i :: 0 <= i < |es| ==> Answered(s.fbCount, es, i, r.packets[i])
  {
    hide Clean, Owing, Ledger, Build, Record1, Answered, InWindow, Spoken, RunEvents, React;
    if es == [] {
      CleanOwing(s, senderSsrc, mediaSsrc);
    } else {
      var n := |es| - 1;
      var before := RunEvents(s, es[..n], senderSsrc, mediaSsrc);
      RunReports(s, es[..n], senderSsrc, mediaSsrc);
      RunStep(s, es, senderSsrc, mediaSsrc);
      EventOwes(before.s, s.fbCount, es, senderSsrc, mediaSsrc);
      forall i | 0 <= i < n ensures Answered(s.fbCount, es, i, before.packets[i]) {
        AnsweredBefore(s.fbCount, es, n, i, before.packets[i]);
      }
    }
  }

  /** What event `i` of a run produced: a build is as the ledger says, an arrival produces nothing. */
  ghost predicate Answered(fbCount: Byte, es: seq<Event>, i: nat, packet: Bytes)
    requires i < |es|
  {
    if es[i].Asked? then AsOwed(packet, Ledger(es[..i]), (fbCount + Spoken(es[..i])) % 0x100) else packet == []
  }

  lemma AnsweredBefore(fbCount: Byte, es: seq<Event>, n: nat, i: nat, packet: Bytes)
    requires i < n <= |es|
    ensures Answered(fbCount, es[..n], i, packet) == Answered(fbCount, es, i, packet)
  {
    hide AsOwed, Ledger, Spoken;
    assert es[..n][..i] == es[..i];
  }

  lemma RunStep(s: State, es: seq<Event>, senderSsrc: U32, mediaSsrc: U32)
    requires es != []
    ensures var before := RunEvents(s, es[..|es| - 1], senderSsrc, mediaSsrc);
            var built := React(before.s, es[|es| - 1], senderSsrc, mediaSsrc);
            RunEvents(s, es, senderSsrc, mediaSsrc) == Ran(built.s, before.packets + [built.packet])
  {
    hide React;
  }

  /** The last event of a run. */
  lemma EventOwes(r: State, fbCount: Byte, es: seq<Event>, senderSsrc: U32, mediaSsrc: U32)
    requires es != [] && Fits(es) && Owing(r, Ledger(es[..|es| - 1]))
             && r.fbCount == (fbCount + Spoken(es[..|es| - 1])) % 0x100
    ensures var b := React(r, es[|es| - 1], senderSsrc, mediaSsrc);
            && Owing(b.s, Ledger(es)) && b.s.fbCount == (fbCount + Spoken(es)) % 0x100
            && Answered(fbCount, es, |es| - 1, b.packet)
  {
    hide Owing, Ledger, Spoken, Note, Report, Speaks, Build, Record1, AsOwed, InWindow;
    var before := Ledger(es[..|es| - 1]);
    LastEvent(es);
    CountsOn(fbCount, Spoken(es[..|es| - 1]));
    match es[|es| - 1]
    case Came(a) => CameOwes(r, before, a);
    case Asked => AskedOwes(r, before, senderSsrc, mediaSsrc);
  }

  lemma LastEvent(es: seq<Event>)
    requires es != []
    ensures var before, ev := Ledger(es[..|es| - 1]), es[|es| - 1];
            && Ledger(es) == (if ev.Came? then Note(before, ev.a) else Report(before))
            && Spoken(es) == Spoken(es[..|es| - 1]) + (if ev.Asked? && Speaks(before) then 1 else 0)
  {
    hide Note, Report, Speaks;
  }

  lemma CountsOn(fbCount: Byte, n: nat)
    ensures ((fbCount + n) % 0x100 + 1) % 0x100 == (fbCount + (n + 1)) % 0x100
    ensures ((fbCount + n) % 0x100 + 0) % 0x100 == (fbCount + n) % 0x100
  {
  }

  lemma CleanOwing(s: State, senderSsrc: U32, mediaSsrc: U32)
    requires Clean(s)
    ensures Owing(s, Ledger([])) && s.fbCount == (s.fbCount + Spoken([])) % 0x100
    ensures RunEvents(s, [], senderSsrc, mediaSsrc) == Ran(s, [])
  {
  }

  // ---------------------------------------------------------------- the ledger

  /** Build `m` of the run reports number `k` as received. */
  ghost predicate Says(es: seq<Event>, m: nat, k: int)
    requires m < |es|
  {
    var o := Ledger(es[..m]);
    es[m].Asked? && Speaks(o) && k in o.times && o.lo <= k < o.lo + Block(o)
  }

  ghost predicate OwedNow(es: seq<Event>, k: int) {
    Ledger(es).Owes? && k in Ledger(es).times
  }

  /** Event `i` is the arrival of number `k`, and no build after it has reported `k`. */
  ghost predicate Unreported(es: seq<Event>, i: nat, k: int) {
    && i < |es| && es[i].Came? && es[i].a.number == k
    && forall m :: i < m < |es| ==> !Says(es, m, k)
  }

  lemma LedgerStep(es: seq<Event>, k: int)
    requires es != [] && LedgerSpan(Ledger(es[..|es| - 1]))
    ensures LedgerSpan(Ledger(es))
    ensures OwedNow(es, k) <==>
              (es[|es| - 1].Came? && es[|es| - 1].a.number == k)
                || (OwedNow(es[..|es| - 1], k) && !Says(es, |es| - 1, k))
  {
  }

  ghost predicate LedgerSpan(o: Owed) {
    o.Owes? ==> o.lo <= o.hi && o.hi in o.times && forall k :: k in o.times ==> o.lo <= k <= o.hi
  }

  lemma SaysBefore(es: seq<Event>, n: nat, m: nat, k: int)
    requires m < n <= |es|
    ensures Says(es[..n], m, k) == Says(es, m, k)
  {
    assert es[..n][..m] == es[..m];
  }

  /** Nothing is lost and nothing is reported twice: a number is owed exactly when it came and no build has reported it
      since. */
  lemma {:induction false} OwedExactly(es: seq<Event>, k: int)
    ensures LedgerSpan(Ledger(es))
    ensures OwedNow(es, k) <==> exists i: nat :: Unreported(es, i, k)
  {
    hide LedgerSpan, OwedNow, Ledger, Says;
    if es == [] {
      EmptyLedger(k);
    } else {
      var n := |es| - 1;
      OwedExactly(es[..n], k);
      LedgerStep(es, k);
      forall m | 0 <= m < n ensures Says(es[..n], m, k) == Says(es, m, k) { SaysBefore(es, n, m, k); }
      if i: nat :| Unreported(es, i, k) {
        if i < n { assert Unreported(es[..n], i, k); }
      }
      if es[n].Came? && es[n].a.number == k {
        assert Unreported(es, n, k);
      } else if OwedNow(es, k) {
        var i: nat :| Unreported(es[..n], i, k);
        assert Unreported(es, i, k);
      }
    }
  }

  lemma EmptyLedger(k: int)
    ensures LedgerSpan(Ledger([])) && !OwedNow([], k)
  {
  }

  // ---------------------------------------------------------------- any arrival, in the window or not

  /** The number of the tracked ring that shares its slot with `k`. */
  function Twin(lo: int, k: int): int {
    lo + (k - lo) % RING
  }

  lemma TwinIs(lo: int, k: int)
    ensures lo <= Twin(lo, k) < lo + RING && Twin(lo, k) % RING == k % RING
    ensures lo <= k < lo + RING ==> Twin(lo, k) == k
  {
    var q := (k - lo) / RING;
    assert Twin(lo, k) == k + RING * (-q);
    SmallMultiple(RING, k / RING - q - Twin(lo, k) / RING);
  }

  /** Where the block of the next feedback lies after number `n` came. */
  function BaseWith(lo: int, n: int): int {
    if n < lo then n else lo
  }

  function TopWith(hi: int, n: int): int {
    if n > hi then n else hi
  }

  function BlockWith(lo: int, hi: int, n: int): int {
    var span := TopWith(hi, n) - BaseWith(lo, n) + 1;
    if span < MAX_REPORTED then span else MAX_REPORTED
  }

  /** The statuses found after number `n` came: `k` is said to be received when `n` or a
      tracked number is in its slot. */
  ghost predicate SaidAfter(lo: int, times: map<int, int>, n: int, k: int) {
    Twin(lo, k) in times || k % RING == n % RING
  }

  lemma WidenAny(lo: int, hi: int, n: int)
    requires lo <= hi < lo + RING && -0x8000 <= n - (hi + 1) && n - lo < 0x8000
    ensures var p := Widen(Pending(lo % 0x1_0000, (hi + 1) % 0x1_0000, true), n % 0x1_0000);
            && p == Pending(BaseWith(lo, n) % 0x1_0000, (TopWith(hi, n) + 1) % 0x1_0000, true)
            && Count(p) == BlockWith(lo, hi, n)
  {
    hide SequenceDelta;
    DeltaIs(n, lo);
    DeltaIs(n, hi + 1);
    BaseMoves(n, 1);
    FarDistance(TopWith(hi, n) + 1, BaseWith(lo, n));
  }

  lemma FarDistance(a: int, b: int)
    requires 0 <= a - b < 0x1_0000
    ensures (a % 0x1_0000 - b % 0x1_0000) % 0x1_0000 == a - b
  {
  }

  lemma WindowAfter(s: State, lo: int, hi: int, times: map<int, int>, a: Arrival)
    requires Tracks(s, lo, hi, times) && -0x8000 <= a.number - (hi + 1) && a.number - lo < 0x8000
    ensures var n, after := a.number, Record1(s, a);
            && after.pending.some && after.pending.base == BaseWith(lo, n) % 0x1_0000
            && Count(after.pending) == BlockWith(lo, hi, n)
            && forall k :: BaseWith(lo, n) <= k < BaseWith(lo, n) + BlockWith(lo, hi, n) ==>
                 (Window(after)[k - BaseWith(lo, n)].received <==> SaidAfter(lo, times, n, k))
  {
    hide Count, Holds, Twin;
    var n, base, top := a.number, BaseWith(lo, a.number), TopWith(hi, a.number);
    var after := Record1(s, a);
    WidenAny(lo, hi, n);
    SlotOf(n);
    forall k | base <= k < base + BlockWith(lo, hi, n)
      ensures Window(after)[k - base].received <==> SaidAfter(lo, times, n, k)
    {
      SlotIs(base, top, k - base);
      TwinIs(lo, k);
      HeldAt(s.records, lo, times, Twin(lo, k));
    }
  }

  lemma HeldAt(r: Ring, lo: int, times: map<int, int>, k: int)
    requires Holds(r, lo, times) && lo <= k < lo + RING
    ensures r[k % RING].received <==> k in times
  {
    assert HoldsAt(r, k, times);
  }

  lemma BuildIs(s: State, senderSsrc: U32, mediaSsrc: U32)
    ensures Build(s, senderSsrc, mediaSsrc).packet != [] <==> s.pending.some && Reference(Window(s)).Some?
    ensures Build(s, senderSsrc, mediaSsrc).packet == [] ==> Build(s, senderSsrc, mediaSsrc).s == s
  {
    hide Packet, Window, Reference, Advance;
    if s.pending.some && Reference(Window(s)).Some? {
      PacketIsNotEmpty(s, senderSsrc, mediaSsrc, Reference(Window(s)).value);
    }
  }

  /** What a reader finds in any packet that is built. */
  lemma PacketSays(s: State, senderSsrc: U32, mediaSsrc: U32)
    requires Build(s, senderSsrc, mediaSsrc).packet != []
    ensures var f := ReadFeedback(Build(s, senderSsrc, mediaSsrc).packet);
            && f.Some? && f.value.base == s.pending.base && |f.value.packets| == |Window(s)|
            && forall i :: 0 <= i < |Window(s)| ==> (f.value.packets[i].Some? <==> Window(s)[i].received)
  {
    hide Build, ReadFeedback, Statuses, Window, Reference, TicksAfter;
    var w := Window(s);
    BuiltPacketReads(s, senderSsrc, mediaSsrc);
    StatusesOk(w);
  }

  /** The next feedback after any arrival within half the number circle, in the ring's window or not. A number is said
      to be received when it was recorded, and also when another recorded number shares its slot. */
  lemma ArrivalReported(s: State, lo: int, hi: int, times: map<int, int>, a: Arrival, senderSsrc: U32, mediaSsrc: U32)
    requires Tracks(s, lo, hi, times) && -0x8000 <= a.number - (hi + 1) && a.number - lo < 0x8000
    ensures var n, packet := a.number, Build(Record1(s, a), senderSsrc, mediaSsrc).packet;
            var base, block := BaseWith(lo, n), BlockWith(lo, hi, n);
            && (packet != [] <==> exists k :: base <= k < base + block && SaidAfter(lo, times, n, k))
            && (packet != [] ==> SaysOf(ReadFeedback(packet), base, block, lo, times, n))
  {
    hide Tracks, Build, Record1, ReadFeedback, Window, Reference, SaidAfter;
    var after, n, base := Record1(s, a), a.number, BaseWith(lo, a.number);
    var w := Window(after);
    WindowAfter(s, lo, hi, times, a);
    ReferenceIs(w);
    BuildIs(after, senderSsrc, mediaSsrc);
    if Build(after, senderSsrc, mediaSsrc).packet != [] { PacketSays(after, senderSsrc, mediaSsrc); }
    Shifted(w, base, lo, times, n);
  }

  lemma Shifted(w: seq<Record>, base: int, lo: int, times: map<int, int>, n: int)
    requires forall k :: base <= k < base + |w| ==> (w[k - base].received <==> SaidAfter(lo, times, n, k))
    ensures (exists i :: 0 <= i < |w| && w[i].received)
            <==> exists k :: base <= k < base + |w| && SaidAfter(lo, times, n, k)
  {
    hide SaidAfter;
    if k :| base <= k < base + |w| && SaidAfter(lo, times, n, k) { assert w[k - base].received; }
    if i :| 0 <= i < |w| && w[i].received { assert SaidAfter(lo, times, n, base + i); }
  }

  ghost predicate SaysOf(f: Option<Feedback>, base: int, block: int, lo: int, times: map<int, int>, n: int) {
    && f.Some? && f.value.base == base % 0x1_0000 && |f.value.packets| == block
    && forall k :: base <= k < base + block ==> (f.value.packets[k - base].Some? <==> SaidAfter(lo, times, n, k))
  }

  // ---------------------------------------------------------------- the window is needed

  /** Every status of the block is true of the numbers recorded, the last arrival included. */
  ghost predicate TrueAfter(lo: int, hi: int, times: map<int, int>, n: int) {
    var base := BaseWith(lo, n);
    forall k :: base <= k < base + BlockWith(lo, hi, n) ==> (SaidAfter(lo, times, n, k) <==> k in times || k == n)
  }

  /** No number of the block that did not come shares its slot with one that did. */
  ghost predicate NoStranger(lo: int, hi: int, times: map<int, int>, n: int) {
    var base := BaseWith(lo, n);
    forall k :: base <= k < base + BlockWith(lo, hi, n) && k !in times && k != n ==> !SaidAfter(lo, times, n, k)
  }

  /** The next feedback after any arrival, ahead of the window, in it or behind it, is true
      exactly without strangers. */
  lemma ArrivalIsTrue(lo: int, hi: int, times: map<int, int>, n: int)
    requires InSpan(lo, hi, times)
    ensures TrueAfter(lo, hi, times, n) <==> NoStranger(lo, hi, times, n)
  {
    hide Twin;
    var base := BaseWith(lo, n);
    forall k | base <= k < base + BlockWith(lo, hi, n) && (k in times || k == n) ensures SaidAfter(lo, times, n, k) {
      TwinIs(lo, k);
    }
  }

  /** A number a ring or more ahead of the oldest owed one makes the next feedback false
      exactly when its slot is that of a number of the block that never came. */
  lemma FarAheadIsTrue(lo: int, hi: int, times: map<int, int>, n: int)
    requires InSpan(lo, hi, times) && n - lo >= RING
    ensures TrueAfter(lo, hi, times, n) <==> Twin(lo, n) in times || Twin(lo, n) - lo >= MAX_REPORTED
  {
    hide Twin;
    ArrivalIsTrue(lo, hi, times, n);
    TwinIs(lo, n);
    var m := Twin(lo, n);
    TwinIs(lo, m);
    forall k | lo <= k < lo + MAX_REPORTED && k !in times
      ensures SaidAfter(lo, times, n, k) <==> k == m
    {
      TwinIs(lo, k);
      if k % RING == n % RING { SameSlot(k, m); }
    }
  }

  /** A number behind the oldest owed one makes the next feedback false exactly when a number a ring or more ahead of it
      was recorded whose slot is that of another number of the block. */
  lemma FarBehindIsTrue(lo: int, hi: int, times: map<int, int>, n: int)
    requires InSpan(lo, hi, times) && n < lo
    ensures TrueAfter(lo, hi, times, n)
            <==> forall m :: m in times && m - n >= RING ==> (m - n) % RING == 0 || (m - n) % RING >= MAX_REPORTED
  {
    hide Twin;
    ArrivalIsTrue(lo, hi, times, n);
    forall m | m in times && m - n >= RING && 0 < (m - n) % RING < MAX_REPORTED
      ensures !NoStranger(lo, hi, times, n)
    {
      var k := n + (m - n) % RING;
      Folded(n, m);
      TwinIs(lo, k);
      SameSlot(Twin(lo, k), m);
      NotBoth(lo, times, k, m);
      assert SaidAfter(lo, times, n, k) && k !in times && k != n;
    }
    forall k | n < k < n + BlockWith(lo, hi, n) && k !in times && SaidAfter(lo, times, n, k)
      ensures Twin(lo, k) in times && Twin(lo, k) - n >= RING && 0 < (Twin(lo, k) - n) % RING < MAX_REPORTED
    {
      TwinIs(lo, k);
      if k % RING == n % RING { SameSlot(k, n); }
      Unfolded(n, k, Twin(lo, k));
    }
  }

  lemma Folded(n: int, m: int)
    ensures (n + (m - n) % RING) % RING == m % RING
  {
    TwinIs(n, m);
  }

  lemma Unfolded(n: int, k: int, m: int)
    requires n < k < n + MAX_REPORTED && k % RING == m % RING && m > n && m != k
    ensures m - n >= RING && (m - n) % RING == k - n
  {
    if m - n < RING { SameSlot(m, k); }
  }

  /** Of two numbers of one slot a ring apart at most one is tracked. */
  lemma NotBoth(lo: int, times: map<int, int>, k: int, m: int)
    requires (forall x :: x in times ==> lo <= x < lo + RING) && m in times && k % RING == m % RING && k != m
    ensures k !in times
  {
    if k in times { SameSlot(k, m); }
  }

  /** Within the window every status is true. */
  lemma InWindowIsTrue(lo: int, hi: int, times: map<int, int>, n: int)
    requires InSpan(lo, hi, times) && InWindow(Owes(lo, hi, times), n)
    ensures TrueAfter(lo, hi, times, n)
  {
    hide Twin;
    ArrivalIsTrue(lo, hi, times, n);
    var base := BaseWith(lo, n);
    forall k | base <= k < base + BlockWith(lo, hi, n) && k !in times && k != n
      ensures !SaidAfter(lo, times, n, k)
    {
      TwinIs(lo, k);
      var m := Twin(lo, k);
      if k % RING == n % RING { SameSlot(k, n); }
      if m in times { SameSlot(m, k); }
    }
  }

  /** The feedback starts at number `base` and says that the number `i` further on was received. */
  ghost predicate SaysReceived(packet: Bytes, base: int, i: nat) {
    var f := ReadFeedback(packet);
    f.Some? && f.value.base == base % 0x1_0000 && i < |f.value.packets| && f.value.packets[i].Some?
  }

  /** Two arrivals 600 numbers apart, and a build. */
  function GapRun(a: Arrival, b: Arrival): seq<Event> {
    [Came(a), Came(b), Asked]
  }

  /** An input that leaves the window: after the gap, the next feedback says of a number that never came that it was
      received, because the number a ring ahead of it has. */
  lemma FalseReception(s: State, lo: int, us: int, size: U16, senderSsrc: U32, mediaSsrc: U32)
    requires Clean(s)
    ensures var never := lo + MAX_REPORTED;
            var r := RunEvents(s, GapRun(Arrival(lo, us, size), Arrival(lo + 600, us, size)), senderSsrc, mediaSsrc);
            SaysReceived(Build(Record1(r.s, Arrival(never + RING, us, size)), senderSsrc, mediaSsrc).packet, never, 0)
  {
    hide Clean, Tracks, Build, Record1, ReadFeedback, RunEvents, Fits, Ledger, GapRun;
    var a, b := Arrival(lo, us, size), Arrival(lo + 600, us, size);
    GapLedger(a, b);
    RunReports(s, GapRun(a, b), senderSsrc, mediaSsrc);
    var r, never := RunEvents(s, GapRun(a, b), senderSsrc, mediaSsrc).s, lo + MAX_REPORTED;
    var times := map[lo + 600 := us];
    ArrivalReported(r, never, lo + 600, times, Arrival(never + RING, us, size), senderSsrc, mediaSsrc);
    Around(never + RING);
    assert SaidAfter(never, times, never + RING, never);
  }

  lemma GapLedger(a: Arrival, b: Arrival)
    requires b.number == a.number + 600
    ensures Fits(GapRun(a, b))
    ensures Ledger(GapRun(a, b)) == Owes(a.number + MAX_REPORTED, b.number, map[b.number := b.us])
  {
    var one, two, es := [Came(a)], [Came(a), Came(b)], GapRun(a, b);
    assert one[..0] == [] && two[..1] == one && es[..2] == two;
    var o := Owes(a.number, b.number, map[a.number := a.us, b.number := b.us]);
    assert Ledger([]) == Nothing;
    LastEvent(one);
    LastEvent(two);
    LastEvent(es);
    assert Ledger(two) == o;
    GapReport(a, b);
    assert InWindow(Ledger(one), b.number);
    assert Fits([]) && Fits(one);
    assert Fits(two);
  }

  lemma GapReport(a: Arrival, b: Arrival)
    requires b.number == a.number + 600
    ensures Report(Owes(a.number, b.number, map[a.number := a.us, b.number := b.us]))
            == Owes(a.number + MAX_REPORTED, b.number, map[b.number := b.us])
  {
    var times := map[a.number := a.us, b.number := b.us];
    assert a.number in times;
    assert From(times, a.number + MAX_REPORTED) == map[b.number := b.us];
  }

  // ---------------------------------------------------------------- stalls

  /** A full block is due and no slot of it holds a reception. */
  ghost predicate Stalled(s: State) {
    s.pending.some && Count(s.pending) == MAX_REPORTED && Reference(Window(s)).None?
  }

  /** A reception is due. */
  ghost predicate Ready(s: State) {
    s.pending.some && Reference(Window(s)).Some?
  }

  /** The packet falls into a slot of the block that starts at `base`, or before it. */
  predicate Fills(base: U16, n: U16) {
    SequenceDelta(n, base) < 0 || SequenceDelta(n, base) % RING < MAX_REPORTED
  }

  lemma WidenBase(p: Pending, n: U16)
    requires p.some
    ensures Widen(p, n).some
    ensures Widen(p, n).base == if SequenceDelta(n, p.base) < 0 then n else p.base
    ensures Widen(p, n) == Pending(Widen(p, n).base, p.end, true)
            || Widen(p, n) == Pending(Widen(p, n).base, (n + 1) % 0x1_0000, true)
  {
    hide SequenceDelta;
  }

  /** Ahead of the base, the block reaches the packet or keeps its length, and a full block stays full. */
  lemma WidenCount(p: Pending, n: U16)
    requires p.some && SequenceDelta(n, p.base) >= 0
    ensures Count(Widen(p, n)) >= Least(Count(p), SequenceDelta(n, p.base) + 1)
    ensures Count(p) == MAX_REPORTED && SequenceDelta(n, p.base) >= MAX_REPORTED ==> Count(Widen(p, n)) == MAX_REPORTED
  {
    WidenBase(p, n);
    AheadIs(p.base, n);
    AheadIs(p.base, p.end);
  }

  lemma AheadIs(base: U16, n: U16)
    ensures SequenceDelta(n, base) >= 0 ==> (n - base) % 0x1_0000 == SequenceDelta(n, base) < 0x8000
    ensures SequenceDelta(n, base) >= 0 ==> ((n + 1) % 0x1_0000 - base) % 0x1_0000 == SequenceDelta(n, base) + 1
  {
  }

  lemma SlotAhead(p: Pending, n: U16, i: nat)
    requires SequenceDelta(n, p.base) >= 0
    ensures Slot(p, i) == n % RING <==> (SequenceDelta(n, p.base) - i) % RING == 0
  {
    var d := SequenceDelta(n, p.base);
    AheadIs(p.base, n);
    SlotOf(p.base + i);
    SlotOf(p.base + d);
    assert (p.base + d) % 0x1_0000 == n;
    SameResidue(p.base + i, p.base + d);
  }

  lemma SameResidue(a: int, b: int)
    ensures a % RING == b % RING <==> (b - a) % RING == 0
  {
  }

  /** A reception in the window is due. */
  lemma ReadyWhen(s: State, i: nat)
    requires s.pending.some && i < Count(s.pending) && s.records[Slot(s.pending, i)].received
    ensures Ready(s)
  {
    hide Count, Slot, Reference;
    ReferenceIs(Window(s));
    assert Window(s)[i].received;
  }

  lemma BeforeBase(s: State, n: U16, us: int, size: U16)
    requires s.pending.some && SequenceDelta(n, s.pending.base) < 0
    ensures Ready(OnPacket(s, n, us, size))
  {
    var after := OnPacket(s, n, us, size);
    assert after.pending.base == n && after.pending.end != n;
    assert Count(after.pending) > 0 && Slot(after.pending, 0) == n % RING;
    ReadyWhen(after, 0);
  }

  lemma AheadOfBase(s: State, n: U16, us: int, size: U16)
    requires s.pending.some && SequenceDelta(n, s.pending.base) >= 0
    ensures var after := OnPacket(s, n, us, size);
            && after.pending.some && after.pending.base == s.pending.base
            && forall i: nat :: after.records[Slot(after.pending, i)]
                                == if (SequenceDelta(n, s.pending.base) - i) % RING == 0 then Record(us, size, true)
                                   else s.records[Slot(s.pending, i)]
  {
    hide SequenceDelta;
    WidenBase(s.pending, n);
    forall i: nat { SlotAhead(s.pending, n, i); }
  }

  lemma StallStep(s: State, n: U16, us: int, size: U16)
    requires Stalled(s)
    ensures var after := OnPacket(s, n, us, size);
            if Fills(s.pending.base, n) then Ready(after) else Stalled(after) && after.pending.base == s.pending.base
  {
    hide SequenceDelta, Slot, Count, Reference, OnPacket;
    var after, d := OnPacket(s, n, us, size), SequenceDelta(n, s.pending.base);
    if d < 0 {
      BeforeBase(s, n, us, size);
    } else {
      AheadOfBase(s, n, us, size);
      CountAfter(s, n, us, size);
      if d % RING < MAX_REPORTED {
        InBlock(d);
        ReadyWhen(after, d % RING);
      } else {
        NoneReceived(s);
        forall i | 0 <= i < MAX_REPORTED ensures !Window(after)[i].received {
          OffBlock(d, i);
          assert !s.records[Slot(s.pending, i)].received;
        }
        ReferenceIs(Window(after));
      }
    }
  }

  lemma CountAfter(s: State, n: U16, us: int, size: U16)
    requires s.pending.some && SequenceDelta(n, s.pending.base) >= 0
    ensures Count(OnPacket(s, n, us, size).pending) >= Least(Count(s.pending), SequenceDelta(n, s.pending.base) + 1)
    ensures Count(s.pending) == MAX_REPORTED && SequenceDelta(n, s.pending.base) >= MAX_REPORTED ==>
              Count(OnPacket(s, n, us, size).pending) == MAX_REPORTED
  {
    hide Count, SequenceDelta;
    WidenCount(s.pending, n);
  }

  lemma InBlock(d: nat)
    ensures (d - d % RING) % RING == 0
    ensures d % RING <= d
  {
  }

  lemma OffBlock(d: nat, i: nat)
    requires d % RING >= MAX_REPORTED && i < MAX_REPORTED
    ensures (d - i) % RING != 0
  {
  }

  lemma NoneReceived(s: State)
    requires Reference(Window(s)).None?
    ensures forall i :: 0 <= i < Count(s.pending) ==> !s.records[Slot(s.pending, i)].received
  {
    hide Slot, Count, Reference;
    ReferenceIs(Window(s));
    forall i | 0 <= i < Count(s.pending) ensures !s.records[Slot(s.pending, i)].received {
      assert !Window(s)[i].received;
    }
  }

  /** A reception that is due stays due whatever arrives. */
  lemma ReadyStays(s: State, n: U16, us: int, size: U16)
    requires Ready(s)
    ensures Ready(OnPacket(s, n, us, size))
  {
    hide SequenceDelta, Slot, Count, Reference, OnPacket;
    var after, d := OnPacket(s, n, us, size), SequenceDelta(n, s.pending.base);
    if d < 0 {
      BeforeBase(s, n, us, size);
    } else {
      AheadOfBase(s, n, us, size);
      CountAfter(s, n, us, size);
      ReferenceIs(Window(s));
      var i :| 0 <= i < |Window(s)| && Window(s)[i].received;
      if i < Count(after.pending) {
        ReadyWhen(after, i);
      } else {
        ReadyWhen(after, d);
      }
    }
  }

  // ---------------------------------------------------------------- how long a stall lasts

  /** A packet with its 16-bit number as it comes from the wire, or a request for feedback. */
  datatype Input = Got(n: U16, us: int, size: U16) | Due

  function Take(s: State, ev: Input, senderSsrc: U32, mediaSsrc: U32): Built {
    match ev
    case Got(n, us, size) => Built(OnPacket(s, n, us, size), [])
    case Due => Build(s, senderSsrc, mediaSsrc)
  }

  function RunInputs(s: State, es: seq<Input>, senderSsrc: U32, mediaSsrc: U32): (r: Ran)
    ensures |r.packets| == |es|
  {
    if es == [] then Ran(s, [])
    else
      var before := RunInputs(s, es[..|es| - 1], senderSsrc, mediaSsrc);
      var built := Take(before.s, es[|es| - 1], senderSsrc, mediaSsrc);
      Ran(built.s, before.packets + [built.packet])
  }

  predicate Filled(es: seq<Input>, base: U16) {
    exists i :: 0 <= i < |es| && es[i].Got? && Fills(base, es[i].n)
  }

  /** A build comes after a packet that fills a slot of the block. */
  predicate BuiltAfterFilling(es: seq<Input>, base: U16) {
    exists m :: 0 <= m < |es| && es[m].Due? && Filled(es[..m], base)
  }

  predicate Spoke(packets: seq<Bytes>) {
    exists m :: 0 <= m < |packets| && packets[m] != []
  }

  ghost predicate StallsUntil(s: State, es: seq<Input>, r: Ran) {
    && (Spoke(r.packets) <==> BuiltAfterFilling(es, s.pending.base))
    && (!Spoke(r.packets) ==>
          if Filled(es, s.pending.base) then Ready(r.s) else Stalled(r.s) && r.s.pending.base == s.pending.base)
  }

  /** A stall lasts exactly until a packet falls into the silent block or before it. Over any run from a stalled state
      something is reported if and only if a build comes after such a packet; without one the receiver stays stalled
      at the same block, whatever else arrives and however often feedback is asked for. */
  lemma {:induction false} StallLasts(s: State, es: seq<Input>, senderSsrc: U32, mediaSsrc: U32)
    requires Stalled(s)
    ensures StallsUntil(s, es, RunInputs(s, es, senderSsrc, mediaSsrc))
  {
    hide Stalled, Ready, Fills, Build, OnPacket, Filled, BuiltAfterFilling, Spoke;
    var base := s.pending.base;
    if es == [] {
      NothingYet(base);
    } else {
      var before, ev := RunInputs(s, es[..|es| - 1], senderSsrc, mediaSsrc), es[|es| - 1];
      StallLasts(s, es[..|es| - 1], senderSsrc, mediaSsrc);
      FilledSnoc(es, base);
      SpokeSnoc(before.packets, Take(before.s, ev, senderSsrc, mediaSsrc).packet);
      if !Spoke(before.packets) {
        StalledInput(before.s, ev, base, Filled(es[..|es| - 1], base), senderSsrc, mediaSsrc);
      }
    }
  }

  /** One event while nothing has been reported. */
  lemma StalledInput(s: State, ev: Input, base: U16, filled: bool, senderSsrc: U32, mediaSsrc: U32)
    requires if filled then Ready(s) else Stalled(s) && s.pending.base == base
    ensures var b := Take(s, ev, senderSsrc, mediaSsrc);
            if ev.Due? then (b.packet != [] <==> filled) && (!filled ==> b.s == s)
            else b.packet == []
                 && if filled || Fills(base, ev.n) then Ready(b.s) else Stalled(b.s) && b.s.pending.base == base
  {
    hide Fills, Build, OnPacket, Reference, Count;
    match ev
    case Got(n, us, size) => if filled { ReadyStays(s, n, us, size); } else { StallStep(s, n, us, size); }
    case Due => BuildIs(s, senderSsrc, mediaSsrc);
  }

  lemma NothingYet(base: U16)
    ensures !Filled([], base) && !BuiltAfterFilling([], base) && !Spoke([])
  {
  }

  lemma FilledSnoc(es: seq<Input>, base: U16)
    requires es != []
    ensures var earlier, ev := es[..|es| - 1], es[|es| - 1];
            && (Filled(es, base) <==> Filled(earlier, base) || (ev.Got? && Fills(base, ev.n)))
            && (BuiltAfterFilling(es, base) <==> BuiltAfterFilling(earlier, base) || (ev.Due? && Filled(earlier, base)))
  {
    hide Fills;
    var earlier, n := es[..|es| - 1], |es| - 1;
    assert earlier == es[..n];
    if i :| 0 <= i < |es| && es[i].Got? && Fills(base, es[i].n) {
      if i < n { assert earlier[i] == es[i]; }
    }
    if i :| 0 <= i < n && earlier[i].Got? && Fills(base, earlier[i].n) { assert es[i] == earlier[i]; }
    forall m | 0 <= m < n ensures earlier[..m] == es[..m] && earlier[m] == es[m] {}
  }

  lemma SpokeSnoc(packets: seq<Bytes>, p: Bytes)
    ensures Spoke(packets + [p]) <==> Spoke(packets) || p != []
  {
    var all := packets + [p];
    assert all[|packets|] == p;
    if m :| 0 <= m < |packets| && packets[m] != [] { assert all[m] == packets[m]; }
  }

  /** A receiver whose next block is silent is stalled. */
  lemma SilentIsStalled(s: State, lo: int, hi: int, times: map<int, int>)
    requires Tracks(s, lo, hi, times) && !Heard(times, lo, Least(MAX_REPORTED, hi - lo + 1))
    ensures Stalled(s) && s.pending.base == lo % 0x1_0000
  {
    hide Holds, Count, Reference;
    CountIs(s, lo, hi, times);
    HeardIs(s, lo, hi, times);
  }
}
