/** When feedback tells the truth: over any run of packets and builds, with no bound on the
    numbers, which statuses a build writes and exactly when they are true of the numbers that came. */
module TwccTruth {
  import opened Wire
  import opened TwccModel
  import opened TwccFeedback
  import opened TwccCoverage
  import opened TwccRuns

  // ---------------------------------------------------------------- what packets speak of

  /** The number of status `k`. */
  function NumberOf(f: Feedback, k: nat): U16 {
    (f.base + k) % 0x1_0000
  }

  /** The packet has a status, received or not, for number `w`. */
  ghost predicate Covers(packet: Bytes, w: U16) {
    var f := ReadFeedback(packet);
    f.Some? && exists k :: 0 <= k < |f.value.packets| && NumberOf(f.value, k) == w
  }

  /** The packet has a status for some number of slot `j`. */
  ghost predicate CoversSlot(packet: Bytes, j: nat) {
    var f := ReadFeedback(packet);
    f.Some? && exists k :: 0 <= k < |f.value.packets| && NumberOf(f.value, k) % RING == j
  }

  lemma NumberThenSlot(packet: Bytes, w: U16)
    ensures Covers(packet, w) ==> CoversSlot(packet, w % RING)
  {
    hide ReadFeedback, NumberOf;
  }

  lemma EmptyCovers(w: U16, j: nat)
    ensures !Covers([], w) && !CoversSlot([], j)
  {
  }

  // ---------------------------------------------------------------- what came since

  /** Event `i` is a packet of slot `j`, and nothing of the slot has been reported since. */
  ghost predicate Marks(es: seq<Input>, packets: seq<Bytes>, i: nat, j: nat)
    requires |packets| == |es|
  {
    && i < |es| && es[i].Got? && es[i].n % RING == j
    && forall m :: i < m < |es| ==> !CoversSlot(packets[m], j)
  }

  /** A packet of slot `j` came since anything of the slot was reported. */
  ghost predicate Marked(es: seq<Input>, packets: seq<Bytes>, j: nat)
    requires |packets| == |es|
  {
    exists i: nat :: Marks(es, packets, i, j)
  }

  /** Event `i` is the packet of number `w`, and nothing has been reported of the number since. */
  ghost predicate Awaits(es: seq<Input>, packets: seq<Bytes>, i: nat, w: U16)
    requires |packets| == |es|
  {
    && i < |es| && es[i].Got? && es[i].n == w
    && forall m :: i < m < |es| ==> !Covers(packets[m], w)
  }

  /** Number `w` came since it was last reported. */
  ghost predicate Came16(es: seq<Input>, packets: seq<Bytes>, w: U16)
    requires |packets| == |es|
  {
    exists i: nat :: Awaits(es, packets, i, w)
  }

  lemma MarkedSnoc(es: seq<Input>, packets: seq<Bytes>, ev: Input, p: Bytes, j: nat)
    requires |packets| == |es|
    ensures Marked(es + [ev], packets + [p], j)
            <==> (ev.Got? && ev.n % RING == j) || (Marked(es, packets, j) && !CoversSlot(p, j))
  {
    hide CoversSlot;
    var all, out, n := es + [ev], packets + [p], |es|;
    assert all[n] == ev && out[n] == p;
    assert forall m :: 0 <= m < n ==> all[m] == es[m] && out[m] == packets[m];
    if i: nat :| Marks(all, out, i, j) {
      if i < n { assert Marks(es, packets, i, j); }
    }
    if ev.Got? && ev.n % RING == j { assert Marks(all, out, n, j); }
    if Marked(es, packets, j) && !CoversSlot(p, j) {
      var i: nat :| Marks(es, packets, i, j);
      assert Marks(all, out, i, j);
    }
  }

  // ---------------------------------------------------------------- slots over runs

  /** No slot of the ring holds a reception. */
  ghost predicate Silent(s: State) {
    forall j :: 0 <= j < RING ==> !s.records[j].received
  }

  /** A slot of the ring holds a reception exactly when it is marked. */
  ghost predicate SlotsAgree(s: State, es: seq<Input>, packets: seq<Bytes>)
    requires |packets| == |es|
  {
    forall j :: 0 <= j < RING ==> (s.records[j].received <==> Marked(es, packets, j))
  }

  lemma {:induction false} ClearedIs(s: State, n: nat, j: nat)
    requires j < RING
    ensures Cleared(s, n)[j] == if exists i :: 0 <= i < n && Slot(s.pending, i) == j then EMPTY else s.records[j]
  {
    hide Slot;
    if n > 0 {
      ClearedIs(s, n - 1, j);
      if Slot(s.pending, n - 1) == j { assert exists i :: 0 <= i < n && Slot(s.pending, i) == j; }
    }
  }

  /** A build that speaks empties just the slots it reports. */
  lemma BuildEmpties(s: State, senderSsrc: U32, mediaSsrc: U32, j: nat)
    requires j < RING && Build(s, senderSsrc, mediaSsrc).packet != []
    ensures var b := Build(s, senderSsrc, mediaSsrc);
            b.s.records[j] == if CoversSlot(b.packet, j) then EMPTY else s.records[j]
  {
    hide ReadFeedback, Cleared, Window, Count, Reference, Packet;
    PacketSays(s, senderSsrc, mediaSsrc);
    ClearedIs(s, Count(s.pending), j);
    var f := ReadFeedback(Build(s, senderSsrc, mediaSsrc).packet).value;
    WindowLength(s);
    forall k: nat ensures NumberOf(f, k) % RING == Slot(s.pending, k) {}
  }

  lemma WindowLength(s: State)
    ensures |Window(s)| == Count(s.pending)
  {
  }

  lemma BuildSlots(s: State, senderSsrc: U32, mediaSsrc: U32, j: nat)
    requires j < RING
    ensures var b := Build(s, senderSsrc, mediaSsrc);
            b.s.records[j].received <==> s.records[j].received && !CoversSlot(b.packet, j)
  {
    hide Build, CoversSlot;
    BuildIs(s, senderSsrc, mediaSsrc);
    EmptyCovers(0, j);
    if Build(s, senderSsrc, mediaSsrc).packet != [] { BuildEmpties(s, senderSsrc, mediaSsrc, j); }
  }

  /** Over any run from an empty ring the slots hold just what came since they were last reported. */
  lemma {:induction false} SlotsOverRuns(s: State, es: seq<Input>, senderSsrc: U32, mediaSsrc: U32)
    requires Silent(s)
    ensures SlotsAgree(RunInputs(s, es, senderSsrc, mediaSsrc).s, es, RunInputs(s, es, senderSsrc, mediaSsrc).packets)
  {
    hide Marked, CoversSlot, Build;
    if es == [] {
      forall j: nat ensures !Marked([], [], j) { NothingMarked(j); }
    } else {
      var earlier, ev := es[..|es| - 1], es[|es| - 1];
      var before := RunInputs(s, earlier, senderSsrc, mediaSsrc);
      var b := Take(before.s, ev, senderSsrc, mediaSsrc);
      SlotsOverRuns(s, earlier, senderSsrc, mediaSsrc);
      assert es == earlier + [ev];
      forall j | 0 <= j < RING
        ensures b.s.records[j].received <==> Marked(es, before.packets + [b.packet], j)
      {
        MarkedSnoc(earlier, before.packets, ev, b.packet, j);
        EmptyCovers(0, j);
        if ev.Due? { BuildSlots(before.s, senderSsrc, mediaSsrc, j); }
      }
    }
  }

  lemma NothingMarked(j: nat)
    ensures !Marked([], [], j)
  {
  }

  // ---------------------------------------------------------------- what a build says after any run

  /** Each status of the packet says whether its slot is marked. */
  ghost predicate SaysMarks(packet: Bytes, es: seq<Input>, packets: seq<Bytes>)
    requires |packets| == |es|
  {
    var f := ReadFeedback(packet);
    && f.Some?
    && forall k :: 0 <= k < |f.value.packets| ==>
         (f.value.packets[k].Some? <==> Marked(es, packets, NumberOf(f.value, k) % RING))
  }

  /** After any run from an empty ring, whatever the numbers: the statuses of a feedback packet are exactly the marks of
      the slots. */
  lemma StatusesAreMarks(s: State, es: seq<Input>, senderSsrc: U32, mediaSsrc: U32)
    requires Silent(s)
    ensures var r := RunInputs(s, es, senderSsrc, mediaSsrc);
            var packet := Build(r.s, senderSsrc, mediaSsrc).packet;
            packet != [] ==> SaysMarks(packet, es, r.packets)
  {
    hide ReadFeedback, Build, Marked, Silent, RunInputs;
    var r := RunInputs(s, es, senderSsrc, mediaSsrc);
    SlotsOverRuns(s, es, senderSsrc, mediaSsrc);
    var packet := Build(r.s, senderSsrc, mediaSsrc).packet;
    if packet != [] {
      PacketSays(r.s, senderSsrc, mediaSsrc);
      var f := ReadFeedback(packet).value;
      forall k | 0 <= k < |f.packets|
        ensures f.packets[k].Some? <==> Marked(es, r.packets, NumberOf(f, k) % RING)
      {
        assert Window(r.s)[k] == r.s.records[Slot(r.s.pending, k)];
        assert NumberOf(f, k) % RING == Slot(r.s.pending, k);
      }
    }
  }

  // ---------------------------------------------------------------- when it is true

  /** Every status of the packet says whether its number came since it was last reported. */
  ghost predicate TellsTruth(packet: Bytes, es: seq<Input>, packets: seq<Bytes>)
    requires |packets| == |es|
  {
    var f := ReadFeedback(packet);
    && f.Some?
    && forall k :: 0 <= k < |f.value.packets| ==>
         (f.value.packets[k].Some? <==> Came16(es, packets, NumberOf(f.value, k)))
  }

  /** Another number of the slot came since anything of the slot was reported, ahead of `w` or
      behind, and `w` did not come since it was. */
  ghost predicate Mistaken(es: seq<Input>, packets: seq<Bytes>, w: U16)
    requires |packets| == |es|
  {
    && (exists i: nat :: Marks(es, packets, i, w % RING) && es[i].n != w)
    && !Came16(es, packets, w)
  }

  /** The report at `c` speaks of slot `j`, and no packet of the slot came after it. */
  ghost predicate LastWord(es: seq<Input>, packets: seq<Bytes>, c: nat, j: nat)
    requires |packets| == |es|
  {
    && c < |es| && CoversSlot(packets[c], j)
    && forall i :: c <= i < |es| ==> !(es[i].Got? && es[i].n % RING == j)
  }

  /** `w` came, and before it was reported a packet reported another number of its slot;
      nothing of the slot came since. */
  ghost predicate Forgotten(es: seq<Input>, packets: seq<Bytes>, w: U16)
    requires |packets| == |es|
  {
    exists i: nat, c: nat :: Awaits(es, packets, i, w) && i < c && LastWord(es, packets, c, w % RING)
  }

  lemma OwnMark(es: seq<Input>, packets: seq<Bytes>, i: nat)
    requires |packets| == |es| && i < |es| && es[i].Got? && Marks(es, packets, i, es[i].n % RING)
    ensures Awaits(es, packets, i, es[i].n)
  {
    hide CoversSlot, Covers;
    forall m | i < m < |es| ensures !Covers(packets[m], es[i].n) { NumberThenSlot(packets[m], es[i].n); }
  }

  /** The last report of a slot, if there is one after event `i`. */
  lemma {:induction false} LastReport(packets: seq<Bytes>, i: nat, m: nat, j: nat) returns (c: nat)
    requires i < m < |packets| && CoversSlot(packets[m], j)
    ensures m <= c < |packets| && CoversSlot(packets[c], j) && forall x :: c < x < |packets| ==>
              !CoversSlot(packets[x], j)
    decreases |packets| - m
  {
    hide CoversSlot;
    if x :| m < x < |packets| && CoversSlot(packets[x], j) {
      c := LastReport(packets, i, x, j);
    } else {
      c := m;
    }
  }

  /** An unmarked number that came was forgotten. */
  lemma UnmarkedIsForgotten(es: seq<Input>, packets: seq<Bytes>, w: U16)
    requires |packets| == |es|
    ensures Came16(es, packets, w) && !Marked(es, packets, w % RING) ==> Forgotten(es, packets, w)
  {
    hide CoversSlot, Covers;
    var j := w % RING;
    if Came16(es, packets, w) && !Marked(es, packets, j) {
      var i: nat :| Awaits(es, packets, i, w);
      assert !Marks(es, packets, i, j);
      var m :| i < m < |es| && CoversSlot(packets[m], j);
      var c := LastReport(packets, i, m, j);
      forall x | c <= x < |es| ensures !(es[x].Got? && es[x].n % RING == j) { assert !Marks(es, packets, x, j); }
      assert LastWord(es, packets, c, j);
    }
  }

  lemma ForgottenIsUnmarked(es: seq<Input>, packets: seq<Bytes>, w: U16)
    requires |packets| == |es| && Forgotten(es, packets, w)
    ensures Came16(es, packets, w) && !Marked(es, packets, w % RING)
  {
    hide CoversSlot, Covers;
    var i: nat, c: nat :| Awaits(es, packets, i, w) && i < c && LastWord(es, packets, c, w % RING);
    forall x: nat ensures !Marks(es, packets, x, w % RING) {}
  }

  /** One number: its slot tells the truth exactly when it is neither mistaken nor forgotten. */
  lemma SlotIsTrue(es: seq<Input>, packets: seq<Bytes>, w: U16)
    requires |packets| == |es|
    ensures (Marked(es, packets, w % RING) <==> Came16(es, packets, w))
            <==> !Mistaken(es, packets, w) && !Forgotten(es, packets, w)
  {
    hide CoversSlot, Covers, LastWord;
    UnmarkedIsForgotten(es, packets, w);
    if Forgotten(es, packets, w) { ForgottenIsUnmarked(es, packets, w); }
    if Marked(es, packets, w % RING) && !Came16(es, packets, w) {
      var i: nat :| Marks(es, packets, i, w % RING);
      OwnMark(es, packets, i);
      assert es[i].n != w;
    }
  }

  /** Some number of the packet is mistaken for another of its slot, or was forgotten for one. */
  ghost predicate Interfered(packet: Bytes, es: seq<Input>, packets: seq<Bytes>)
    requires |packets| == |es|
  {
    exists w: U16 :: Covers(packet, w) && (Mistaken(es, packets, w) || Forgotten(es, packets, w))
  }

  /** Over any run from an empty ring, with no bound on the numbers: a feedback packet is true
      if and only if none of its numbers shares its slot with another number that came, or was
      reported, in the meantime. */
  lemma TrueExactly(s: State, es: seq<Input>, senderSsrc: U32, mediaSsrc: U32)
    requires Silent(s)
    ensures var r := RunInputs(s, es, senderSsrc, mediaSsrc);
            var packet := Build(r.s, senderSsrc, mediaSsrc).packet;
            packet != [] ==> (TellsTruth(packet, es, r.packets) <==> !Interfered(packet, es, r.packets))
  {
    hide ReadFeedback, Build, Marked, Came16, Mistaken, Forgotten, Silent, RunInputs, NumberOf;
    var r := RunInputs(s, es, senderSsrc, mediaSsrc);
    var packet := Build(r.s, senderSsrc, mediaSsrc).packet;
    StatusesAreMarks(s, es, senderSsrc, mediaSsrc);
    if packet != [] {
      var f := ReadFeedback(packet).value;
      forall k | 0 <= k < |f.packets|
        ensures (f.packets[k].Some? <==> Came16(es, r.packets, NumberOf(f, k)))
                <==> !Mistaken(es, r.packets, NumberOf(f, k)) && !Forgotten(es, r.packets, NumberOf(f, k))
      {
        SlotIsTrue(es, r.packets, NumberOf(f, k));
      }
      if Interfered(packet, es, r.packets) {
        var w: U16 :| Covers(packet, w) && (Mistaken(es, r.packets, w) || Forgotten(es, r.packets, w));
        var k :| 0 <= k < |f.packets| && NumberOf(f, k) == w;
      }
    }
  }

  // ---------------------------------------------------------------- every packet of a run

  lemma {:induction false} RunPrefix(s: State, es: seq<Input>, m: nat, senderSsrc: U32, mediaSsrc: U32)
    requires m <= |es|
    ensures RunInputs(s, es, senderSsrc, mediaSsrc).packets[..m] == RunInputs(s, es[..m], senderSsrc, mediaSsrc).packets
    ensures m < |es| ==>
              RunInputs(s, es, senderSsrc, mediaSsrc).packets[m]
              == Take(RunInputs(s, es[..m], senderSsrc, mediaSsrc).s, es[m], senderSsrc, mediaSsrc).packet
    decreases |es|
  {
    hide Take;
    if m == |es| {
      assert es[..m] == es;
    } else {
      var last := |es| - 1;
      assert m < last ==> es[..last][..m] == es[..m];
      if m < last { RunPrefix(s, es[..last], m, senderSsrc, mediaSsrc); }
    }
  }

  /** The same of every packet of a run: each is true if and only if nothing interfered with its numbers up to then. */
  lemma RunIsTrueExactly(s: State, es: seq<Input>, m: nat, senderSsrc: U32, mediaSsrc: U32)
    requires Silent(s) && m < |es|
    ensures var packets := RunInputs(s, es, senderSsrc, mediaSsrc).packets;
            packets[m] != [] ==>
              (TellsTruth(packets[m], es[..m], packets[..m]) <==> !Interfered(packets[m], es[..m], packets[..m]))
  {
    hide Build, TellsTruth, Interfered, Silent, RunInputs;
    RunPrefix(s, es, m, senderSsrc, mediaSsrc);
    TrueExactly(s, es[..m], senderSsrc, mediaSsrc);
  }

  // ---------------------------------------------------------------- within the window nothing interferes

  function Cut(es: seq<Event>): (cut: seq<Input>)
    ensures |cut| == |es|
  {
    if es == [] then []
    else
      var ev := es[|es| - 1];
      Cut(es[..|es| - 1]) + [if ev.Came? then Got(ev.a.number % 0x1_0000, ev.a.us, ev.a.size) else Due]
  }

  lemma {:induction false} CutAt(es: seq<Event>, i: nat)
    requires i < |es|
    ensures Cut(es)[i] == if es[i].Came? then Got(es[i].a.number % 0x1_0000, es[i].a.us, es[i].a.size) else Due
    decreases |es|
  {
    if i < |es| - 1 { CutAt(es[..|es| - 1], i); }
  }

  lemma {:induction false} SameRun(s: State, es: seq<Event>, senderSsrc: U32, mediaSsrc: U32)
    ensures RunInputs(s, Cut(es), senderSsrc, mediaSsrc) == RunEvents(s, es, senderSsrc, mediaSsrc)
    decreases |es|
  {
    hide Build, OnPacket;
    if es != [] {
      var earlier := es[..|es| - 1];
      SameRun(s, earlier, senderSsrc, mediaSsrc);
      assert Cut(es)[..|es| - 1] == Cut(earlier);
    }
  }

  lemma {:induction false} FitsPrefix(es: seq<Event>, m: nat)
    requires Fits(es) && m <= |es|
    ensures Fits(es[..m])
    decreases |es|
  {
    hide InWindow, Ledger;
    if m == |es| {
      assert es[..m] == es;
    } else {
      assert es[..|es| - 1][..m] == es[..m];
      FitsPrefix(es[..|es| - 1], m);
    }
  }

  /** Owed numbers lie within a ring. */
  lemma OwedSpan(s: State, o: Owed)
    requires Owing(s, o)
    ensures o.Owes? ==> forall k :: k in o.times ==> o.lo <= k < o.lo + RING
    ensures Block(o) <= MAX_REPORTED
  {
    hide Holds;
  }

  /** Numbers of a report are those of the block, cut to 16 bits. */
  lemma BlockCovers(packet: Bytes, o: Owed, fbCount: Byte, w: U16)
    requires AsOwed(packet, o, fbCount)
    ensures Covers(packet, w)
            <==> Speaks(o) && exists k :: o.lo <= k < o.lo + Block(o) && k % 0x1_0000 == w
  {
    hide ReadFeedback, Block, Heard, From;
    var f := ReadFeedback(packet);
    EmptyCovers(w, 0);
    if Speaks(o) {
      if k :| o.lo <= k < o.lo + Block(o) && k % 0x1_0000 == w {
        BaseMoves(o.lo, k - o.lo);
        assert NumberOf(f.value, k - o.lo) == w;
      }
      if i :| 0 <= i < |f.value.packets| && NumberOf(f.value, i) == w {
        BaseMoves(o.lo, i);
        assert (o.lo + i) % 0x1_0000 == w;
      }
    }
  }

  lemma SameNumber(a: int, b: int)
    requires a - b < 0x1_0000 && b - a < 0x1_0000 && a % 0x1_0000 == b % 0x1_0000
    ensures a == b
  {
  }

  /** In a window run build `m` covers the cut form of a number exactly when it covers the number. */
  lemma ReportCovers(s: State, es: seq<Event>, m: nat, k: int, senderSsrc: U32, mediaSsrc: U32)
    requires Clean(s) && Fits(es) && m < |es|
    ensures var covers := Covers(RunEvents(s, es, senderSsrc, mediaSsrc).packets[m], k % 0x1_0000);
            && (Says(es, m, k) ==> covers)
            && (covers && OwedNow(es[..m], k) ==> Says(es, m, k))
  {
    hide Clean, Fits, Covers, Ledger, RunEvents, Block, Speaks, Owing, AsOwed;
    var o := Ledger(es[..m]);
    RunReports(s, es, senderSsrc, mediaSsrc);
    FitsPrefix(es, m);
    RunReports(s, es[..m], senderSsrc, mediaSsrc);
    OwedSpan(RunEvents(s, es[..m], senderSsrc, mediaSsrc).s, o);
    var packet := RunEvents(s, es, senderSsrc, mediaSsrc).packets[m];
    assert Answered(s.fbCount, es, m, packet);
    EmptyCovers(k % 0x1_0000, 0);
    if es[m].Asked? {
      BlockCovers(packet, o, (s.fbCount + Spoken(es[..m])) % 0x100, k % 0x1_0000);
      if Covers(packet, k % 0x1_0000) && OwedNow(es[..m], k) {
        var k' :| o.lo <= k' < o.lo + Block(o) && k' % 0x1_0000 == k % 0x1_0000;
        SameNumber(k, k');
      }
    }
  }

  /** In a window run a number is owed exactly when its cut form came since it was last reported. */
  lemma OwedCame(s: State, es: seq<Event>, k: int, senderSsrc: U32, mediaSsrc: U32)
    requires Clean(s) && Fits(es) && OwedNow(es, k)
    ensures Came16(Cut(es), RunEvents(s, es, senderSsrc, mediaSsrc).packets, k % 0x1_0000)
  {
    hide Clean, Fits, Covers, Says, OwedNow, RunEvents, Cut;
    OwedExactly(es, k);
    var i: nat :| Unreported(es, i, k);
    var packets := RunEvents(s, es, senderSsrc, mediaSsrc).packets;
    CutAt(es, i);
    forall m | i < m < |es| ensures !Covers(packets[m], k % 0x1_0000) {
      ReportCovers(s, es, m, k, senderSsrc, mediaSsrc);
      UnreportedBefore(es, i, m, k);
    }
    assert Awaits(Cut(es), packets, i, k % 0x1_0000);
  }

  lemma UnreportedBefore(es: seq<Event>, i: nat, m: nat, k: int)
    requires Unreported(es, i, k) && i < m < |es|
    ensures OwedNow(es[..m], k) && !Says(es, m, k)
  {
    hide Says, OwedNow;
    forall x | i < x < m ensures !Says(es[..m], x, k) { SaysBefore(es, m, x, k); }
    assert Unreported(es[..m], i, k);
    OwedExactly(es[..m], k);
  }

  lemma CameOwed(s: State, es: seq<Event>, w: U16, senderSsrc: U32, mediaSsrc: U32) returns (k: int)
    requires Clean(s) && Fits(es) && Came16(Cut(es), RunEvents(s, es, senderSsrc, mediaSsrc).packets, w)
    ensures k % 0x1_0000 == w && OwedNow(es, k)
  {
    hide Clean, Fits, Covers, Says, OwedNow, RunEvents, Cut;
    var packets := RunEvents(s, es, senderSsrc, mediaSsrc).packets;
    var i: nat :| Awaits(Cut(es), packets, i, w);
    CutAt(es, i);
    k := es[i].a.number;
    forall m | i < m < |es| ensures !Says(es, m, k) { ReportCovers(s, es, m, k, senderSsrc, mediaSsrc); }
    assert Unreported(es, i, k);
    OwedExactly(es, k);
  }

  /** What the next feedback says after a window run is true. */
  lemma BuildIsTrue(s: State, es: seq<Event>, senderSsrc: U32, mediaSsrc: U32)
    requires Clean(s) && Fits(es)
    ensures var r := RunEvents(s, es, senderSsrc, mediaSsrc);
            var packet := Build(r.s, senderSsrc, mediaSsrc).packet;
            packet != [] ==> TellsTruth(packet, Cut(es), r.packets)
  {
    hide Clean, Fits, RunEvents, Cut, Build, ReadFeedback, Came16, Owing, Block, Ledger, Heard, NumberOf;
    var r, o := RunEvents(s, es, senderSsrc, mediaSsrc), Ledger(es);
    var packet := Build(r.s, senderSsrc, mediaSsrc).packet;
    RunReports(s, es, senderSsrc, mediaSsrc);
    AskedOwes(r.s, o, senderSsrc, mediaSsrc);
    OwedSpan(r.s, o);
    if packet != [] {
      var f := ReadFeedback(packet).value;
      forall i | 0 <= i < |f.packets|
        ensures f.packets[i].Some? <==> Came16(Cut(es), r.packets, NumberOf(f, i))
      {
        NumberIs(f, o.lo, i);
        if o.lo + i in o.times { OwedCame(s, es, o.lo + i, senderSsrc, mediaSsrc); }
        if Came16(Cut(es), r.packets, NumberOf(f, i)) {
          var k := CameOwed(s, es, NumberOf(f, i), senderSsrc, mediaSsrc);
          SameNumber(k, o.lo + i);
        }
      }
    }
  }

  lemma NumberIs(f: Feedback, lo: int, i: nat)
    requires f.base == lo % 0x1_0000
    ensures NumberOf(f, i) == (lo + i) % 0x1_0000
  {
    BaseMoves(lo, i);
  }

  /** So while every number is less than a ring from the oldest and the newest owed, nothing ever interferes and every
      packet of the run is true. */
  lemma WindowRunIsTrue(s: State, es: seq<Event>, m: nat, senderSsrc: U32, mediaSsrc: U32)
    requires Clean(s) && Fits(es) && m < |es|
    ensures var packets := RunEvents(s, es, senderSsrc, mediaSsrc).packets;
            packets[m] != [] ==>
              && TellsTruth(packets[m], Cut(es)[..m], packets[..m])
              && !Interfered(packets[m], Cut(es)[..m], packets[..m])
  {
    hide Clean, Fits, RunEvents, RunInputs, Build, TellsTruth, Interfered;
    FitsPrefix(es, m);
    BuildIsTrue(s, es[..m], senderSsrc, mediaSsrc);
    SameRun(s, es, senderSsrc, mediaSsrc);
    SameRun(s, es[..m], senderSsrc, mediaSsrc);
    CutPrefix(es, m);
    CutAt(es, m);
    RunPrefix(s, Cut(es), m, senderSsrc, mediaSsrc);
    CleanIsSilent(s);
    RunIsTrueExactly(s, Cut(es), m, senderSsrc, mediaSsrc);
  }

  lemma CutPrefix(es: seq<Event>, m: nat)
    requires m <= |es|
    ensures Cut(es)[..m] == Cut(es[..m])
  {
    hide Cut;
    forall i | 0 <= i < m ensures Cut(es)[i] == Cut(es[..m])[i] {
      CutAt(es, i);
      CutAt(es[..m], i);
    }
  }

  lemma CleanIsSilent(s: State)
    requires Clean(s)
    ensures Silent(s)
  {
  }

  // ---------------------------------------------------------------- a false report that comes later

  /** An input whose next feedback is true and the one after it false: the third number shares its slot with one of the
      second block that never came. */
  lemma LaterFalseReception(s: State, lo: int, us: int, size: U16, senderSsrc: U32, mediaSsrc: U32)
    requires Clean(s)
    ensures var two := Record1(Record1(s, Arrival(lo, us, size)), Arrival(lo + 600, us, size));
            var times := map[lo := us, lo + 600 := us];
            var next := Build(Record1(two, Arrival(lo + 2748, us, size)), senderSsrc, mediaSsrc);
            && Tracks(two, lo, lo + 600, times) && TrueAfter(lo, lo + 600, times, lo + 2748)
            && SaysReceived(Build(next.s, senderSsrc, mediaSsrc).packet, lo + 512, 188)
  {
    hide Clean, Tracks, Build, Record1, Count, Reference, ReadFeedback;
    var a, b := Arrival(lo, us, size), Arrival(lo + 600, us, size);
    var one := Record1(s, a);
    FirstTracks(s, a);
    RecordTracks(one, lo, lo, map[lo := us], b);
    var two, times := Record1(one, b), map[lo := us, lo + 600 := us];
    assert map[lo := us][lo + 600 := us] == times;
    TracksInSpan(two, lo, lo + 600, times);
    TwinOf(lo);
    FarAheadIsTrue(lo, lo + 600, times, lo + 2748);
    var three := Record1(two, Arrival(lo + 2748, us, size));
    ThirdHeld(two, lo, times, us, size);
    FirstBlockBuilt(three, lo, senderSsrc, mediaSsrc);
    var next := Build(three, senderSsrc, mediaSsrc).s;
    ReadyWhen(next, 188);
    BuildIs(next, senderSsrc, mediaSsrc);
    PacketSays(next, senderSsrc, mediaSsrc);
    assert Window(next)[188].received;
  }

  lemma TracksInSpan(s: State, lo: int, hi: int, times: map<int, int>)
    requires Tracks(s, lo, hi, times)
    ensures InSpan(lo, hi, times)
  {
  }

  lemma TwinOf(lo: int)
    ensures Twin(lo, lo + 2748) == lo + 700
  {
  }

  /** The state after the third arrival. */
  ghost predicate ThreeHeld(s: State, lo: int) {
    && s.pending == Pending(lo % 0x1_0000, (lo + 2749) % 0x1_0000, true) && Count(s.pending) == MAX_REPORTED
    && s.records[lo % RING].received && s.records[(lo + 700) % RING].received
  }

  lemma ThirdHeld(two: State, lo: int, times: map<int, int>, us: int, size: U16)
    requires Tracks(two, lo, lo + 600, times) && lo in times
    ensures ThreeHeld(Record1(two, Arrival(lo + 2748, us, size)), lo)
  {
    hide Holds, Count;
    WidenAny(lo, lo + 600, lo + 2748);
    HeldAt(two.records, lo, times, lo);
    SlotOf(lo + 2748);
    Around(lo + 2748);
  }

  /** The first block goes out, and the second starts at a slot that is still held. */
  lemma FirstBlockBuilt(s: State, lo: int, senderSsrc: U32, mediaSsrc: U32)
    requires ThreeHeld(s, lo)
    ensures var next := Build(s, senderSsrc, mediaSsrc).s;
            && next.pending.some && next.pending.base == (lo + 512) % 0x1_0000 && Count(next.pending) == MAX_REPORTED
            && next.records[Slot(next.pending, 188)].received
  {
    hide Cleared, Reference, Packet, Count;
    SlotIs(lo, lo + 2748, 0);
    ReadyWhen(s, 0);
    BaseMoves(lo, 512);
    var next := Build(s, senderSsrc, mediaSsrc).s;
    assert next == Advance(s);
    SecondBlock(lo);
    SlotIs(lo + 512, lo + 2748, 188);
    ClearedIs(s, MAX_REPORTED, (lo + 700) % RING);
    forall i: nat | i < MAX_REPORTED ensures Slot(s.pending, i) != (lo + 700) % RING {
      SlotIs(lo, lo + 2748, i);
      if (lo + i) % RING == (lo + 700) % RING { SameSlot(lo + i, lo + 700); }
    }
  }

  lemma SecondBlock(lo: int)
    ensures (lo + 512) % 0x1_0000 != (lo + 2749) % 0x1_0000
    ensures Count(Pending((lo + 512) % 0x1_0000, (lo + 2749) % 0x1_0000, true)) == MAX_REPORTED
  {
    FarDistance(lo + 2749, lo + 512);
  }
}
