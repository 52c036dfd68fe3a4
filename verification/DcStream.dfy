/** A whole stream over one interleaved run: packets of several access units in flight, in any order, with duplicates
    and timer ticks between them, come out unit by unit in the order sent. */
module DcStream {
  import opened Wire
  import opened AnnexB
  import opened DcModel
  import opened DcInvariants
  import opened DcPacketizer
  import opened DcReassembly
  import opened DcEndToEnd
  import opened DcFlight

  /** An access unit of a size the sender accepts. */
  type Sent = a: Au | 0 < |a.data| <= MAX_AU_BYTES witness Au([0], 0, false)

  /** The units handed to the sender, the frame number of the first, and what the receiver knows at the start: the
      parameter sets, and whether it has a frame number to expect. */
  datatype Stream = Stream(base: int, aus: seq<Sent>, known: Sets, live: bool)

  /** What reaches the receiver: packet `index` of a unit, or a tick of the timer. */
  datatype Event = Arrives(unit: nat, index: nat, now: int) | Ticks(now: int)

  ghost predicate EventTyped(st: Stream, ev: Event) {
    ev.Arrives? ==> ev.unit < |st.aus| && ev.index < Count(st.aus[ev.unit].data)
  }

  ghost predicate Typed(st: Stream, es: seq<Event>) {
    forall i :: 0 <= i < |es| ==> EventTyped(st, es[i])
  }

  ghost function Wired(st: Stream, j: nat): seq<Bytes>
    requires j < |st.aus|
  {
    Packets(st.aus[j].data, st.base + j, st.aus[j].timestampUs, st.aus[j].key)
  }

  ghost function React(st: Stream, s: State, ev: Event): Turn
    requires EventTyped(st, ev)
  {
    match ev
    case Arrives(j, i, now) => Process(s, Wired(st, j)[i], now)
    case Ticks(now) => Tick(s, now)
  }

  ghost function Run(st: Stream, s: State, es: seq<Event>): Fed
    requires Typed(st, es)
  {
    if es == [] then Fed(s, [])
    else
      var before := Run(st, s, es[..|es| - 1]);
      var t := React(st, before.s, es[|es| - 1]);
      Fed(t.s, before.outs + Outs(t.b.frames))
  }

  // ---------------------------------------------------------------- the units of the stream

  function SetsPast(known: Sets, a: Sent): Sets {
    if Split(a.data).Some? then SetsAfter(known, a) else known
  }

  /** The parameter sets the receiver knows when unit `j` is assembled. */
  function SetsBefore(st: Stream, j: nat): Sets
    requires j <= |st.aus|
  {
    if j == 0 then st.known else SetsPast(SetsBefore(st, j - 1), st.aus[j - 1])
  }

  /** No unit gives the receiver a reason to refuse it, and without a number to expect the first is a keyframe. */
  ghost predicate StreamOk(st: Stream) {
    && (forall j {:trigger st.aus[j]} :: 0 <= j < |st.aus| ==> AuOk(SetsBefore(st, j), st.aus[j]))
    && (!st.live && st.aus != [] ==> st.aus[0].key)
  }

  ghost function OutputAt(st: Stream, j: nat): Output
    requires StreamOk(st) && j < |st.aus|
  {
    OutputOf(SetsBefore(st, j), st.aus[j])
  }

  /** The outputs of the first `n` units, in the order sent. */
  ghost function Outputs(st: Stream, n: nat): (os: seq<Output>)
    requires StreamOk(st) && n <= |st.aus|
  {
    seq(n, j requires 0 <= j < n => OutputAt(st, j))
  }

  ghost function SendingAt(st: Stream, j: nat): (u: Sending)
    requires j < |st.aus|
    ensures SendingOk(u) && u.seqNo == KeyOf(st.base, j) && |u.parts| == Count(st.aus[j].data) == |Wired(st, j)|
    ensures Carries(Wired(st, j), u) && (u.stableFlags % 2 == 1 <==> st.aus[j].key)
  {
    hide Carries, SendingOk, Packets, Count;
    var a := st.aus[j];
    SendingIsOk(a, st.base + j);
    SendingOf(a, st.base + j)
  }

  // ---------------------------------------------------------------- what has been heard of a unit

  function ArrivalsOf(es: seq<Event>, j: nat): seq<Arrival> {
    if es == [] then []
    else
      var ev := es[|es| - 1];
      ArrivalsOf(es[..|es| - 1], j) + if ev.Arrives? && ev.unit == j then [Arrival(ev.index, ev.now)] else []
  }

  ghost predicate Arrived(st: Stream, es: seq<Event>, j: nat)
    requires j < |st.aus|
  {
    Covered(SendingAt(st, j), ArrivalsOf(es, j))
  }

  /** The first unit from `j` on of which a packet is missing. */
  ghost function NextFrom(st: Stream, es: seq<Event>, j: nat): (n: nat)
    requires j <= |st.aus|
    ensures j <= n <= |st.aus| && (n < |st.aus| ==> !Arrived(st, es, n))
    ensures forall i :: j <= i < n ==> Arrived(st, es, i)
    decreases |st.aus| - j
  {
    if j < |st.aus| && Arrived(st, es, j) then NextFrom(st, es, j + 1) else j
  }

  ghost function Next(st: Stream, es: seq<Event>): (n: nat)
    ensures n <= |st.aus|
  {
    NextFrom(st, es, 0)
  }

  /** The units from `e` on of which a packet has come. */
  ghost function Flight(st: Stream, es: seq<Event>, e: nat): set<nat> {
    set j | e <= j < |st.aus| && ArrivalsOf(es, j) != []
  }

  ghost function FrameOf(st: Stream, j: nat, arrivals: seq<Arrival>): Frame
    requires j < |st.aus| && arrivals != []
  {
    FrameSoFar(SendingAt(st, j), arrivals)
  }

  ghost function FlightFrames(st: Stream, es: seq<Event>, e: nat): Frames {
    map j | j in Flight(st, es, e) :: FrameOf(st, j, ArrivalsOf(es, j))
  }

  /** Bytes heard of unit `j`, duplicates not counted. */
  ghost function Heard(st: Stream, es: seq<Event>, j: nat): nat
    requires j < |st.aus|
  {
    Size(Table(SendingAt(st, j), ArrivalsOf(es, j)))
  }

  ghost function FlightBytes(st: Stream, es: seq<Event>, e: nat): nat
    decreases |st.aus| - e
  {
    if e >= |st.aus| then 0 else Heard(st, es, e) + FlightBytes(st, es, e + 1)
  }

  // ---------------------------------------------------------------- what is asked of the network

  ghost predicate Started(st: Stream, es: seq<Event>) {
    st.live || Next(st, es) > 0
  }

  ghost function Since(es: seq<Event>, j: nat, now: int): int
    requires ArrivalsOf(es, j) != []
  {
    now - ArrivalsOf(es, j)[0].now
  }

  /** Of the units from the first incomplete one on, none was first heard of 60 ms ago, nor the earliest of them
      10 ms ago. Before the first unit is complete only the 60 ms matter, and no later keyframe may overtake it. */
  ghost predicate Patient(st: Stream, es: seq<Event>, now: int) {
    var e := Next(st, es);
    && (forall j :: j in Flight(st, es, e) ==> Since(es, j, now) < EXPIRE_US)
    && if Started(st, es)
       then forall j :: j in Flight(st, es, e) && (forall i :: i in Flight(st, es, e) ==> j <= i) ==>
           Since(es, j, now) < SKIP_US
       else forall j :: j in Flight(st, es, e) && j > 0 && st.aus[j].key ==> !Arrived(st, es, j)
  }

  /** A packet is within half the number circle of the first incomplete unit. */
  ghost predicate Near(st: Stream, es: seq<Event>, j: nat) {
    -HALF <= j - Next(st, es) < HALF
  }

  /** There is room for the packet: at most 32 units and 2 MiB in flight. */
  ghost predicate Roomy(st: Stream, es: seq<Event>, j: nat, i: nat)
    requires j < |st.aus| && i < Count(st.aus[j].data)
  {
    var e := Next(st, es);
    j >= e ==>
      && (j in Flight(st, es, e) || |Flight(st, es, e)| < MAX_PENDING_FRAMES)
      && FlightBytes(st, es, e) + |SendingAt(st, j).parts[i]| <= MAX_PENDING_BYTES
  }

  ghost predicate EventOk(st: Stream, es: seq<Event>, ev: Event) {
    && EventTyped(st, ev) && ev.now >= 0 && Patient(st, es, ev.now)
    && (ev.Arrives? ==> Near(st, es, ev.unit) && Roomy(st, es, ev.unit, ev.index) && Patient(st, es + [ev], ev.now))
  }

  ghost predicate Orderly(st: Stream, es: seq<Event>) {
    es == [] || (Orderly(st, es[..|es| - 1]) && EventOk(st, es[..|es| - 1], es[|es| - 1]))
  }

  // ---------------------------------------------------------------- the invariant

  /** The receiver holds just what was heard of the units from `e` on, and has assembled those before. */
  ghost predicate Rel(st: Stream, es: seq<Event>, e: nat, s: State) {
    && e <= |st.aus|
    && Pends(s.pending, st.base, e, FlightFrames(st, es, e))
    && s.bytes == FlightBytes(st, es, e)
    && (st.live || e > 0 ==> s.initialized)
    && (s.initialized ==> s.expected == KeyOf(st.base, e))
    && (s.waiting ==> e == 0 && (st.aus != [] ==> Split(st.aus[0].data).Some? && Idr(st.aus[0])))
    && KnownTo(s) == SetsBefore(st, e)
  }

  /** A receiver that has nothing pending and can take the first unit. */
  ghost predicate Starts(st: Stream, s: State) {
    && s.pending == map[] && s.bytes == 0 && s.initialized == st.live && KnownTo(s) == st.known
    && (st.live ==> s.expected == KeyOf(st.base, 0))
    && (s.waiting && st.aus != [] ==> Split(st.aus[0].data).Some? && Idr(st.aus[0]))
  }

  lemma {:induction false} NothingInFlight(st: Stream, e: nat)
    ensures FlightBytes(st, [], e) == 0 && Flight(st, [], e) == {} && FlightFrames(st, [], e) == map[]
    decreases |st.aus| - e
  {
    hide SendingAt, Table, Size;
    assert ArrivalsOf([], e) == [];
    if e < |st.aus| {
      NothingInFlight(st, e + 1);
      var u := SendingAt(st, e);
      EmptyChunks(|u.parts|);
      SeenNothing(u);
    }
  }

  lemma StartRel(st: Stream, s: State)
    requires Starts(st, s)
    ensures Rel(st, [], 0, s)
  {
    hide KeyOf, FlightFrames, FlightBytes, Flight;
    NothingInFlight(st, 0);
    PendsNothing(st.base, 0);
  }

  // ---------------------------------------------------------------- consuming a complete unit

  lemma FlightShifts(st: Stream, es: seq<Event>, e: nat)
    ensures FlightFrames(st, es, e) - {e} == FlightFrames(st, es, e + 1)
  {
    hide SendingAt, FrameSoFar, ArrivalsOf;
  }

  lemma WholeFrame(st: Stream, es: seq<Event>, e: nat)
    requires e < |st.aus| && Arrived(st, es, e)
    ensures e in FlightFrames(st, es, e) && e in Flight(st, es, e)
    ensures var f, u := FlightFrames(st, es, e)[e], SendingAt(st, e);
            Complete(f) && f.chunks == u.parts && f.timestamp == u.timestamp && f.stableFlags == u.stableFlags
            && f.bytes == Heard(st, es, e)
  {
    hide SendingAt, ArrivalsOf, Covered, FrameSoFar, SendingOk, Size, Filled;
    var u, arrivals := SendingAt(st, e), ArrivalsOf(es, e);
    NothingCovered(u);
    CompleteIffCovered(u, arrivals);
    ArrivalTime(u, arrivals);
  }

  lemma AuSplits(known: Sets, a: Au)
    requires AuOk(known, a)
    ensures Split(a.data).Some? && (a.key ==> Idr(a))
  {
    hide Split, HasType;
  }

  /** Assembling a unit of the stream. */
  lemma AssembleUnit(st: Stream, e: nat, s: State, f: Frame)
    requires StreamOk(st) && e < |st.aus| && KnownTo(s) == SetsBefore(st, e)
    requires s.waiting ==> e == 0 && Idr(st.aus[0])
    requires var u := SendingAt(st, e);
             f.chunks == u.parts && f.timestamp == u.timestamp && f.stableFlags == u.stableFlags
    ensures var r := Assemble(s, f);
            r.out == Some(OutputAt(st, e)) && !r.s.waiting && KnownTo(r.s) == SetsBefore(st, e + 1)
            && r.s.bytes == s.bytes && r.s.initialized == s.initialized
  {
    hide AuOk, SendingOf, Assemble, OutputOf, SetsAfter, Split;
    var a := st.aus[e];
    assert AuOk(SetsBefore(st, e), a);
    AuSplits(SetsBefore(st, e), a);
    AssembleWhole(s, a, st.base + e);
    AssembleDependsOn(s, s, f, Whole(SendingOf(a, st.base + e), 0));
    AssembleKeeps(s, f);
  }

  /** The delivery loop takes the first unit of the flight: it is delivered, and its successor is the first. */
  lemma ConsumeUnit(st: Stream, es: seq<Event>, e: nat, t: Turn, now: int)
    requires StreamOk(st) && Rel(st, es, e, t.s) && t.s.initialized && e < |st.aus| && Arrived(st, es, e)
    ensures t.s.expected in t.s.pending && Complete(t.s.pending[t.s.expected])
    ensures Rel(st, es, e + 1, Consume(t, now).s)
    ensures Outs(Consume(t, now).b.frames) == Outs(t.b.frames) + [OutputAt(st, e)]
  {
    hide Arrived, FlightFrames, Pends, Assemble, StreamOk, OutputAt, SetsBefore, SendingAt, KeyOf, Heard, KnownTo,
      Complete;
    WholeFrame(st, es, e);
    PendsUnit(t.s.pending, st.base, e, FlightFrames(st, es, e), e);
    var f := t.s.pending[t.s.expected];
    AssembleUnit(st, e, t.s, f);
    PendsShift(t.s.pending, st.base, e, FlightFrames(st, es, e));
    FlightShifts(st, es, e);
    NextKey(st.base, e);
    ConsumeIs(t, OutputAt(st, e), now);
    SameSets(Assemble(t.s, f).s, Consume(t, now).s);
  }

  lemma SameSets(s: State, r: State)
    requires s.sps == r.sps && s.pps == r.pps
    ensures KnownTo(s) == KnownTo(r)
  {
  }

  lemma ConsumeIs(t: Turn, o: Output, now: int)
    requires t.s.expected in t.s.pending && Assemble(t.s, t.s.pending[t.s.expected]).out == Some(o)
    ensures var a, r := Assemble(t.s, t.s.pending[t.s.expected]), Consume(t, now);
            && Outs(r.b.frames) == Outs(t.b.frames) + [o]
            && r.s.pending == t.s.pending - {t.s.expected} && r.s.bytes == t.s.bytes - t.s.pending[t.s.expected].bytes
            && r.s.expected == (t.s.expected + 1) % 0x1_0000 && r.s.initialized == t.s.initialized
            && r.s.waiting == a.s.waiting && r.s.sps == a.s.sps && r.s.pps == a.s.pps
  {
    hide Assemble;
    AssembleKeeps(t.s, t.s.pending[t.s.expected]);
  }

  // ---------------------------------------------------------------- waiting

  /** The patience that lets the delivery loop wait at unit `e`. */
  ghost predicate Young(st: Stream, es: seq<Event>, e: nat, now: int) {
    forall j :: j in Flight(st, es, e) && (forall i :: i in Flight(st, es, e) ==> j <= i) ==>
        Since(es, j, now) < SKIP_US
  }

  /** What the receiver holds under a key of the flight. */
  lemma HeldIs(st: Stream, es: seq<Event>, e: nat, s: State, j: nat)
    requires Rel(st, es, e, s) && j in Flight(st, es, e)
    ensures KeyOf(st.base, j) in s.pending && e <= j < e + HALF
    ensures var f := s.pending[KeyOf(st.base, j)];
            && f.arrival == ArrivalsOf(es, j)[0].now && (Complete(f) <==> Arrived(st, es, j))
            && (f.stableFlags % 2 == 1 <==> st.aus[j].key)
  {
    hide KeyOf, PendsAt, FlightBytes, Covered, Complete, FrameSoFar, KnownTo, SetsBefore, SendingAt, SendingOk, Carries;
    var u, arrivals := SendingAt(st, j), ArrivalsOf(es, j);
    assert j in FlightFrames(st, es, e);
    PendsUnit(s.pending, st.base, e, FlightFrames(st, es, e), j);
    CompleteIffCovered(u, arrivals);
    ArrivalTime(u, arrivals);
    SendingFlags(st, j);
  }

  lemma SendingFlags(st: Stream, j: nat)
    requires j < |st.aus|
    ensures |SendingAt(st, j).parts| < 0x100 && SendingOk(SendingAt(st, j))
    ensures SendingAt(st, j).stableFlags % 2 == 1 <==> st.aus[j].key
  {
  }

  /** Every key held belongs to a unit of the flight. */
  lemma HeldUnit(st: Stream, es: seq<Event>, e: nat, s: State, k: U16) returns (j: nat)
    requires Rel(st, es, e, s) && k in s.pending
    ensures j in Flight(st, es, e) && k == KeyOf(st.base, j) && SequenceDelta(k, KeyOf(st.base, e)) == j - e
  {
    hide KeyOf, PendsAt, FlightBytes, UnitAt, KnownTo, SetsBefore, SequenceDelta;
    PendsKey(s.pending, st.base, e, FlightFrames(st, es, e), k);
    UnitThenKey(st.base, e, k);
    j := UnitAt(st.base, e, k);
  }

  lemma WaitsIs(st: Stream, es: seq<Event>, e: nat, s: State, now: int)
    requires Rel(st, es, e, s) && s.initialized && (e < |st.aus| ==> !Arrived(st, es, e)) && Young(st, es, e, now)
    ensures Waits(s, now)
  {
    hide Rel, KeyOf, Flight, Arrived, Complete, SequenceDelta, NearestBelow;
    RelExpects(st, es, e, s);
    if s.expected in s.pending {
      var j := HeldUnit(st, es, e, s, s.expected);
      ZeroDelta(s.expected);
      HeldIs(st, es, e, s, j);
      InFlight(st, es, e, j);
      forall i | i in Flight(st, es, e) ensures j <= i { InFlight(st, es, e, i); }
    } else if Nearest(s).Some? {
      var k := Nearest(s).value;
      var j := HeldUnit(st, es, e, s, k);
      HeldIs(st, es, e, s, j);
      NearestBelowIs(s.pending, s.expected, 0x1_0000);
      forall i | i in Flight(st, es, e) ensures j <= i {
        HeldIs(st, es, e, s, i);
        KeyDistance(st.base, e, i);
      }
    }
  }

  lemma RelExpects(st: Stream, es: seq<Event>, e: nat, s: State)
    requires Rel(st, es, e, s) && s.initialized
    ensures s.expected == KeyOf(st.base, e)
  {
  }

  lemma InFlight(st: Stream, es: seq<Event>, e: nat, j: nat)
    requires j in Flight(st, es, e)
    ensures e <= j < |st.aus| && ArrivalsOf(es, j) != []
  {
  }

  lemma NothingBehindIs(st: Stream, es: seq<Event>, e: nat, s: State)
    requires Rel(st, es, e, s) && s.initialized
    ensures NothingBehind(s)
  {
    hide Rel, KeyOf, Flight, SequenceDelta;
    RelExpects(st, es, e, s);
    forall k | k in s.pending ensures SequenceDelta(k, s.expected) >= 0 {
      var j := HeldUnit(st, es, e, s, k);
      InFlight(st, es, e, j);
    }
  }

  // ---------------------------------------------------------------- the delivery loop

  /** The receiver has assembled the units before `e`: with what was put out before this turn, their outputs are out. */
  ghost predicate Done(st: Stream, es: seq<Event>, e: nat, past: seq<Output>, t: Turn) {
    StreamOk(st) && Rel(st, es, e, t.s) && past + Outs(t.b.frames) == Outputs(st, e)
  }

  lemma OneMore(st: Stream, e: nat, past: seq<Output>, outs: seq<Output>)
    requires StreamOk(st) && e < |st.aus| && past + outs == Outputs(st, e)
    ensures past + (outs + [OutputAt(st, e)]) == Outputs(st, e + 1)
  {
    hide OutputAt, StreamOk;
    assert past + (outs + [OutputAt(st, e)]) == (past + outs) + [OutputAt(st, e)];
  }

  lemma ConsumeDone(st: Stream, es: seq<Event>, e: nat, past: seq<Output>, t: Turn, now: int)
    requires Done(st, es, e, past, t) && t.s.initialized && e < |st.aus| && Arrived(st, es, e)
    ensures t.s.expected in t.s.pending && Complete(t.s.pending[t.s.expected])
    ensures Done(st, es, e + 1, past, Consume(t, now)) && Consume(t, now).s.initialized
  {
    hide Arrived, StreamOk, OutputAt, Rel, Complete, Consume, Outputs;
    ConsumeUnit(st, es, e, t, now);
    OneMore(st, e, past, Outs(t.b.frames));
    RelStarted(st, es, e + 1, Consume(t, now).s);
  }

  lemma RelStarted(st: Stream, es: seq<Event>, e: nat, s: State)
    requires Rel(st, es, e, s) && (st.live || e > 0)
    ensures s.initialized
  {
  }

  lemma {:induction false} AdvanceDelivers(st: Stream, es: seq<Event>, e: nat, n: nat, past: seq<Output>, t: Turn,
                                           now: int)
    requires Done(st, es, e, past, t) && t.s.initialized && e <= n <= |st.aus|
    requires forall i :: e <= i < n ==> Arrived(st, es, i)
    requires (n < |st.aus| ==> !Arrived(st, es, n)) && Young(st, es, n, now)
    ensures Done(st, es, n, past, Advance(t, now)) && Advance(t, now).s.initialized
    decreases n - e
  {
    hide Done, Arrived, Young, Complete, Consume, Waits, Advance;
    if e == n {
      DoneRel(st, es, e, past, t);
      WaitsIs(st, es, n, t.s, now);
      AdvanceWaits(t, now);
    } else {
      ConsumeDone(st, es, e, past, t, now);
      AdvanceTakes(t, now);
      AdvanceDelivers(st, es, e + 1, n, past, Consume(t, now), now);
    }
  }

  lemma DoneRel(st: Stream, es: seq<Event>, e: nat, past: seq<Output>, t: Turn)
    requires Done(st, es, e, past, t)
    ensures Rel(st, es, e, t.s)
  {
  }

  lemma AdvanceTakes(t: Turn, now: int)
    requires t.s.expected in t.s.pending && Complete(t.s.pending[t.s.expected])
    ensures Advance(t, now) == Advance(Consume(t, now), now)
  {
    hide Consume, Complete;
    ErasedIsSmaller(t.s.pending, t.s.expected);
  }

  // ---------------------------------------------------------------- a drain at rest

  /** Between two events: the flight starts at the first incomplete unit, and a number is
      expected once it has started. */
  ghost predicate Between(st: Stream, es: seq<Event>, s: State) {
    Rel(st, es, Next(st, es), s) && (s.initialized ==> Started(st, es))
  }

  lemma UnexpiredIs(st: Stream, es: seq<Event>, e: nat, s: State, now: int)
    requires Rel(st, es, e, s) && forall j :: j in Flight(st, es, e) ==> Since(es, j, now) < EXPIRE_US
    ensures Unexpired(s, now)
  {
    hide Rel, KeyOf, Flight, Complete, Arrived, SequenceDelta;
    forall k | k in s.pending ensures !Expired(s.pending[k], now) {
      var j := HeldUnit(st, es, e, s, k);
      HeldIs(st, es, e, s, j);
    }
  }

  /** Without a number to expect, only a complete keyframe could start the stream. */
  lemma CandidateIs(st: Stream, es: seq<Event>, e: nat, s: State, k: U16) returns (j: nat)
    requires Rel(st, es, e, s) && Candidate(s.pending, k)
    ensures j in Flight(st, es, e) && k == KeyOf(st.base, j) && Arrived(st, es, j) && st.aus[j].key
  {
    hide Rel, KeyOf, Complete, Arrived, SequenceDelta;
    j := HeldUnit(st, es, e, s, k);
    HeldIs(st, es, e, s, j);
  }

  lemma PatientIs(st: Stream, es: seq<Event>, now: int)
    requires Patient(st, es, now)
    ensures var e := Next(st, es);
            && (forall j :: j in Flight(st, es, e) ==> Since(es, j, now) < EXPIRE_US)
            && (e < |st.aus| ==> !Arrived(st, es, e)) && (forall i :: 0 <= i < e ==> Arrived(st, es, i))
            && if st.live || e > 0 then Young(st, es, e, now)
               else forall j :: j in Flight(st, es, e) && j > 0 && st.aus[j].key ==> !Arrived(st, es, j)
  {
    hide Arrived, Flight, NextFrom;
  }

  /** A drain while the first unit of the flight is incomplete changes nothing. */
  lemma DrainKept(st: Stream, es: seq<Event>, s: State, now: int)
    requires Between(st, es, s) && Patient(st, es, now)
    ensures Drain(Turn(s, EMPTY_BATCH), now) == Turn(s, EMPTY_BATCH)
  {
    hide Rel, Patient, Arrived, Young, Flight, Candidate, Next, Drain, Unexpired, NothingBehind, Waits;
    var e := Next(st, es);
    PatientIs(st, es, now);
    UnexpiredIs(st, es, e, s, now);
    if st.live || e > 0 {
      RelStarted(st, es, e, s);
      WaitsIs(st, es, e, s, now);
      NothingBehindIs(st, es, e, s);
      DrainRests(s, now);
    } else {
      NoCandidate(st, es, s);
      DrainIdles(s, now);
    }
  }

  lemma NoCandidate(st: Stream, es: seq<Event>, s: State)
    requires Rel(st, es, 0, s) && (st.aus != [] ==> !Arrived(st, es, 0))
    requires forall j :: j in Flight(st, es, 0) && j > 0 && st.aus[j].key ==> !Arrived(st, es, j)
    ensures forall k :: !Candidate(s.pending, k)
  {
    hide Rel, Arrived, Flight, Candidate, KeyOf;
    forall k: U16 ensures !Candidate(s.pending, k) {
      if Candidate(s.pending, k) {
        var j := CandidateIs(st, es, 0, s, k);
        InFlight(st, es, 0, j);
        assert false;
      }
    }
  }

  // ---------------------------------------------------------------- a packet is stored

  lemma ArrivalsSnoc(es: seq<Event>, ev: Event, j: nat)
    ensures ArrivalsOf(es + [ev], j)
            == ArrivalsOf(es, j) + if ev.Arrives? && ev.unit == j then [Arrival(ev.index, ev.now)] else []
  {
    assert (es + [ev])[..|es|] == es;
  }

  lemma OthersSame(st: Stream, es: seq<Event>, ev: Event, j: nat)
    requires j < |st.aus| && !(ev.Arrives? && ev.unit == j)
    ensures ArrivalsOf(es + [ev], j) == ArrivalsOf(es, j) && Heard(st, es + [ev], j) == Heard(st, es, j)
    ensures Arrived(st, es + [ev], j) == Arrived(st, es, j)
  {
    hide SendingAt, ArrivalsOf, Covered, Size;
    ArrivalsSnoc(es, ev, j);
  }

  lemma {:induction false} BytesAfter(st: Stream, es: seq<Event>, ev: Event, e: nat)
    requires EventTyped(st, ev)
    ensures FlightBytes(st, es + [ev], e)
            == FlightBytes(st, es, e)
               + if ev.Arrives? && ev.unit >= e then Heard(st, es + [ev], ev.unit) - Heard(st, es, ev.unit) else 0
    decreases |st.aus| - e
  {
    hide Heard, ArrivalsOf;
    if e < |st.aus| {
      BytesAfter(st, es, ev, e + 1);
      if !(ev.Arrives? && ev.unit == e) {
        OthersSame(st, es, ev, e);
      }
    }
  }

  lemma ArrivalsAfter(es: seq<Event>, ev: Event)
    ensures forall k: nat :: !(ev.Arrives? && ev.unit == k) ==> ArrivalsOf(es + [ev], k) == ArrivalsOf(es, k)
    ensures ev.Arrives? ==> ArrivalsOf(es + [ev], ev.unit) == ArrivalsOf(es, ev.unit) + [Arrival(ev.index, ev.now)]
  {
    hide ArrivalsOf;
    forall k: nat { ArrivalsSnoc(es, ev, k); }
  }

  lemma FramesAfter(st: Stream, es: seq<Event>, j: nat, i: nat, now: int, e: nat)
    requires EventTyped(st, Arrives(j, i, now))
    ensures var arrivals := ArrivalsOf(es, j) + [Arrival(i, now)];
            FlightFrames(st, es + [Arrives(j, i, now)], e)
            == if j < e then FlightFrames(st, es, e) else FlightFrames(st, es, e)[j := FrameOf(st, j, arrivals)]
  {
    hide ArrivalsOf, FrameOf;
    ArrivalsAfter(es, Arrives(j, i, now));
  }

  lemma FramesTick(st: Stream, es: seq<Event>, now: int, e: nat)
    ensures Flight(st, es + [Ticks(now)], e) == Flight(st, es, e)
    ensures FlightFrames(st, es + [Ticks(now)], e) == FlightFrames(st, es, e)
    ensures FlightBytes(st, es + [Ticks(now)], e) == FlightBytes(st, es, e)
  {
    hide SendingAt, ArrivalsOf, FrameSoFar, FlightBytes;
    BytesAfter(st, es, Ticks(now), e);
    forall k: nat ensures ArrivalsOf(es + [Ticks(now)], k) == ArrivalsOf(es, k) {
      ArrivalsSnoc(es, Ticks(now), k);
    }
  }

  /** A tick, or a packet of a unit that is past, leaves what is to be held as it was. */
  lemma RelKept(st: Stream, es: seq<Event>, ev: Event, e: nat, s: State)
    requires Rel(st, es, e, s) && EventTyped(st, ev) && (ev.Arrives? ==> ev.unit < e)
    ensures Rel(st, es + [ev], e, s)
  {
    hide Pends, FlightFrames, FlightBytes, KeyOf, KnownTo, SetsBefore;
    match ev
    case Arrives(j, i, now) => FramesAfter(st, es, j, i, now, e); BytesAfter(st, es, ev, e);
    case Ticks(now) => FramesTick(st, es, now, e);
  }

  /** A packet of a unit not past is stored, and nothing else changes. */
  lemma StoreRel(st: Stream, es: seq<Event>, j: nat, i: nat, now: int, e: nat, s: State)
    requires Rel(st, es, e, s) && EventTyped(st, Arrives(j, i, now)) && e <= j < e + HALF
    ensures var c := ChunkOf(SendingAt(st, j), i);
            Store(Turn(s, EMPTY_BATCH), c, now).b == EMPTY_BATCH
            && Rel(st, es + [Arrives(j, i, now)], e, Store(Turn(s, EMPTY_BATCH), c, now).s)
  {
    hide Pends, FlightFrames, FlightBytes, KeyOf, KnownTo, SetsBefore, SendingAt, Store, FrameSoFar, Heard,
      ArrivalsOf, SendingOk, Carries;
    var u, arrivals, a := SendingAt(st, j), ArrivalsOf(es, j), Arrival(i, now);
    SendingFlags(st, j);
    ArrivalsAfter(es, Arrives(j, i, now));
    FramesAfter(st, es, j, i, now, e);
    BytesAfter(st, es, Arrives(j, i, now), e);
    PendsUnit(s.pending, st.base, e, FlightFrames(st, es, e), j);
    InFrames(st, es, e, j);
    StoreAmong(s, u, arrivals, a);
    PendsPut(s.pending, st.base, e, FlightFrames(st, es, e), j, FrameSoFar(u, arrivals + [a]));
    HeardIs(st, es, j);
    HeardIs(st, es + [Arrives(j, i, now)], j);
    StoreKeepsSets(Turn(s, EMPTY_BATCH), ChunkOf(u, i), now);
  }

  lemma HeardIs(st: Stream, es: seq<Event>, j: nat)
    requires j < |st.aus|
    ensures |SendingAt(st, j).parts| < 0x100
    ensures Heard(st, es, j) == if ArrivalsOf(es, j) == [] then 0
            else FrameSoFar(SendingAt(st, j), ArrivalsOf(es, j)).bytes
  {
    hide Carries;
    if ArrivalsOf(es, j) == [] {
      EmptyChunks(|SendingAt(st, j).parts|);
      SeenNothing(SendingAt(st, j));
    }
  }

  lemma InFrames(st: Stream, es: seq<Event>, e: nat, j: nat)
    requires e <= j < |st.aus|
    ensures |SendingAt(st, j).parts| < 0x100
    ensures j in FlightFrames(st, es, e) <==> ArrivalsOf(es, j) != []
    ensures j in FlightFrames(st, es, e) ==>
              FlightFrames(st, es, e)[j] == FrameSoFar(SendingAt(st, j), ArrivalsOf(es, j))
  {
  }

  lemma StoreKeepsSets(t: Turn, c: Chunk, now: int)
    requires c.index < c.count
    ensures Store(t, c, now).s.initialized == t.s.initialized && KnownTo(Store(t, c, now).s) == KnownTo(t.s)
    ensures Store(t, c, now).s.expected == t.s.expected
  {
  }

  lemma RoomIs(st: Stream, es: seq<Event>, j: nat, i: nat, s: State)
    requires Rel(st, es, Next(st, es), s) && EventTyped(st, Arrives(j, i, 0)) && Roomy(st, es, j, i)
             && Next(st, es) <= j
    requires Near(st, es, j)
    ensures !Overflows(s, ChunkOf(SendingAt(st, j), i))
  {
    hide PendsAt, FlightBytes, KeyOf, KnownTo, SetsBefore, SendingAt, FrameSoFar, Heard, ArrivalsOf, SendingOk,
      Carries, Next;
    var e := Next(st, es);
    var f := FlightFrames(st, es, e);
    PendsSize(s.pending, st.base, e, f);
    assert f.Keys == Flight(st, es, e);
    assert |f.Keys| == |f|;
    PendsUnit(s.pending, st.base, e, f, j);
  }

  // ---------------------------------------------------------------- which unit is the first incomplete one

  lemma {:induction false} NextIs(st: Stream, es: seq<Event>, j: nat, n: nat)
    requires j <= n <= |st.aus| && (forall i :: j <= i < n ==> Arrived(st, es, i))
             && (n < |st.aus| ==> !Arrived(st, es, n))
    ensures NextFrom(st, es, j) == n
    decreases n - j
  {
    hide Arrived;
    if j < n { NextIs(st, es, j + 1, n); }
  }

  lemma StaysArrived(st: Stream, es: seq<Event>, ev: Event, j: nat)
    requires j < |st.aus| && EventTyped(st, ev) && Arrived(st, es, j)
    ensures Arrived(st, es + [ev], j)
  {
    hide SendingAt, ArrivalsOf, Covered;
    ArrivalsAfter(es, ev);
    if ev.Arrives? && ev.unit == j {
      CoveredSnoc(SendingAt(st, j), ArrivalsOf(es, j), Arrival(ev.index, ev.now));
    }
  }

  /** Only a packet of the first incomplete unit can complete it. */
  lemma NextAfter(st: Stream, es: seq<Event>, ev: Event)
    requires EventTyped(st, ev)
    ensures Next(st, es) <= Next(st, es + [ev])
    ensures !(ev.Arrives? && ev.unit == Next(st, es)) ==> Next(st, es) == Next(st, es + [ev])
    ensures forall i :: Next(st, es) <= i < Next(st, es + [ev]) ==> Arrived(st, es + [ev], i)
  {
    hide Arrived, NextFrom, ArrivalsOf;
    var all, e, n := es + [ev], Next(st, es), Next(st, es + [ev]);
    assert (e < |st.aus| ==> !Arrived(st, es, e)) && (n < |st.aus| ==> !Arrived(st, all, n));
    forall i | 0 <= i < e ensures Arrived(st, all, i) { StaysArrived(st, es, ev, i); }
    if !(ev.Arrives? && ev.unit == e) {
      if e < |st.aus| { OthersSame(st, es, ev, e); }
      NextIs(st, all, 0, e);
    }
  }

  // ---------------------------------------------------------------- a drain that delivers

  lemma RelDependsOn(st: Stream, es: seq<Event>, e: nat, s: State, r: State)
    requires Rel(st, es, e, s)
    requires r.pending == s.pending && r.bytes == s.bytes && r.waiting == s.waiting && r.sps == s.sps && r.pps == s.pps
    requires r.initialized == s.initialized && r.expected == s.expected
    ensures Rel(st, es, e, r)
  {
    hide Pends, FlightFrames, FlightBytes, KeyOf, SetsBefore;
  }

  /** The only complete keyframe is the first unit: the stream starts there. */
  lemma InitializeIs(st: Stream, es: seq<Event>, s: State)
    requires StreamOk(st) && Rel(st, es, 0, s) && st.aus != [] && Arrived(st, es, 0) && !s.initialized && !st.live
    requires forall j :: j in Flight(st, es, 0) && j > 0 && st.aus[j].key ==> !Arrived(st, es, j)
    ensures Initialize(s).initialized && Rel(st, es, 0, Initialize(s))
  {
    hide Flight, Arrived, Candidate, Pends, FlightFrames, FlightBytes, FirstBelow, AuOk, SetsBefore, KeyOf;
    var k := KeyOf(st.base, 0);
    WholeFrame(st, es, 0);
    HeldIs(st, es, 0, s, 0);
    CandidateThen(s.pending, k);
    FirstIsEarliest(s.pending, 0x1_0000);
    var first := FirstBelow(s.pending, 0x1_0000);
    assert first.Some?;
    var j := CandidateIs(st, es, 0, s, first.value);
    InFlight(st, es, 0, j);
    assert j == 0;
  }

  lemma CandidateThen(m: Pending, k: U16)
    requires k in m && Complete(m[k]) && m[k].stableFlags % 2 == 1
    ensures Candidate(m, k)
  {
  }

  /** The state a drain starts its delivery loop in. */
  lemma LoopStarts(st: Stream, es: seq<Event>, e: nat, s: State)
    requires StreamOk(st) && Rel(st, es, e, s) && (s.initialized ==> st.live || e > 0) && e < |st.aus|
             && Arrived(st, es, e)
    requires st.live || e > 0 || forall j :: j in Flight(st, es, 0) && j > 0 && st.aus[j].key ==> !Arrived(st, es, j)
    ensures Initialize(s).initialized && Rel(st, es, e, Initialize(s))
  {
    hide Rel, Flight, Arrived, AuOk;
    if st.live || e > 0 {
      RelStarted(st, es, e, s);
    } else {
      InitializeIs(st, es, s);
    }
  }

  lemma DrainDelivers(st: Stream, es: seq<Event>, e: nat, s: State, now: int)
    requires StreamOk(st) && Rel(st, es, e, s) && (s.initialized ==> st.live || e > 0) && e < Next(st, es)
    requires Unexpired(s, now) && Patient(st, es, now)
    requires st.live || e > 0 || forall j :: j in Flight(st, es, 0) && j > 0 && st.aus[j].key ==> !Arrived(st, es, j)
    ensures Done(st, es, Next(st, es), Outputs(st, e), Drain(Turn(s, EMPTY_BATCH), now))
  {
    hide StreamOk, Rel, Patient, Arrived, Young, Flight, NextFrom, Drain, Unexpired, NothingBehind, Initialize,
      Outputs, Advance, RaiseRate;
    var n := Next(st, es);
    PatientIs(st, es, now);
    LoopStarts(st, es, e, s);
    var t := Turn(Initialize(s), EMPTY_BATCH);
    NoneOut(Outputs(st, e));
    AdvanceDelivers(st, es, e, n, Outputs(st, e), t, now);
    var a := Advance(t, now);
    NothingBehindIs(st, es, n, a.s);
    DrainRuns(s, Initialize(s), a, now);
    RaiseOnly(a, now);
    RelDependsOn(st, es, n, a.s, RaiseRate(a, now).s);
  }

  lemma NoneOut(os: seq<Output>)
    ensures os + Outs(EMPTY_BATCH.frames) == os
  {
  }

  // ---------------------------------------------------------------- one event

  /** What an event leads to: the flight moves on, and the outputs of the units it leaves behind come out. */
  ghost predicate Moves(st: Stream, es: seq<Event>, ev: Event, t: Turn) {
    && StreamOk(st) && Between(st, es + [ev], t.s)
    && Outputs(st, Next(st, es)) + Outs(t.b.frames) == Outputs(st, Next(st, es + [ev]))
  }

  lemma StaysPut(st: Stream, es: seq<Event>, ev: Event, s: State, t: Turn)
    requires StreamOk(st) && Between(st, es, s) && EventTyped(st, ev) && (ev.Arrives? ==> ev.unit < Next(st, es))
    requires t.b.frames == [] && Rel(st, es, Next(st, es), t.s) && t.s.initialized == s.initialized
    ensures Moves(st, es, ev, t)
  {
    hide Rel, StreamOk, Outputs, NextFrom;
    NextAfter(st, es, ev);
    RelKept(st, es, ev, Next(st, es), t.s);
    NoneOut(Outputs(st, Next(st, es)));
  }

  lemma TickMoves(st: Stream, es: seq<Event>, now: int, s: State)
    requires StreamOk(st) && Between(st, es, s) && EventOk(st, es, Ticks(now))
    ensures Moves(st, es, Ticks(now), React(st, s, Ticks(now)))
  {
    hide Rel, StreamOk, Moves, Patient, Drain, Next;
    DrainKept(st, es, s, now);
    var t := Turn(s, EMPTY_BATCH);
    RecoverOnly(t, now);
    if s.waiting { RelDependsWaiting(st, es, Next(st, es), s, Recover(t, now).s); }
    StaysPut(st, es, Ticks(now), s, Tick(s, now));
  }

  lemma RelDependsWaiting(st: Stream, es: seq<Event>, e: nat, s: State, r: State)
    requires Rel(st, es, e, s) && s.waiting
    requires r.pending == s.pending && r.bytes == s.bytes && r.sps == s.sps && r.pps == s.pps
    requires r.initialized == s.initialized && r.expected == s.expected
    ensures Rel(st, es, e, r)
  {
    hide Pends, FlightFrames, FlightBytes, KeyOf, SetsBefore;
  }

  /** A packet behind the first incomplete unit is stale. */
  lemma StaleMoves(st: Stream, es: seq<Event>, ev: Event, s: State)
    requires StreamOk(st) && Between(st, es, s) && EventOk(st, es, ev) && ev.Arrives? && ev.unit < Next(st, es)
    ensures Moves(st, es, ev, React(st, s, ev))
  {
    hide StreamOk, Moves, Patient, Drain, Next, KeyOf, ChunkOf, Store, SendingAt, FlightFrames, FlightBytes,
      SequenceDelta,
      Pends, SetsBefore, KnownTo, SendingOk, ParseChunk, Roomy, Process;
    var u, c := SendingAt(st, ev.unit), SendingChunk(st, ev.unit, ev.index);
    DrainKept(st, es, s, ev.now);
    KeyDistance(st.base, Next(st, es), ev.unit);
    ProcessIs(s, Wired(st, ev.unit)[ev.index], c, ev.now);
    assert Process(s, Wired(st, ev.unit)[ev.index], ev.now) == Turn(s, EMPTY_BATCH);
    StaysPut(st, es, ev, s, Turn(s, EMPTY_BATCH));
  }

  ghost function SendingChunk(st: Stream, j: nat, i: nat): (c: Chunk)
    requires j < |st.aus| && i < Count(st.aus[j].data)
    ensures c.seqNo == KeyOf(st.base, j) && ParseChunk(Wired(st, j)[i]) == Some(c) && c.index < c.count
    ensures c == ChunkOf(SendingAt(st, j), i)
  {
    hide ParseChunk, KeyOf, Wired;
    ChunkOf(SendingAt(st, j), i)
  }

  lemma SinceAfter(st: Stream, es: seq<Event>, ev: Event, e: nat)
    requires ev.Arrives? && EventTyped(st, ev) && forall j :: j in Flight(st, es, e) ==>
               Since(es, j, ev.now) < EXPIRE_US
    ensures forall j :: j in Flight(st, es + [ev], e) ==> Since(es + [ev], j, ev.now) < EXPIRE_US
  {
    hide ArrivalsOf;
    ArrivalsAfter(es, ev);
    forall j | j in Flight(st, es + [ev], e) ensures Since(es + [ev], j, ev.now) < EXPIRE_US {
      if ArrivalsOf(es, j) != [] { assert j in Flight(st, es, e); }
    }
  }

  /** No later keyframe is complete when the first unit becomes so. */
  lemma NoLaterKeyframe(st: Stream, es: seq<Event>, ev: Event)
    requires EventTyped(st, ev) && ev.Arrives? && Next(st, es) == 0 && ev.unit == 0
    requires forall j :: j in Flight(st, es, 0) && j > 0 && st.aus[j].key ==> !Arrived(st, es, j)
    ensures forall j :: j in Flight(st, es + [ev], 0) && j > 0 && st.aus[j].key ==> !Arrived(st, es + [ev], j)
  {
    hide Arrived, ArrivalsOf, Next;
    ArrivalsAfter(es, ev);
    forall j | j in Flight(st, es + [ev], 0) && j > 0 && st.aus[j].key ensures !Arrived(st, es + [ev], j) {
      OthersSame(st, es, ev, j);
      assert j in Flight(st, es, 0);
    }
  }

  /** The drain behind a stored packet. */
  lemma StoredMoves(st: Stream, es: seq<Event>, ev: Event, s: State, r: State)
    requires StreamOk(st) && Between(st, es, s) && EventOk(st, es, ev) && ev.Arrives? && Next(st, es) <= ev.unit
    requires Rel(st, es + [ev], Next(st, es), r) && r.initialized == s.initialized
    ensures Moves(st, es, ev, Drain(Turn(r, EMPTY_BATCH), ev.now))
  {
    hide StreamOk, Rel, Drain, NextFrom, Flight, Arrived, Young, Near, Roomy, Outputs, Patient;
    var e, n, all := Next(st, es), Next(st, es + [ev]), es + [ev];
    NextAfter(st, es, ev);
    PatientIs(st, es, ev.now);
    if e == n {
      DrainKept(st, all, r, ev.now);
      NoneOut(Outputs(st, e));
    } else {
      SinceAfter(st, es, ev, e);
      UnexpiredIs(st, all, e, r, ev.now);
      if !st.live && e == 0 { NoLaterKeyframe(st, es, ev); }
      DrainDelivers(st, all, e, r, ev.now);
    }
  }

  lemma StoringMoves(st: Stream, es: seq<Event>, ev: Event, s: State)
    requires StreamOk(st) && Between(st, es, s) && EventOk(st, es, ev) && ev.Arrives? && Next(st, es) <= ev.unit
    ensures Moves(st, es, ev, React(st, s, ev))
  {
    hide StreamOk, Moves, Patient, Drain, Next, KeyOf, ChunkOf, Store, SendingAt, FlightFrames, FlightBytes,
      SequenceDelta,
      Pends, SetsBefore, KnownTo, SendingOk, ParseChunk, Roomy, Process, Overflows;
    var c := SendingChunk(st, ev.unit, ev.index);
    DrainKept(st, es, s, ev.now);
    KeyDistance(st.base, Next(st, es), ev.unit);
    ProcessIs(s, Wired(st, ev.unit)[ev.index], c, ev.now);
    RoomIs(st, es, ev.unit, ev.index, s);
    StoreRel(st, es, ev.unit, ev.index, ev.now, Next(st, es), s);
    var t := Store(Turn(s, EMPTY_BATCH), c, ev.now);
    StoreKeepsSets(Turn(s, EMPTY_BATCH), c, ev.now);
    assert t == Turn(t.s, EMPTY_BATCH);
    StoredMoves(st, es, ev, s, t.s);
  }

  // ---------------------------------------------------------------- the theorem

  lemma EventOkTyped(st: Stream, es: seq<Event>, ev: Event)
    requires EventOk(st, es, ev)
    ensures EventTyped(st, ev)
  {
  }

  lemma {:induction false} OrderlyTyped(st: Stream, es: seq<Event>)
    requires Orderly(st, es)
    ensures Typed(st, es)
  {
    hide EventOk, EventTyped;
    if es != [] {
      OrderlyTyped(st, es[..|es| - 1]);
      EventOkTyped(st, es[..|es| - 1], es[|es| - 1]);
    }
  }

  /** Over any orderly run the outputs are those of the units before the first incomplete one, in the order sent: as
      soon as a unit and all before it have come whole it is out, once, and nothing else ever is. */
  lemma {:induction false} StreamDelivered(st: Stream, s: State, es: seq<Event>)
    requires StreamOk(st) && Starts(st, s) && Orderly(st, es)
    ensures Typed(st, es) && Run(st, s, es).outs == Outputs(st, Next(st, es))
    ensures Between(st, es, Run(st, s, es).s)
  {
    hide StreamOk, Starts, Between, EventOk, React, Outputs, Next, Moves;
    OrderlyTyped(st, es);
    if es == [] {
      NothingOut(st, s);
    } else {
      var before, ev := es[..|es| - 1], es[|es| - 1];
      assert es == before + [ev];
      StreamDelivered(st, s, before);
      EventMoves(st, before, ev, Run(st, s, before).s);
      MovesIs(st, before, ev, React(st, Run(st, s, before).s, ev));
    }
  }

  lemma EventMoves(st: Stream, es: seq<Event>, ev: Event, s: State)
    requires StreamOk(st) && Between(st, es, s) && EventOk(st, es, ev)
    ensures EventTyped(st, ev) && Moves(st, es, ev, React(st, s, ev))
  {
    hide StreamOk, Between, Moves, React, Next, Patient, Roomy;
    if ev.Ticks? {
      TickMoves(st, es, ev.now, s);
    } else if ev.unit < Next(st, es) {
      StaleMoves(st, es, ev, s);
    } else {
      StoringMoves(st, es, ev, s);
    }
  }

  lemma MovesIs(st: Stream, es: seq<Event>, ev: Event, t: Turn)
    requires Moves(st, es, ev, t)
    ensures StreamOk(st) && Between(st, es + [ev], t.s)
    ensures Outputs(st, Next(st, es)) + Outs(t.b.frames) == Outputs(st, Next(st, es + [ev]))
  {
  }

  lemma NothingOut(st: Stream, s: State)
    requires StreamOk(st) && Starts(st, s)
    ensures Next(st, []) == 0 && Outputs(st, 0) == [] && Between(st, [], s)
  {
    hide Rel, StreamOk, SendingAt;
    StartRel(st, s);
    assert ArrivalsOf([], 0) == [];
    if st.aus != [] { NothingCovered(SendingAt(st, 0)); }
  }

  /** When every packet has come, every unit has been put out, in the order sent. */
  lemma AllDelivered(st: Stream, s: State, es: seq<Event>)
    requires StreamOk(st) && Starts(st, s) && Orderly(st, es)
    requires forall j :: 0 <= j < |st.aus| ==> Arrived(st, es, j)
    ensures Typed(st, es) && Run(st, s, es).outs == Outputs(st, |st.aus|)
  {
    hide StreamOk, Starts, Orderly, Arrived, Outputs;
    StreamDelivered(st, s, es);
    NextIs(st, es, 0, |st.aus|);
  }

  // ---------------------------------------------------------------- an orderly run in which units cross

  /** Two units of one packet each, the second overtaking the first. */
  ghost predicate Pair(st: Stream) {
    StreamOk(st) && st.live && |st.aus| == 2 && Count(st.aus[0].data) == 1 && Count(st.aus[1].data) == 1
  }

  lemma OnePart(st: Stream, es: seq<Event>, j: nat)
    requires Pair(st) && j < 2
    ensures ArrivalsOf(es, j) == [] ==> !Arrived(st, es, j)
    ensures ArrivalsOf(es, j) != [] && ArrivalsOf(es, j)[0].index == 0 ==> Arrived(st, es, j)
    ensures Heard(st, es, j) <= PAYLOAD_BYTES
  {
    hide StreamOk, Size, SendingAt;
    var u, arrivals := SendingAt(st, j), ArrivalsOf(es, j);
    if arrivals == [] { NothingCovered(u); }
    if arrivals != [] && arrivals[0].index == 0 { assert Seen(arrivals, 0); }
    OneSize(u);
    SizeMonotone(Table(u, arrivals), u.parts);
  }

  lemma OneSize(u: Sending)
    requires SendingOk(u) && |u.parts| == 1
    ensures Size(u.parts) <= PAYLOAD_BYTES
  {
    assert u.parts[..0] == [];
  }

  lemma PairHears(at: int, tick: int, late: int)
    ensures var one := [Arrives(1, 0, at)];
            var two := one + [Ticks(tick)];
            var three := two + [Arrives(0, 0, late)];
            && ArrivalsOf([], 0) == ArrivalsOf([], 1) == []
            && ArrivalsOf(one, 0) == ArrivalsOf(two, 0) == [] && ArrivalsOf(three, 0) == [Arrival(0, late)]
            && ArrivalsOf(one, 1) == ArrivalsOf(two, 1) == ArrivalsOf(three, 1) == [Arrival(0, at)]
  {
    var one := [Arrives(1, 0, at)];
    assert [] + [Arrives(1, 0, at)] == one;
    ArrivalsAfter([], Arrives(1, 0, at));
    ArrivalsAfter(one, Ticks(tick));
    ArrivalsAfter(one + [Ticks(tick)], Arrives(0, 0, late));
  }

  /** What has been heard before the first unit's packet: nothing, or the second unit, first at `at`. */
  lemma PairWaits(st: Stream, es: seq<Event>, at: int, now: int)
    requires Pair(st) && ArrivalsOf(es, 0) == [] && ArrivalsOf(es, 1) in {[], [Arrival(0, at)]} && now - at < SKIP_US
    ensures Next(st, es) == 0 && Patient(st, es, now)
    ensures forall j: nat :: j < 2 ==> Near(st, es, j) && Roomy(st, es, j, 0)
  {
    hide StreamOk, SendingAt, Size, Heard, Count, NextFrom;
    OnePart(st, es, 0);
    OnePart(st, es, 1);
    NextIs(st, es, 0, 0);
    assert Flight(st, es, 0) <= {1};
    SubsetSize(Flight(st, es, 0), {1});
    assert FlightBytes(st, es, 2) == 0;
    assert FlightBytes(st, es, 1) == Heard(st, es, 1);
    assert FlightBytes(st, es, 0) == Heard(st, es, 0) + FlightBytes(st, es, 1);
    forall j: nat | j < 2 ensures Roomy(st, es, j, 0) {
      SendingFlags(st, j);
      PartSize(SendingAt(st, j), 0);
    }
  }

  lemma SubsetSize(a: set<nat>, b: set<nat>)
    requires a <= b
    ensures |a| <= |b|
  {
    assert b == a + (b - a);
  }

  lemma PartSize(u: Sending, i: nat)
    requires SendingOk(u) && i < |u.parts|
    ensures |u.parts[i]| <= PAYLOAD_BYTES
  {
  }

  lemma PairDone(st: Stream, es: seq<Event>, at: int, late: int)
    requires Pair(st) && ArrivalsOf(es, 0) == [Arrival(0, late)] && ArrivalsOf(es, 1) == [Arrival(0, at)]
    ensures Next(st, es) == 2 && Patient(st, es, late)
  {
    hide StreamOk, NextFrom;
    OnePart(st, es, 0);
    OnePart(st, es, 1);
    NextIs(st, es, 0, 2);
    assert Flight(st, es, 2) == {};
  }

  /** The second unit is held back while the timer ticks, and both come out in order once the first is there. */
  lemma CrossingDelivered(st: Stream, s: State, at: int, tick: int, late: int)
    requires Pair(st) && Starts(st, s)
    requires 0 <= at && 0 <= tick < at + SKIP_US && 0 <= late < at + SKIP_US
    ensures var es := [Arrives(1, 0, at)] + [Ticks(tick)] + [Arrives(0, 0, late)];
            Orderly(st, es) && Typed(st, es) && Run(st, s, es).outs == Outputs(st, 2)
  {
    hide StreamOk, Patient, Near, Roomy, Starts, Outputs, Run, Next;
    var one := [Arrives(1, 0, at)];
    var two := one + [Ticks(tick)];
    var es := two + [Arrives(0, 0, late)];
    PairHears(at, tick, late);
    assert [] + one == one && one[..0] == [] && two[..1] == one && es[..2] == two;
    PairWaits(st, [], at, at);
    PairWaits(st, one, at, at);
    PairWaits(st, one, at, tick);
    PairWaits(st, two, at, late);
    PairDone(st, es, at, late);
    assert EventOk(st, [], one[0]) && EventOk(st, one, two[1]) && EventOk(st, two, es[2]);
    assert Orderly(st, []);
    assert Orderly(st, one);
    assert Orderly(st, two);
    StreamDelivered(st, s, es);
  }
}
