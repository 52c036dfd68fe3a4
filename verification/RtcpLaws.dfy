/** The fixed ring counts as an unbounded set of extended sequence numbers would. */
module RtcpLaws {
  import opened Wire
  import opened RtcpModel

  // ---------------------------------------------------------------- the reference: a set without bound

  datatype Ideal = Ideal(counts: Counts, accepted: set<int>)

  const NOTHING := Ideal(INITIAL.counts, {})

  /** The counter `received` is the size of the set; no ring is consulted. */
  function IdealRecord(i: Ideal, n: U16): Ideal {
    match Extend(i.counts, n)
    case None => i
    case Some(e) =>
      var accepted := i.accepted + {e};
      Ideal(Count(i.counts, e).(received := |accepted|), accepted)
  }

  ghost predicate InRange(i: Ideal) {
    && (forall e :: e in i.accepted ==> 0 <= i.counts.base <= e <= i.counts.highest)
    && (i.counts.started ==> i.counts.base in i.accepted && i.counts.highest in i.accepted)
    && (!i.counts.started ==> i.accepted == {})
    && i.counts.received == |i.accepted|
  }

  ghost predicate RingHolds(seen: Seen, accepted: set<int>, highest: int) {
    && (forall j :: 0 <= j < RING ==> seen[j] == NEVER || (seen[j] in accepted && seen[j] % RING == j))
    && (forall e :: e in accepted && highest - e < RING ==> seen[e % RING] == e)
  }

  ghost predicate Mirrors(s: State, i: Ideal) {
    s.counts == i.counts && InRange(i) && RingHolds(s.seen, i.accepted, i.counts.highest)
  }

  lemma SameSlot(a: int, b: int)
    requires -RING < a - b < RING && a % RING == b % RING
    ensures a == b
  {
  }

  lemma RingKeeps(seen: Seen, accepted: set<int>, highest: int, e: int, top: int)
    requires RingHolds(seen, accepted, highest) && e >= 0 && highest - e < RING
    requires forall k :: k in accepted ==> k <= highest
    requires top == (if e > highest then e else highest) || (accepted == {} && top == e)
    ensures RingHolds(seen[e % RING := e], accepted + {e}, top)
  {
    var after := seen[e % RING := e];
    forall k | k in accepted + {e} && top - k < RING ensures after[k % RING] == k {
      if k != e && k % RING == e % RING { SameSlot(k, e); }
    }
  }

  /** The ring finds an extended number that may still be counted exactly when the set holds it. */
  lemma RingAnswers(s: State, i: Ideal, n: U16)
    requires Mirrors(s, i) && i.counts.started && Extend(i.counts, n).Some?
    ensures var e := Extend(i.counts, n).value;
            s.seen[e % RING] == e <==> e in i.accepted
  {
    hide SequenceDelta;
    var e := Extend(i.counts, n).value;
    assert e >= 0;
  }

  lemma RecordMirrors(s: State, i: Ideal, n: U16)
    requires Mirrors(s, i)
    ensures Mirrors(Record(s, n), IdealRecord(i, n))
  {
    hide SequenceDelta, RingHolds;
    match Extend(s.counts, n)
    case None =>
    case Some(e) =>
      ExtendBounds(i.counts, n);
      if i.counts.started {
        RingAnswers(s, i, n);
        if e in i.accepted {
          assert i.accepted + {e} == i.accepted;
        } else {
          RingKeeps(s.seen, i.accepted, i.counts.highest, e, Count(i.counts, e).highest);
        }
      } else {
        EmptyRing(s.seen, i.counts.highest);
        RingKeeps(s.seen, i.accepted, -1, e, e);
      }
  }

  lemma EmptyRing(seen: Seen, highest: int)
    requires RingHolds(seen, {}, highest)
    ensures RingHolds(seen, {}, -1)
  {
  }

  lemma ExtendBounds(c: Counts, n: U16)
    requires Extend(c, n).Some?
    ensures var e := Extend(c, n).value;
            if c.started then e >= c.base && c.highest - e < RING && (e - n) % 0x1_0000 == 0 else e == n
  {
    if c.started {
      var delta := SequenceDelta(n, c.highest % 0x1_0000);
      assert (c.highest % 0x1_0000 + delta) % 0x1_0000 == n;
    }
  }

  // ---------------------------------------------------------------- sizes

  lemma {:induction false} RangeSize(a: set<int>, lo: int, hi: int)
    requires forall e :: e in a ==> lo <= e <= hi
    ensures |a| <= (if hi < lo then 0 else hi - lo + 1)
    decreases if hi < lo then 0 else hi - lo + 1
  {
    if hi < lo {
      forall e ensures e !in a {}
      assert a == {};
    } else {
      var rest := a - {hi};
      RangeSize(rest, lo, hi - 1);
      if hi !in a { assert rest == a; }
    }
  }

  /** No more was received than expected, so a cumulative loss never has to be cut at zero. */
  lemma NeverOvercounts(i: Ideal)
    requires InRange(i) && i.counts.started
    ensures 1 <= i.counts.received <= Expected(i.counts)
    ensures Lost(i.counts) == Expected(i.counts) - |i.accepted|
  {
    RangeSize(i.accepted, i.counts.base, i.counts.highest);
    assert i.counts.base in i.accepted;
  }

  // ---------------------------------------------------------------- runs with reports

  datatype Event = Packet(n: U16) | Report

  /** One event; a report is made only once a packet was recorded, and tells the interval since the one before. */
  datatype Trace = Trace(s: State, intervals: seq<Interval>)

  function Step(t: Trace, e: Event): Trace {
    match e
    case Packet(n) => Trace(Record(t.s, n), t.intervals)
    case Report =>
      if !t.s.counts.started then t
      else Trace(State(Reported(t.s.counts), t.s.seen), t.intervals + [IntervalOf(t.s.counts)])
  }

  function Run(events: seq<Event>): Trace {
    if events == [] then Trace(INITIAL, []) else Step(Run(events[..|events| - 1]), events[|events| - 1])
  }

  function IdealRun(events: seq<Event>): Ideal {
    if events == [] then NOTHING
    else
      var before := IdealRun(events[..|events| - 1]);
      match events[|events| - 1]
      case Packet(n) => IdealRecord(before, n)
      case Report => if before.counts.started then Ideal(Reported(before.counts), before.accepted) else before
  }

  function SumExpected(intervals: seq<Interval>): int {
    if intervals == [] then 0 else SumExpected(intervals[..|intervals| - 1]) + intervals[|intervals| - 1].expected
  }

  function SumReceived(intervals: seq<Interval>): int {
    if intervals == [] then 0 else SumReceived(intervals[..|intervals| - 1]) + intervals[|intervals| - 1].received
  }

  /** For every run from a fresh source: the ring's state is the unbounded set's. What the reports tell adds up: the
      intervals are never negative and their sums are the totals at the last report. */
  lemma {:induction false} RingIsTheSet(events: seq<Event>)
    ensures var t := Run(events);
            && Mirrors(t.s, IdealRun(events))
            && Sane(t.s.counts)
            && SumExpected(t.intervals) == t.s.counts.previousExpected
            && SumReceived(t.intervals) == t.s.counts.previousReceived
            && forall k :: 0 <= k < |t.intervals| ==> t.intervals[k].expected >= 0 && t.intervals[k].received >= 0
  {
    hide Mirrors, Record, IdealRecord, Extend;
    if events == [] {
      FreshMirrors();
    } else {
      var n := |events| - 1;
      var before, ideal := Run(events[..n]), IdealRun(events[..n]);
      RingIsTheSet(events[..n]);
      match events[n]
      case Packet(p) =>
        RecordMirrors(before.s, ideal, p);
        RecordAdvances(before.s, p);
      case Report =>
        ReportMirrors(before.s, ideal);
        if before.s.counts.started {
          var all := before.intervals + [IntervalOf(before.s.counts)];
          assert all[..|all| - 1] == before.intervals;
        }
    }
  }

  lemma FreshMirrors()
    ensures Mirrors(INITIAL, NOTHING)
  {
  }

  lemma ReportMirrors(s: State, i: Ideal)
    requires Mirrors(s, i)
    ensures s.counts.started == i.counts.started
    ensures Mirrors(State(Reported(s.counts), s.seen), Ideal(Reported(i.counts), i.accepted))
  {
    hide RingHolds;
  }

  lemma RecordAdvances(s: State, n: U16)
    requires Sane(s.counts)
    ensures Sane(Record(s, n).counts)
    ensures var c := Record(s, n).counts;
            c.previousExpected == s.counts.previousExpected && c.previousReceived == s.counts.previousReceived
  {
    hide SequenceDelta;
  }

  // ---------------------------------------------------------------- what the sender numbered

  function Top(numbers: seq<int>): (top: int)
    requires numbers != []
    ensures numbers[0] <= top
  {
    var n := |numbers| - 1;
    if n == 0 then numbers[0]
    else if numbers[n] > Top(numbers[..n]) then numbers[n]
    else Top(numbers[..n])
  }

  /** The packets that count: not before the first one, and on arrival less than 2048 behind the newest. */
  function Counted(numbers: seq<int>): set<int> {
    if numbers == [] then {}
    else
      var n := |numbers| - 1;
      if n == 0 || (numbers[n] >= numbers[0] && Top(numbers[..n]) - numbers[n] < RING)
        then Counted(numbers[..n]) + {numbers[n]}
      else Counted(numbers[..n])
  }

  /** Each packet is less than half the 16-bit circle from the newest so far. */
  ghost predicate Near(numbers: seq<int>) {
    forall i :: 0 < i < |numbers| ==> -0x8000 <= numbers[i] - Top(numbers[..i]) < 0x8000
  }

  function Cut(numbers: seq<int>): (events: seq<Event>)
    ensures |events| == |numbers|
  {
    if numbers == [] then [] else Cut(numbers[..|numbers| - 1]) + [Packet(numbers[|numbers| - 1] % 0x1_0000)]
  }

  ghost predicate Shifted(accepted: set<int>, counted: set<int>, offset: int) {
    |accepted| == |counted| && forall e :: Agrees(accepted, counted, offset, e)
  }

  ghost predicate Agrees(accepted: set<int>, counted: set<int>, offset: int, e: int) {
    e in accepted <==> e + offset in counted
  }

  ghost predicate Follows(i: Ideal, numbers: seq<int>)
    requires numbers != []
  {
    var offset := numbers[0] - numbers[0] % 0x1_0000;
    && i.counts.started
    && i.counts.base == numbers[0] - offset
    && i.counts.highest == Top(numbers) - offset
    && i.counts.received == |i.accepted|
    && Shifted(i.accepted, Counted(numbers), offset)
  }

  lemma ExtendFollows(c: Counts, first: int, top: int, number: int)
    requires c.started && first <= top && -0x8000 <= number - top < 0x8000
    requires var offset := first - first % 0x1_0000; c.base == first - offset && c.highest == top - offset
    ensures var offset := first - first % 0x1_0000;
            Extend(c, number % 0x1_0000) == if number >= first && top - number < RING then Some(number - offset)
              else None
  {
    hide SequenceDelta;
    OffsetIsRound(first);
    var offset := first - first % 0x1_0000;
    SameCircle(number, top, offset);
  }

  lemma OffsetIsRound(first: int)
    ensures (first - first % 0x1_0000) % 0x1_0000 == 0
  {
  }

  lemma SameCircle(number: int, top: int, offset: int)
    requires offset % 0x1_0000 == 0 && -0x8000 <= number - top < 0x8000
    ensures SequenceDelta(number % 0x1_0000, (top - offset) % 0x1_0000) == number - top
  {
    assert (top - offset) % 0x1_0000 == top % 0x1_0000;
  }

  lemma AddsBoth(accepted: set<int>, counted: set<int>, offset: int, number: int)
    requires Shifted(accepted, counted, offset)
    ensures Shifted(accepted + {number - offset}, counted + {number}, offset)
  {
    var more, others := accepted + {number - offset}, counted + {number};
    assert Agrees(accepted, counted, offset, number - offset);
    forall e ensures Agrees(more, others, offset, e) {
      assert Agrees(accepted, counted, offset, e);
    }
    if number in counted {
      assert more == accepted && others == counted;
    }
  }

  lemma {:induction false} FollowsNumbers(numbers: seq<int>)
    requires numbers != [] && Near(numbers)
    ensures Follows(IdealRun(Cut(numbers)), numbers)
    decreases |numbers|
  {
    hide Extend, Shifted, Near, Follows, Top, Counted, IdealRecord;
    var n := |numbers| - 1;
    var earlier, last := numbers[..n], numbers[n];
    var before := IdealRun(Cut(earlier));
    assert Cut(numbers)[..n] == Cut(earlier);
    if n == 0 {
      FirstFollows(numbers);
    } else {
      NearBefore(numbers);
      FollowsNumbers(earlier);
      OneFollows(before, numbers);
    }
  }

  lemma OneFollows(before: Ideal, numbers: seq<int>)
    requires |numbers| > 1
    requires var n := |numbers| - 1;
             Follows(before, numbers[..n]) && -0x8000 <= numbers[n] - Top(numbers[..n]) < 0x8000
    ensures Follows(IdealRecord(before, numbers[|numbers| - 1] % 0x1_0000), numbers)
  {
    hide Extend, Shifted;
    var n := |numbers| - 1;
    var earlier, last := numbers[..n], numbers[n];
    assert earlier[0] == numbers[0];
    ExtendFollows(before.counts, numbers[0], Top(earlier), last);
    AddsBoth(before.accepted, Counted(earlier), numbers[0] - numbers[0] % 0x1_0000, last);
  }

  lemma FirstFollows(numbers: seq<int>)
    requires |numbers| == 1
    ensures Follows(IdealRecord(NOTHING, numbers[0] % 0x1_0000), numbers)
  {
    hide SequenceDelta;
    var number := numbers[0];
    var accepted, counted := {number % 0x1_0000}, {number};
    assert {} + accepted == accepted;
    assert Counted(numbers) == Counted(numbers[..0]) + counted == counted;
    var offset := number - number % 0x1_0000;
    forall e ensures Agrees(accepted, counted, offset, e) {}
  }

  lemma NearBefore(numbers: seq<int>)
    requires |numbers| > 1 && Near(numbers)
    ensures var n := |numbers| - 1;
            Near(numbers[..n]) && -0x8000 <= numbers[n] - Top(numbers[..n]) < 0x8000 && numbers[..n][0] == numbers[0]
  {
    var n := |numbers| - 1;
    forall i | 0 < i < n ensures numbers[..n][..i] == numbers[..i] {}
  }

  /** What the ring counts, in the sender's own numbering: of the packets sent from the first one heard to the newest,
      exactly the distinct ones that were heard in time count as received, however often the 16 bits wrapped. */
  lemma CountsWhatWasHeard(numbers: seq<int>)
    requires numbers != [] && Near(numbers)
    ensures var c := Run(Cut(numbers)).s.counts;
            && Expected(c) == Top(numbers) - numbers[0] + 1
            && c.received == |Counted(numbers)|
            && Lost(c) == Top(numbers) - numbers[0] + 1 - |Counted(numbers)|
            && (c.base - numbers[0]) % 0x1_0000 == 0 == (c.highest - Top(numbers)) % 0x1_0000
  {
    hide Run, IdealRun, Cut, Counted, Near, RingHolds;
    RingIsTheSet(Cut(numbers));
    FollowsNumbers(numbers);
    NeverOvercounts(IdealRun(Cut(numbers)));
    OffsetIsRound(numbers[0]);
  }
}
