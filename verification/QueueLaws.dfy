/** What the queue hands out over whole runs: in each epoch one unbroken stretch from a configured IDR on. */
module QueueLaws {
  import opened Wire
  import opened AnnexB
  import opened QueueModel

  datatype Event = PushOf(bytes: Bytes, timestampUs: int, generation: int) | PopNext | ResetAll | InvalidateAll

  /** The state, every unit ever accepted, and of the current epoch: its first event, its accepted and popped units. */
  datatype Trace = Trace(s: State, all: seq<Unit>, since: nat, accepted: seq<Unit>, popped: seq<Unit>)

  function Step(t: Trace, e: Event, index: nat): Trace {
    match e
    case PushOf(bytes, us, generation) =>
      var r := Push(t.s, bytes, us, generation);
      if r.accepted then
        var unit := Unit(bytes, us, generation, t.s.resetSerial);
        Trace(r.s, t.all + [unit], t.since, t.accepted + [unit], t.popped)
      else if r.s != t.s then Trace(r.s, t.all, index + 1, [], [])
      else t
    case PopNext =>
      var r := Pop(t.s);
      if r.unit.Some? then Trace(r.s, t.all, t.since, t.accepted, t.popped + [r.unit.value]) else t
    case ResetAll => Trace(Reset(t.s), t.all, index + 1, [], [])
    case InvalidateAll => Trace(Invalidate(t.s), t.all, index + 1, [], [])
  }

  function Run(events: seq<Event>): Trace {
    if events == [] then Trace(INITIAL, [], 0, [], [])
    else Step(Run(events[..|events| - 1]), events[|events| - 1], |events| - 1)
  }

  // ---------------------------------------------------------------- what an epoch should accept

  predicate Offers(e: Event, generation: int) {
    e.PushOf? && e.bytes != [] && e.generation == generation
  }

  /** The nonempty units offered for this generation, from the first configured IDR on. */
  function FromFirstIdr(events: seq<Event>, generation: int, serial: int): seq<Unit> {
    if events == [] then []
    else
      var n := |events| - 1;
      var earlier := FromFirstIdr(events[..n], generation, serial);
      var e := events[n];
      if Offers(e, generation) && (earlier != [] || ConfiguredIdr(e.bytes)) then
        earlier + [Unit(e.bytes, e.timestampUs, generation, serial)]
      else earlier
  }

  function Total(units: seq<Unit>): nat {
    if units == [] then 0 else Total(units[..|units| - 1]) + |units[|units| - 1].bytes|
  }

  lemma {:induction false} TotalCons(units: seq<Unit>)
    requires units != []
    ensures Total(units) == |units[0].bytes| + Total(units[1..])
  {
    var n := |units| - 1;
    if n == 0 {
      assert units[..0] == [] && units[1..] == [];
    } else {
      assert units[..n][1..] == units[1..][..n - 1];
      TotalCons(units[..n]);
    }
  }

  ghost predicate Bounded(s: State) {
    && |s.queue| <= MAX_FRAMES
    && s.bytes == Total(s.queue) && s.bytes <= MAX_QUEUED
  }

  ghost predicate EpochOf(t: Trace, events: seq<Event>) {
    && t.since <= |events|
    && t.accepted == FromFirstIdr(events[t.since..], t.s.generation, t.s.resetSerial)
    && t.popped + t.s.queue == t.accepted
    && (t.s.waiting <==> t.accepted == [])
  }

  ghost predicate Labelled(units: seq<Unit>, generation: int, serial: int) {
    forall i :: 0 <= i < |units| ==> units[i].generation == generation && units[i].resetSerial == serial
  }

  ghost predicate Older(units: seq<Unit>, serial: int) {
    forall i :: 0 <= i < |units| ==> units[i].resetSerial < serial
  }

  /** All units accepted: those of ended epochs, with smaller serials, then those of the current one. */
  ghost predicate History(t: Trace) {
    exists earlier :: HistoryIs(t, earlier)
  }

  ghost predicate HistoryIs(t: Trace, earlier: seq<Unit>) {
    t.all == earlier + t.accepted && Older(earlier, t.s.resetSerial)
      && Labelled(t.accepted, t.s.generation, t.s.resetSerial)
  }

  lemma PushBounded(s: State, bytes: Bytes, us: int, generation: int)
    requires Bounded(s)
    ensures Bounded(Push(s, bytes, us, generation).s)
  {
    hide ConfiguredIdr;
    var unit := Unit(bytes, us, generation, s.resetSerial);
    assert (s.queue + [unit])[..|s.queue|] == s.queue;
  }

  lemma PopBounded(s: State)
    requires Bounded(s)
    ensures Bounded(Pop(s).s)
  {
    if s.queue != [] { TotalCons(s.queue); }
  }

  lemma SuffixSnoc(events: seq<Event>, e: Event, since: nat)
    requires since <= |events|
    ensures (events + [e])[since..] == events[since..] + [e] && (events[since..] + [e])[..|events| - since]
            == events[since..]
  {
  }

  /** How one more event continues an epoch. */
  lemma OneMore(events: seq<Event>, e: Event, since: nat, generation: int, serial: int)
    requires since <= |events|
    ensures var earlier := FromFirstIdr(events[since..], generation, serial);
            FromFirstIdr((events + [e])[since..], generation, serial)
            == if Offers(e, generation) && (earlier != [] || ConfiguredIdr(e.bytes))
               then earlier + [Unit(e.bytes, e.timestampUs, generation, serial)] else earlier
  {
    hide ConfiguredIdr;
    SuffixSnoc(events, e, since);
  }

  lemma EpochStarts(t: Trace, events: seq<Event>, s: State)
    requires s.queue == [] && s.waiting
    ensures EpochOf(Trace(s, t.all, |events|, [], []), events)
  {
    hide ConfiguredIdr;
    assert events[|events|..] == [];
  }

  lemma PushEpoch(t: Trace, events: seq<Event>, e: Event)
    requires EpochOf(t, events) && Bounded(t.s) && e.PushOf?
    ensures EpochOf(Step(t, e, |events|), events + [e]) && Bounded(Step(t, e, |events|).s)
  {
    hide ConfiguredIdr, Overflows, Bounded, FromFirstIdr;
    OneMore(events, e, t.since, t.s.generation, t.s.resetSerial);
    PushBounded(t.s, e.bytes, e.timestampUs, e.generation);
    var unit := Unit(e.bytes, e.timestampUs, e.generation, t.s.resetSerial);
    assert t.popped + (t.s.queue + [unit]) == t.popped + t.s.queue + [unit];
    EpochStarts(t, events + [e], Emptied(t.s, t.s.generation));
  }

  lemma StepEpoch(t: Trace, events: seq<Event>, e: Event)
    requires EpochOf(t, events) && Bounded(t.s)
    ensures EpochOf(Step(t, e, |events|), events + [e]) && Bounded(Step(t, e, |events|).s)
  {
    hide ConfiguredIdr, Overflows, Bounded, FromFirstIdr;
    match e
    case PushOf(_, _, _) =>
      PushEpoch(t, events, e);
    case PopNext =>
      PopBounded(t.s);
      OneMore(events, e, t.since, t.s.generation, t.s.resetSerial);
      if t.s.queue != [] {
        assert t.s.queue == [t.s.queue[0]] + t.s.queue[1..];
        assert t.popped + [t.s.queue[0]] + t.s.queue[1..] == t.popped + t.s.queue;
      }
    case ResetAll =>
      EmptiedBounded(t.s, t.s.generation + 1);
      EpochStarts(t, events + [e], Reset(t.s));
    case InvalidateAll =>
      EmptiedBounded(t.s, t.s.generation);
      EpochStarts(t, events + [e], Invalidate(t.s));
  }

  lemma EmptiedBounded(s: State, generation: int)
    ensures Bounded(Emptied(s, generation))
  {
  }

  lemma StepHistory(t: Trace, e: Event, index: nat)
    requires History(t)
    ensures History(Step(t, e, index))
  {
    hide ConfiguredIdr, Overflows;
    var earlier :| HistoryIs(t, earlier);
    var after := Step(t, e, index);
    if after.since == index + 1 && after.s.resetSerial == t.s.resetSerial + 1 {
      assert HistoryIs(after, t.all);
    } else {
      if after.accepted != t.accepted {
        assert earlier + t.accepted + [after.accepted[|t.accepted|]] == earlier
          + (t.accepted + [after.accepted[|t.accepted|]]);
      }
      assert HistoryIs(after, earlier);
    }
  }

  /** Over every run: the current epoch accepted exactly the nonempty units offered for its generation from the first
      configured IDR on, none refused and none missing, pops hand them out in order, and the byte count is their sum. */
  lemma {:induction false} RunKeepsEpochs(events: seq<Event>)
    ensures EpochOf(Run(events), events) && Bounded(Run(events).s) && History(Run(events))
  {
    hide Step, EpochOf, History, Bounded;
    if events == [] {
      StartKeeps();
    } else {
      var n := |events| - 1;
      RunKeepsEpochs(events[..n]);
      assert events == events[..n] + [events[n]];
      StepEpoch(Run(events[..n]), events[..n], events[n]);
      StepHistory(Run(events[..n]), events[n], n);
    }
  }

  lemma StartKeeps()
    ensures var t := Trace(INITIAL, [], 0, [], []);
            EpochOf(t, []) && Bounded(t.s) && History(t)
  {
    var t := Trace(INITIAL, [], 0, [], []);
    var none: seq<Unit> := [];
    assert HistoryIs(t, none);
  }

  /** A unit is current exactly while the epoch that accepted it lasts. */
  lemma CurrentExactlyInItsEpoch(events: seq<Event>, i: nat)
    requires i < |Run(events).all|
    ensures var t := Run(events);
            |t.accepted| <= |t.all| && (Current(t.s, t.all[i]) <==> i >= |t.all| - |t.accepted|)
  {
    hide Run, EpochOf, Bounded;
    RunKeepsEpochs(events);
    var t := Run(events);
    var earlier :| HistoryIs(t, earlier);
    if i < |earlier| { assert t.all[i] == earlier[i]; } else { assert t.all[i] == t.accepted[i - |earlier|]; }
  }

  lemma SerialsGrow(t: Trace, e: Event, index: nat)
    ensures Step(t, e, index).s.resetSerial >= t.s.resetSerial
    ensures Step(t, e, index).s.resetSerial == t.s.resetSerial ==> Step(t, e, index).s.generation == t.s.generation
  {
    hide ConfiguredIdr, Overflows;
  }

  /** Once not current, never current again, whatever happens later. */
  lemma {:induction false} NeverCurrentAgain(events: seq<Event>, more: seq<Event>, i: nat)
    requires i < |Run(events).all| && !Current(Run(events).s, Run(events).all[i])
    ensures !Current(Run(events + more).s, Run(events).all[i])
  {
    hide Step, EpochOf, Bounded, Run;
    RunKeepsEpochs(events);
    var t := Run(events);
    var earlier :| HistoryIs(t, earlier);
    CurrentExactlyInItsEpoch(events, i);
    assert t.all[i] == earlier[i];
    SerialsGrowLater(events, more);
  }

  lemma {:induction false} SerialsGrowLater(events: seq<Event>, more: seq<Event>)
    ensures Run(events + more).s.resetSerial >= Run(events).s.resetSerial
    decreases |more|
  {
    hide Step;
    if more == [] {
      assert events + more == events;
    } else {
      var n := |more| - 1;
      assert (events + more)[..|events| + n] == events + more[..n];
      SerialsGrowLater(events, more[..n]);
      SerialsGrow(Run(events + more[..n]), more[n], |events| + n);
    }
  }

  /** A push ends the epoch exactly when it overflows: nonempty, for the current generation, and over a bound. */
  lemma PushEndsEpoch(s: State, bytes: Bytes, us: int, generation: int)
    requires Bounded(s)
    ensures var after := Push(s, bytes, us, generation).s;
            after.resetSerial != s.resetSerial
            <==> (bytes != [] && generation == s.generation
                  && (|s.queue| == MAX_FRAMES || Total(s.queue) + |bytes| > MAX_QUEUED))
  {
    hide ConfiguredIdr, Total;
  }

  // ---------------------------------------------------------------- generations and serials

  function Resets(events: seq<Event>): nat {
    if events == [] then 0
    else Resets(events[..|events| - 1]) + if events[|events| - 1].ResetAll? then 1 else 0
  }

  /** A reset or an invalidation ends the epoch, and so does a push for this generation that is over a bound. */
  predicate EndsEpoch(s: State, e: Event) {
    match e
    case ResetAll => true
    case InvalidateAll => true
    case PopNext => false
    case PushOf(bytes, _, generation) =>
      bytes != [] && generation == s.generation
      && (|s.queue| == MAX_FRAMES || Total(s.queue) + |bytes| > MAX_QUEUED)
  }

  function Epochs(events: seq<Event>): nat {
    if events == [] then 0
    else
      var n := |events| - 1;
      Epochs(events[..n]) + if EndsEpoch(Run(events[..n]).s, events[n]) then 1 else 0
  }

  /** How many events there were when the last one ended an epoch. */
  function LastEnd(events: seq<Event>): nat {
    if events == [] then 0
    else
      var n := |events| - 1;
      if EndsEpoch(Run(events[..n]).s, events[n]) then |events| else LastEnd(events[..n])
  }

  /** The generation counts the resets, the serial the ended epochs, and the current epoch began after the
      last event that ended one. */
  lemma {:induction false} RunNumbers(events: seq<Event>)
    ensures var t := Run(events);
            t.s.generation == 1 + Resets(events) && t.s.resetSerial == 1 + Epochs(events) && t.since == LastEnd(events)
  {
    if events != [] {
      hide Bounded, EpochOf, History, EndsEpoch, Step;
      var n := |events| - 1;
      RunNumbers(events[..n]);
      RunKeepsEpochs(events[..n]);
      StepNumbers(Run(events[..n]), events[n], n);
    }
  }

  lemma StepNumbers(t: Trace, e: Event, index: nat)
    requires Bounded(t.s)
    ensures var after := Step(t, e, index);
            var ends := EndsEpoch(t.s, e);
            && after.s.generation == t.s.generation + (if e.ResetAll? then 1 else 0)
            && after.s.resetSerial == t.s.resetSerial + (if ends then 1 else 0)
            && after.since == if ends then index + 1 else t.since
  {
    hide ConfiguredIdr, Total;
  }

  /** A pop after any run gives the first unit accepted in this epoch and not yet popped, if there is one. */
  lemma PopGivesNext(events: seq<Event>)
    ensures var t := Run(events);
            Pop(t.s).unit == if |t.popped| < |t.accepted| then Some(t.accepted[|t.popped|]) else None
  {
    RunKeepsEpochs(events);
    hide Run, Bounded, History, FromFirstIdr;
    var t := Run(events);
    assert t.popped + t.s.queue == t.accepted;
  }
}
