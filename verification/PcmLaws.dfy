/** Accounting and order over whole runs of the PCM queue. */
module PcmLaws {
  import opened PcmModel

  datatype Event = Pushes(data: seq<Sample>) | Pops(room: nat) | Clears

  /** The state, everything offered so far, and what each pop gave: its place in that stream, the room there
      was for it, and how much had been offered by then. */
  datatype Trace = Trace(s: State, offered: seq<Sample>, given: seq<Given>)

  datatype Given = Given(start: int, out: seq<Sample>, room: nat, until: nat)

  function Step(b: Bounds, t: Trace, e: Event): Trace {
    match e
    case Pushes(data) => Trace(Push(b, t.s, data), t.offered + data, t.given)
    case Pops(room) =>
      var p := Pop(t.s, room);
      Trace(p.s, t.offered, t.given + [Given(|t.offered| - |t.s.queue|, p.out, room, |t.offered|)])
    case Clears => Trace(Clear(t.s), t.offered, t.given)
  }

  function Run(b: Bounds, events: seq<Event>): Trace {
    if events == [] then Trace(INITIAL, [], []) else Step(b, Run(b, events[..|events| - 1]), events[|events| - 1])
  }

  /** The queue is always the newest part of the stream, within the bounds, and the counters account for the rest. */
  ghost predicate Accounted(b: Bounds, t: Trace) {
    && |t.s.queue| <= b.capacity && |t.s.queue| <= b.highWater
    && |t.s.queue| <= t.s.stats.depthHigh <= Least(b.capacity, b.highWater)
    && t.s.queue == Newest(t.offered, |t.s.queue|) && |t.s.queue| <= |t.offered|
    && t.s.stats.pushed == |t.offered|
    && |t.s.queue| == t.s.stats.pushed - t.s.stats.dropped - t.s.stats.popped
  }

  /** Each pop gave a stretch of the stream, after the one before and before what is queued. */
  ghost predicate InOrder(t: Trace) {
    && (forall i :: 0 <= i < |t.given| ==> IsStretch(t.offered, t.given[i]))
    && (forall i :: 0 < i < |t.given| ==> t.given[i - 1].start + |t.given[i - 1].out| <= t.given[i].start)
    && (t.given != [] ==> t.given[|t.given| - 1].start + |t.given[|t.given| - 1].out| <= |t.offered| - |t.s.queue|)
  }

  ghost predicate IsStretch(stream: seq<Sample>, g: Given) {
    0 <= g.start <= g.start + |g.out| <= |stream| && stream[g.start..g.start + |g.out|] == g.out
  }

  lemma NewestOfAppend(stream: seq<Sample>, data: seq<Sample>, k: nat, n: nat)
    requires k <= |stream| && n <= k + |data|
    ensures Newest(Newest(stream, k) + data, n) == Newest(stream + data, n)
  {
    var all, some := stream + data, Newest(stream, k) + data;
    assert some == all[|stream| - k..];
  }

  lemma NewestTwice(s: seq<Sample>, n: nat, m: nat)
    requires m <= n
    ensures Newest(Newest(s, n), m) == Newest(s, m)
  {
  }

  lemma KeptIsNewest(b: Bounds, queue: seq<Sample>, data: seq<Sample>)
    requires Settled(b)
    ensures Kept(b, queue, data) == Newest(queue + data, |Kept(b, queue, data)|)
    ensures |Kept(b, queue, data)| <= Least(b.capacity, b.highWater) && |Kept(b, queue, data)| <= |queue| + |data|
  {
    if b.target <= b.capacity { NewestTwice(queue + data, b.capacity, b.target); }
  }

  lemma PushAccounted(b: Bounds, t: Trace, data: seq<Sample>)
    requires Settled(b) && Accounted(b, t)
    ensures Accounted(b, Step(b, t, Pushes(data)))
  {
    hide Kept, Newest;
    KeptIsNewest(b, t.s.queue, data);
    NewestOfAppend(t.offered, data, |t.s.queue|, |Kept(b, t.s.queue, data)|);
    if data == [] { assert t.offered + data == t.offered; }
  }

  lemma PopAccounted(b: Bounds, t: Trace, room: nat)
    requires Accounted(b, t)
    ensures Accounted(b, Step(b, t, Pops(room)))
  {
  }

  lemma StretchStays(stream: seq<Sample>, data: seq<Sample>, g: Given)
    requires IsStretch(stream, g)
    ensures IsStretch(stream + data, g)
  {
    assert (stream + data)[g.start..g.start + |g.out|] == stream[g.start..g.start + |g.out|];
  }

  lemma StepInOrder(b: Bounds, t: Trace, e: Event)
    requires Settled(b) && Accounted(b, t) && InOrder(t)
    ensures InOrder(Step(b, t, e))
  {
    hide Kept, IsStretch;
    match e
    case Pushes(data) =>
      KeptIsNewest(b, t.s.queue, data);
      forall i | 0 <= i < |t.given| ensures IsStretch(t.offered + data, t.given[i]) {
        StretchStays(t.offered, data, t.given[i]);
      }
    case Pops(room) => PopIsStretch(t, room);
    case Clears =>
  }

  lemma PopIsStretch(t: Trace, room: nat)
    requires |t.s.queue| <= |t.offered| && t.s.queue == Newest(t.offered, |t.s.queue|)
    ensures IsStretch(t.offered, Given(|t.offered| - |t.s.queue|, Pop(t.s, room).out, room, |t.offered|))
  {
    var take := Least(room, |t.s.queue|);
    var start := |t.offered| - |t.s.queue|;
    assert t.offered[start..][..take] == t.offered[start..start + take];
  }

  /** Over all runs of push, pop and clear: the depth is what was pushed less what was dropped
      and popped, the queue holds the newest of everything offered, and the pops hand out stretches of it in order,
      none twice. */
  lemma {:induction false} RunAccounted(b: Bounds, events: seq<Event>)
    requires Settled(b)
    ensures Accounted(b, Run(b, events)) && InOrder(Run(b, events))
  {
    hide Accounted, InOrder, Step;
    if events == [] {
      StartAccounted(b);
    } else {
      var t, e := Run(b, events[..|events| - 1]), events[|events| - 1];
      RunAccounted(b, events[..|events| - 1]);
      StepInOrder(b, t, e);
      match e
      case Pushes(data) => PushAccounted(b, t, data);
      case Pops(room) => PopAccounted(b, t, room);
      case Clears => ClearAccounted(b, t);
    }
  }

  lemma ClearAccounted(b: Bounds, t: Trace)
    requires Accounted(b, t)
    ensures Accounted(b, Step(b, t, Clears))
  {
  }

  lemma StartAccounted(b: Bounds)
    ensures Accounted(b, Trace(INITIAL, [], [])) && InOrder(Trace(INITIAL, [], []))
  {
  }

  /** Elements offered after any run are all kept when they fit both bounds. If they do not, the newest remain: as
      many as the target above the high water mark, and as many as fit when the capacity is no more than that. */
  lemma OverflowLeavesTarget(b: Bounds, events: seq<Event>, data: seq<Sample>)
    requires Settled(b) && data != []
    ensures var before, after := Run(b, events), Run(b, events + [Pushes(data)]);
            var wanted := |before.s.queue| + |data|;
            && after.offered == before.offered + data && |after.s.queue| <= |after.offered|
            && after.s.queue == Newest(after.offered, |after.s.queue|)
            && |after.s.queue| == (if wanted <= Least(b.capacity, b.highWater) then wanted
                                   else if b.capacity <= b.highWater then b.capacity
                                   else b.target)
            && after.s.stats.dropped == before.s.stats.dropped + wanted - |after.s.queue|
  {
    hide Accounted, InOrder;
    var more := events + [Pushes(data)];
    assert more[..|events|] == events;
    RunAccounted(b, more);
    AccountedNewest(b, Run(b, more));
    hide Run, Newest;
    KeptLength(b, Run(b, events).s.queue, data);
  }

  lemma AccountedNewest(b: Bounds, t: Trace)
    requires Accounted(b, t)
    ensures t.s.queue == Newest(t.offered, |t.s.queue|) && |t.s.queue| <= |t.offered|
  {
  }

  lemma KeptLength(b: Bounds, queue: seq<Sample>, data: seq<Sample>)
    requires Settled(b)
    ensures |Kept(b, queue, data)|
            == if |queue| + |data| <= Least(b.capacity, b.highWater) then |queue| + |data|
               else if b.capacity <= b.highWater then b.capacity
               else b.target
  {
  }

  /** Everything the pops gave, added up. */
  function Total(given: seq<Given>): nat {
    if given == [] then 0 else Total(given[..|given| - 1]) + |given[|given| - 1].out|
  }

  /** How many pops had room and found nothing. */
  function Misses(given: seq<Given>): nat {
    if given == [] then 0
    else
      var g := given[|given| - 1];
      Misses(given[..|given| - 1]) + if g.room > 0 && g.start == g.until then 1 else 0
  }

  /** The largest depth after any event so far. */
  function HighestDepth(b: Bounds, events: seq<Event>): nat {
    if events == [] then 0
    else
      var before, depth := HighestDepth(b, events[..|events| - 1]), |Run(b, events).s.queue|;
      if depth > before then depth else before
  }

  /** Each pop gave all its room could take of what was left in the stream, and the counters are what they are
      named for. */
  ghost predicate CountersTell(b: Bounds, t: Trace, events: seq<Event>) {
    && (forall i :: 0 <= i < |t.given| ==> Full(t.given[i]))
    && t.s.stats.popped == Total(t.given)
    && t.s.stats.underruns == Misses(t.given)
    && t.s.stats.depthHigh == HighestDepth(b, events)
  }

  predicate Full(g: Given) {
    g.start <= g.until && |g.out| == Least(g.room, g.until - g.start)
  }

  lemma {:induction false} RunCounts(b: Bounds, events: seq<Event>)
    requires Settled(b)
    ensures CountersTell(b, Run(b, events), events)
  {
    if events != [] {
      hide Run, Accounted, InOrder, CountersTell;
      var earlier, e := events[..|events| - 1], events[|events| - 1];
      RunCounts(b, earlier);
      RunAccounted(b, earlier);
      RunAccounted(b, events);
      AccountedDepth(b, Run(b, earlier));
      AccountedDepth(b, Run(b, events));
      RunStep(b, events);
      StepCounts(b, Run(b, earlier), e, events);
    } else {
      hide Accounted, InOrder;
      StartAccounted(b);
    }
  }

  lemma RunStep(b: Bounds, events: seq<Event>)
    requires events != []
    ensures Run(b, events) == Step(b, Run(b, events[..|events| - 1]), events[|events| - 1])
  {
  }

  lemma StepCounts(b: Bounds, t: Trace, e: Event, events: seq<Event>)
    requires events != [] && e == events[|events| - 1] && Run(b, events) == Step(b, t, e)
    requires CountersTell(b, t, events[..|events| - 1])
    requires |t.s.queue| <= |t.offered| && |t.s.queue| <= t.s.stats.depthHigh
    requires |Run(b, events).s.queue| <= Run(b, events).s.stats.depthHigh
    ensures CountersTell(b, Run(b, events), events)
  {
    hide Kept, Run, Total, Misses;
    var after := Step(b, t, e);
    match e
    case Pushes(_) =>
    case Clears =>
    case Pops(_) =>
      GivenMore(t.given, after.given[|t.given|]);
  }

  lemma GivenMore(given: seq<Given>, g: Given)
    ensures Total(given + [g]) == Total(given) + |g.out|
    ensures Misses(given + [g]) == Misses(given) + if g.room > 0 && g.start == g.until then 1 else 0
  {
    assert (given + [g])[..|given|] == given;
  }

  lemma AccountedDepth(b: Bounds, t: Trace)
    requires Accounted(b, t)
    ensures |t.s.queue| <= |t.offered| && |t.s.queue| <= t.s.stats.depthHigh
  {
  }
}
