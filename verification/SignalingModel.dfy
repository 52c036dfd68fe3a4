/** One signaling run as a function of what its surroundings do: the clock, cancellation, the
    server and the answerer. */
module SignalingModel {
  import opened Wire

  datatype Phase =
    | CreatingSession | SessionCreated | WaitingForOffer | GeneratingAnswer | SendingAnswer
    | Succeeded | TimedOut | Failed | Canceled

  datatype Poll = Poll(initialMs: int, backoffAfterMs: int, maxMs: int, timeoutMs: int)

  /** What a decoded session's poll policy satisfies. */
  predicate ValidPoll(p: Poll) {
    && 20 <= p.initialMs <= p.maxMs <= 60000
    && p.maxMs <= p.timeoutMs <= 3600000
    && 0 <= p.backoffAfterMs <= p.timeoutMs
  }

  type Policy = p: Poll | ValidPoll(p) witness Poll(20, 0, 20, 20)

  const MS: int := 1_000_000
  const SLICE_MS: int := 20
  const BACKOFF_STEP_MS: int := 500

  /** The surroundings: at each step how long it takes, whether cancellation has come by then,
      and what a request yields. */
  datatype Script = Script(
    delay: nat -> nat, cancel: nat -> bool, session: nat -> Option<Policy>,
    offer: nat -> Option<Bytes>, answer: nat -> Option<Bytes>, put: nat -> bool)

  /** The clock in nanoseconds, the steps taken, and whether cancellation was requested. */
  datatype World = World(clock: int, steps: nat, cancelled: bool)

  function Tick(sc: Script, w: World): (r: World)
    ensures r.clock >= w.clock && (w.cancelled ==> r.cancelled)
  {
    World(w.clock + sc.delay(w.steps), w.steps + 1, w.cancelled || sc.cancel(w.steps))
  }

  /** The clock moves on by at least what was slept. */
  function Slept(sc: Script, w: World): World {
    var t := Tick(sc, w);
    t.(clock := t.clock + SLICE_MS * MS)
  }

  /** What a run has shown so far: its phases, the moments of its offer polls, the offers it answered. */
  datatype Shown = Shown(phases: seq<Phase>, polls: seq<World>, answered: seq<Bytes>)

  function Report(s: Shown, phase: Phase): Shown {
    s.(phases := s.phases + [phase])
  }

  datatype Run = Run(w: World, shown: Shown)

  function Fail(sc: Script, w: World, s: Shown): Run {
    var t := Tick(sc, w);
    Run(t, Report(s, if t.cancelled then Canceled else Failed))
  }

  /** Sleeping in slices of 20 ms, cancellation looked at before each. */
  function Sleep(sc: Script, w: World, intervalMs: int, sleptMs: int): (r: World)
    requires 0 <= sleptMs
    ensures r.clock >= w.clock && (w.cancelled ==> r.cancelled)
    decreases intervalMs - sleptMs
  {
    if sleptMs >= intervalMs then w
    else
      var t := Tick(sc, w);
      if t.cancelled then t else Sleep(sc, Slept(sc, t), intervalMs, sleptMs + SLICE_MS)
  }

  /** What the loop carries: the interval, the offer answered last (empty if none), and whether one was. */
  datatype Loop = Loop(intervalMs: int, lastSdp: Bytes, answered: bool)

  datatype Answering = Over(run: Run) | Goes(w: World, shown: Shown)

  /** From a new offer to its accepted answer. */
  function Answer(sc: Script, w: World, s: Shown, sdp: Bytes): (r: Answering)
    ensures r.Goes? ==> r.w.clock >= w.clock && (w.cancelled ==> r.w.cancelled)
  {
    var s1 := Report(s, GeneratingAnswer);
    var made := Tick(sc, w);
    var looked := Tick(sc, made);
    if looked.cancelled then Over(Run(looked, Report(s1, Canceled)))
    else if sc.answer(w.steps).None? || sc.answer(w.steps).value == [] then Over(Run(looked, Report(s1, Failed)))
    else
      var s2 := Report(s1, SendingAnswer);
      var sent := Tick(sc, looked);
      if !sc.put(looked.steps) then Over(Fail(sc, sent, s2))
      else Goes(sent, Report(s2, Succeeded).(answered := s.answered + [sdp]))
  }

  function NextInterval(p: Policy, intervalMs: int, elapsedMs: int): int {
    if elapsedMs > p.backoffAfterMs then
      if intervalMs + BACKOFF_STEP_MS < p.maxMs then intervalMs + BACKOFF_STEP_MS else p.maxMs
    else intervalMs
  }

  function Elapsed(begin: int, now: int): int
    requires now >= begin
  {
    (now - begin) / MS
  }

  /** How much time the loop can still spend; nothing once cancelled. */
  function Left(p: Policy, begin: int, w: World): nat {
    if w.cancelled then 0
    else if w.clock < begin + p.timeoutMs * MS then begin + p.timeoutMs * MS - w.clock + 1 else 1
  }

  lemma {:induction false} SleepTakes(sc: Script, w: World, intervalMs: int, sleptMs: int)
    requires 0 <= sleptMs
    ensures var r := Sleep(sc, w, intervalMs, sleptMs);
            r.cancelled || r.clock >= w.clock + (intervalMs - sleptMs) * MS
    decreases intervalMs - sleptMs
  {
    if sleptMs < intervalMs {
      var t := Tick(sc, w);
      if !t.cancelled { SleepTakes(sc, Slept(sc, t), intervalMs, sleptMs + SLICE_MS); }
    }
  }

  lemma IntervalStays(p: Policy, intervalMs: int, elapsedMs: int)
    requires p.initialMs <= intervalMs <= p.maxMs
    ensures p.initialMs <= NextInterval(p, intervalMs, elapsedMs) <= p.maxMs
  {
  }

  /** The polling loop from its test of the cancellation flag on. */
  function Polling(sc: Script, p: Policy, keep: bool, begin: int, l: Loop, w: World, s: Shown): Run
    requires begin <= w.clock && p.initialMs <= l.intervalMs <= p.maxMs
    decreases Left(p, begin, w), 1
  {
    hide Sleep, NextInterval, Answer;
    var looked := Tick(sc, w);
    if looked.cancelled then Run(looked, Report(s, Canceled))
    else
      var now := Tick(sc, looked);
      var elapsed := Elapsed(begin, now.clock);
      if elapsed >= p.timeoutMs then Run(now, if l.answered then s else Report(s, TimedOut))
      else
        var offer := sc.offer(now.steps);
        var polled := Tick(sc, now);
        var s1 := s.(polls := s.polls + [now]);
        var again := if offer.Some? then Tick(sc, polled) else polled;
        if offer.Some? && !again.cancelled && offer.value != l.lastSdp then
          match Answer(sc, again, s1, offer.value)
          case Over(run) => run
          case Goes(after, s2) =>
            if !keep then Run(after, s2)
            else Resting(sc, p, keep, begin, l.(lastSdp := offer.value, answered := true), now, after, s2)
        else Resting(sc, p, keep, begin, l, now, again, s1)
  }

  /** After a poll at time `now`: the look at cancellation, the backoff, the sleep, and the loop again. */
  function Resting(sc: Script, p: Policy, keep: bool, begin: int, l: Loop, now: World, w: World, s: Shown): Run
    requires begin <= now.clock <= w.clock && p.initialMs <= l.intervalMs <= p.maxMs
    requires Elapsed(begin, now.clock) < p.timeoutMs && (now.cancelled ==> w.cancelled)
    decreases Left(p, begin, now), 0
  {
    hide Sleep, NextInterval;
    var looked := Tick(sc, w);
    if looked.cancelled then Run(looked, Report(s, Canceled))
    else
      var intervalMs := NextInterval(p, l.intervalMs, Elapsed(begin, now.clock));
      IntervalStays(p, l.intervalMs, Elapsed(begin, now.clock));
      SleepTakes(sc, looked, intervalMs, 0);
      var rested := Sleep(sc, looked, intervalMs, 0);
      LeftFalls(p, begin, now, rested, intervalMs);
      Polling(sc, p, keep, begin, l.(intervalMs := intervalMs), rested, s)
  }

  lemma LeftFalls(p: Policy, begin: int, now: World, after: World, intervalMs: int)
    requires begin <= now.clock && Elapsed(begin, now.clock) < p.timeoutMs && intervalMs >= 20 && !now.cancelled
    requires after.cancelled || after.clock >= now.clock + intervalMs * MS
    ensures Left(p, begin, after) < Left(p, begin, now)
  {
  }


  /** A whole run. */
  function RunAll(sc: Script, keep: bool, w: World): Run {
    hide Polling;
    var none := Shown([], [], []);
    var looked := Tick(sc, w);
    if looked.cancelled then Run(looked, Report(none, Canceled))
    else
      var s1 := Report(none, CreatingSession);
      var created := Tick(sc, looked);
      match sc.session(looked.steps)
      case None => Fail(sc, created, s1)
      case Some(p) =>
        var again := Tick(sc, created);
        if again.cancelled then Run(again, Report(s1, Canceled))
        else
          var begun := Tick(sc, again);
          Polling(sc, p, keep, begun.clock, Loop(p.initialMs, [], false), begun,
            Report(Report(s1, SessionCreated), WaitingForOffer))
  }
}
