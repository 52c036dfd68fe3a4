/** What every signaling run shows: a bounded number of polls, and phases from one regular language. */
module SignalingLaws {
  import opened Wire
  import opened SignalingModel

  // ---------------------------------------------------------------- the language of phases

  datatype Stage = Fresh | Creating | Created | Waiting | Generating | Sending | Done | End | Broken

  /** One phase more. Without polling after an answer, nothing follows an accepted one. */
  function Next(keep: bool, q: Stage, phase: Phase): Stage {
    match (q, phase)
    case (Fresh, CreatingSession) => Creating
    case (Creating, SessionCreated) => Created
    case (Creating, Failed) => End
    case (Created, WaitingForOffer) => Waiting
    case (Waiting, GeneratingAnswer) => Generating
    case (Waiting, TimedOut) => End
    case (Generating, SendingAnswer) => Sending
    case (Generating, Failed) => End
    case (Sending, Succeeded) => Done
    case (Sending, Failed) => End
    case (Done, GeneratingAnswer) => if keep then Generating else Broken
    case (_, Canceled) => if q == Created || q == End || q == Broken || (q == Done && !keep) then Broken else End
    case (_, _) => Broken
  }

  function Reach(keep: bool, phases: seq<Phase>): Stage {
    if phases == [] then Fresh else Next(keep, Reach(keep, phases[..|phases| - 1]), phases[|phases| - 1])
  }

  lemma ReachMore(keep: bool, phases: seq<Phase>, phase: Phase)
    ensures Reach(keep, phases + [phase]) == Next(keep, Reach(keep, phases), phase)
  {
    hide Next;
    assert (phases + [phase])[..|phases|] == phases;
  }

  predicate Terminal(phase: Phase) {
    phase == Succeeded || phase == TimedOut || phase == Failed || phase == Canceled
  }

  // ---------------------------------------------------------------- the loop

  ghost predicate Distinct(answered: seq<Bytes>) {
    forall i :: 0 < i < |answered| ==> answered[i] != answered[i - 1]
  }

  /** What the loop keeps at its head. */
  ghost predicate Looping(p: Policy, keep: bool, begin: int, l: Loop, w: World, s: Shown) {
    && begin <= w.clock && p.initialMs <= l.intervalMs <= p.maxMs
    && (w.cancelled || |s.polls| * p.initialMs * MS <= w.clock - begin)
    && |s.polls| <= MostPolls(p)
    && (if l.answered then Reach(keep, s.phases) == Done && s.answered != []
       && s.answered[|s.answered| - 1] == l.lastSdp && keep
        else Reach(keep, s.phases) == Waiting && s.answered == [] && l.lastSdp == [])
    && AnswersDiffer(s)
  }

  ghost predicate AnswersDiffer(s: Shown) {
    Distinct(s.answered) && (s.answered != [] ==> s.answered[0] != [])
  }

  /** ceil(timeout / initial interval). */
  function MostPolls(p: Policy): nat {
    (p.timeoutMs + p.initialMs - 1) / p.initialMs
  }

  ghost predicate Ends(p: Policy, keep: bool, s: Shown) {
    && |s.polls| <= MostPolls(p)
    && (Reach(keep, s.phases) == End || Reach(keep, s.phases) == Done)
    && AnswersDiffer(s)
  }

  lemma PollsBelow(p: Policy, polls: nat, spentMs: int)
    requires polls * p.initialMs <= spentMs < p.timeoutMs
    ensures polls + 1 <= MostPolls(p)
  {
    Quotient(p.timeoutMs + p.initialMs - 1, p.initialMs);
    FewerTimes(polls + 1, MostPolls(p) + 1, p.initialMs);
  }

  lemma FewerTimes(a: int, b: int, d: int)
    requires d > 0 && a * d < b * d
    ensures a < b
  {
    assert a >= b ==> a * d >= b * d;
  }

  lemma Quotient(v: int, d: int)
    requires d > 0
    ensures v < (v / d + 1) * d
  {
  }

  lemma MilliFloor(spentMs: int, ns: int)
    requires spentMs * MS <= ns
    ensures spentMs <= ns / MS
  {
  }

  // ---------------------------------------------------------------- one round

  /** What an answering leaves behind when the run goes on. */
  lemma AnswerShows(sc: Script, keep: bool, w: World, s: Shown, sdp: Bytes)
    requires Reach(keep, s.phases) == Waiting || (Reach(keep, s.phases) == Done && keep)
    ensures var a := Answer(sc, w, s, sdp);
            if a.Over?
            then && Reach(keep, a.run.shown.phases) == End && a.run.shown.polls == s.polls
                 && a.run.shown.answered == s.answered
            else && Reach(keep, a.shown.phases) == Done && a.shown.polls == s.polls
                 && a.shown.answered == s.answered + [sdp]
  {
    hide Reach;
    var s1 := Report(s, GeneratingAnswer);
    var s2 := Report(s1, SendingAnswer);
    ReachMore(keep, s.phases, GeneratingAnswer);
    ReachMore(keep, s1.phases, Canceled);
    ReachMore(keep, s1.phases, Failed);
    ReachMore(keep, s1.phases, SendingAnswer);
    ReachMore(keep, s2.phases, Canceled);
    ReachMore(keep, s2.phases, Failed);
    ReachMore(keep, s2.phases, Succeeded);
  }

  lemma AnsweredMore(s: Shown, after: Shown, sdp: Bytes)
    requires AnswersDiffer(s) && after.answered == s.answered + [sdp]
    requires if s.answered != [] then s.answered[|s.answered| - 1] != sdp else sdp != []
    ensures AnswersDiffer(after)
  {
  }

  lemma SameAnswers(s: Shown, after: Shown)
    requires AnswersDiffer(s) && after.answered == s.answered
    ensures AnswersDiffer(after)
  {
  }

  lemma {:induction false} PollingEnds(sc: Script, p: Policy, keep: bool, begin: int, l: Loop, w: World, s: Shown)
    requires Looping(p, keep, begin, l, w, s)
    ensures Ends(p, keep, Polling(sc, p, keep, begin, l, w, s).shown)
    decreases Left(p, begin, w), 1
  {
    hide Reach, Answer, Resting, AnswersDiffer, MostPolls, Left;
    var looked := Tick(sc, w);
    ReachMore(keep, s.phases, Canceled);
    ReachMore(keep, s.phases, TimedOut);
    SameAnswers(s, Report(s, Canceled));
    SameAnswers(s, Report(s, TimedOut));
    if !looked.cancelled {
      var now := Tick(sc, looked);
      SameAnswers(s, s.(polls := s.polls + [now]));
      var elapsed := Elapsed(begin, now.clock);
      if elapsed < p.timeoutMs {
        var offer := sc.offer(now.steps);
        var polled := Tick(sc, now);
        var s1 := s.(polls := s.polls + [now]);
        var again := if offer.Some? then Tick(sc, polled) else polled;
        LeftTicks(sc, p, begin, w);
        OnePoll(p, begin, |s.polls|, now.clock);
        if offer.Some? && !again.cancelled && offer.value != l.lastSdp {
          AnswerShows(sc, keep, again, s1, offer.value);
          var answering := Answer(sc, again, s1, offer.value);
          if answering.Goes? {
            AnsweredMore(s, answering.shown, offer.value);
          } else {
            SameAnswers(s, answering.run.shown);
          }
          if answering.Goes? && keep {
            RestingEnds(sc, p, keep, begin, l.(lastSdp := offer.value, answered := true), now, answering.w,
              answering.shown);
          }
        } else {
          RestingEnds(sc, p, keep, begin, l, now, again, s1);
        }
      }
    }
  }

  lemma LeftTicks(sc: Script, p: Policy, begin: int, w: World)
    ensures Left(p, begin, Tick(sc, Tick(sc, w))) <= Left(p, begin, w)
  {
  }

  /** A poll at time `now` is within the bound. */
  lemma OnePoll(p: Policy, begin: int, polls: nat, now: int)
    requires begin <= now && polls * p.initialMs * MS <= now - begin && Elapsed(begin, now) < p.timeoutMs
    ensures polls + 1 <= MostPolls(p)
  {
    MilliFloor(polls * p.initialMs, now - begin);
    PollsBelow(p, polls, Elapsed(begin, now));
  }

  /** What holds after a poll at `now`, one poll more than the time before `now` pays for. */
  ghost predicate Polled(p: Policy, keep: bool, begin: int, l: Loop, now: World, w: World, s: Shown) {
    && begin <= now.clock <= w.clock && p.initialMs <= l.intervalMs <= p.maxMs
    && Elapsed(begin, now.clock) < p.timeoutMs && (now.cancelled ==> w.cancelled)
    && |s.polls| > 0 && (|s.polls| - 1) * p.initialMs * MS <= now.clock - begin
    && |s.polls| <= MostPolls(p)
    && (if l.answered then Reach(keep, s.phases) == Done && s.answered != []
       && s.answered[|s.answered| - 1] == l.lastSdp && keep
        else Reach(keep, s.phases) == Waiting && s.answered == [] && l.lastSdp == [])
    && AnswersDiffer(s)
  }

  lemma {:induction false} RestingEnds(sc: Script, p: Policy, keep: bool, begin: int, l: Loop, now: World, w: World,
                                       s: Shown)
    requires Polled(p, keep, begin, l, now, w, s)
    ensures Ends(p, keep, Resting(sc, p, keep, begin, l, now, w, s).shown)
    decreases Left(p, begin, now), 0
  {
    hide Reach, Sleep, NextInterval, Polling, AnswersDiffer, MostPolls, Left;
    SameAnswers(s, Report(s, Canceled));
    var looked := Tick(sc, w);
    ReachMore(keep, s.phases, Canceled);
    if !looked.cancelled {
      var intervalMs := NextInterval(p, l.intervalMs, Elapsed(begin, now.clock));
      IntervalStays(p, l.intervalMs, Elapsed(begin, now.clock));
      SleepTakes(sc, looked, intervalMs, 0);
      var rested := Sleep(sc, looked, intervalMs, 0);
      LeftFalls(p, begin, now, rested, intervalMs);
      PaidFor(p, begin, |s.polls|, now.clock, rested.clock, intervalMs);
      PollingEnds(sc, p, keep, begin, l.(intervalMs := intervalMs), rested, s);
    }
  }

  lemma PaidFor(p: Policy, begin: int, polls: nat, now: int, rested: int, intervalMs: int)
    requires polls > 0 && (polls - 1) * p.initialMs * MS <= now - begin && intervalMs >= p.initialMs
    ensures rested >= now + intervalMs * MS ==> polls * p.initialMs * MS <= rested - begin
  {
    assert polls * p.initialMs == (polls - 1) * p.initialMs + p.initialMs;
  }

  // ---------------------------------------------------------------- whole runs

  /** Whatever the clock, the server, the answerer and the canceller do, every run ends, after at most
      ceil(timeout / initial interval) polls and none without a session; two offers answered in a row differ; the phases
      are a word of the language. */
  lemma RunEnds(sc: Script, keep: bool, w: World)
    ensures var s := RunAll(sc, keep, w).shown;
            && (Reach(keep, s.phases) == End || Reach(keep, s.phases) == Done)
            && Distinct(s.answered)
            && |s.polls| <= if SessionOf(sc, w).Some? then MostPolls(SessionOf(sc, w).value) else 0
  {
    hide Polling, Reach, MostPolls, Distinct;
    FirstPhases(keep);
    var looked := Tick(sc, w);
    var created := Tick(sc, looked);
    var again := Tick(sc, created);
    if !looked.cancelled && sc.session(looked.steps).Some? && !again.cancelled {
      var p := sc.session(looked.steps).value;
      var begun := Tick(sc, again);
      MostPollsPositive(p);
      PollingEnds(sc, p, keep, begun.clock, Loop(p.initialMs, [], false), begun,
                  Shown([] + [CreatingSession] + [SessionCreated] + [WaitingForOffer], [], []));
    }
  }

  function SessionOf(sc: Script, w: World): Option<Policy> {
    sc.session(Tick(sc, w).steps)
  }

  lemma MostPollsPositive(p: Policy)
    ensures MostPolls(p) >= 0 && Distinct([])
  {
  }

  lemma FirstPhases(keep: bool)
    ensures Reach(keep, [] + [Canceled]) == End && Reach(keep, [] + [CreatingSession] + [Canceled]) == End
    ensures Reach(keep, [] + [CreatingSession] + [Failed]) == End
    ensures Reach(keep, [] + [CreatingSession] + [SessionCreated] + [WaitingForOffer]) == Waiting
    ensures Distinct([])
  {
    hide Reach;
    FirstPhase(keep, Canceled);
    SecondPhase(keep, Canceled);
    SecondPhase(keep, Failed);
    ReachMore(keep, [] + [CreatingSession] + [SessionCreated], WaitingForOffer);
    SecondPhase(keep, SessionCreated);
  }

  lemma FirstPhase(keep: bool, phase: Phase)
    ensures Reach(keep, [] + [phase]) == Next(keep, Fresh, phase)
  {
    hide Next;
    assert Reach(keep, []) == Fresh;
    hide Reach;
    ReachMore(keep, [], phase);
  }

  lemma SecondPhase(keep: bool, phase: Phase)
    ensures Reach(keep, [] + [CreatingSession] + [phase]) == Next(keep, Next(keep, Fresh, CreatingSession), phase)
  {
    hide Reach, Next;
    FirstPhase(keep, CreatingSession);
    ReachMore(keep, [] + [CreatingSession], phase);
  }

  /** Without polling after an answer a run shows exactly one terminal phase, its last. */
  lemma OneTerminalPhase(sc: Script, w: World)
    ensures var phases := RunAll(sc, false, w).shown.phases;
            phases != [] && forall i :: 0 <= i < |phases| ==> (Terminal(phases[i]) <==> i == |phases| - 1)
  {
    hide RunAll, Distinct;
    RunEnds(sc, false, w);
    TerminalLast(RunAll(sc, false, w).shown.phases);
  }

  lemma {:induction false} TerminalLast(phases: seq<Phase>)
    ensures var q := Reach(false, phases);
            && (q != End && q != Done && q != Broken ==> forall i :: 0 <= i < |phases| ==> !Terminal(phases[i]))
            && (q == End || q == Done ==>
                  phases != [] && forall i :: 0 <= i < |phases| ==> (Terminal(phases[i]) <==> i == |phases| - 1))
  {
    if phases != [] {
      TerminalLast(phases[..|phases| - 1]);
    }
  }
}
