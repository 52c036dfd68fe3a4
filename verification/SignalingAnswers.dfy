/** What a signaling run makes of the offers its polls yield, and when it polls. Both are read off the
    surroundings alone: a poll is known by the step and the time at which it was made. */
module SignalingAnswers {
  import opened Wire
  import opened SignalingModel

  // ---------------------------------------------------------------- what polls yield, and what follows

  /** From the start `w` of the run no cancellation has come before step `k`. */
  predicate Quiet(sc: Script, w: World, k: nat) {
    !w.cancelled && forall j :: w.steps <= j < k ==> !sc.cancel(j)
  }

  function LastOf(answered: seq<Bytes>): Bytes {
    if answered == [] then [] else answered[|answered| - 1]
  }

  /** The poll at step `k` yields an offer other than `last`, and nobody has cancelled by its end. */
  predicate IsNew(sc: Script, w: World, k: nat, last: Bytes) {
    sc.offer(k).Some? && sc.offer(k).value != last && Quiet(sc, w, k + 2)
  }

  predicate Answerable(sc: Script, k: nat) {
    sc.answer(k + 2).Some? && sc.answer(k + 2).value != []
  }

  /** The new offer polled at step `k` gets an answer, which the server takes. */
  predicate Accepted(sc: Script, w: World, k: nat) {
    Quiet(sc, w, k + 4) && Answerable(sc, k) && sc.put(k + 4)
  }

  /** The phases a new offer polled at step `k` brings. */
  function Replies(sc: Script, w: World, k: nat): seq<Phase> {
    if Accepted(sc, w, k) then [GeneratingAnswer, SendingAnswer, Succeeded]
    else if !Quiet(sc, w, k + 4) then [GeneratingAnswer, Canceled]
    else if !Answerable(sc, k) then [GeneratingAnswer, Failed]
    else [GeneratingAnswer, SendingAnswer, if Quiet(sc, w, k + 6) then Failed else Canceled]
  }

  /** The offers answered after `polls`: each new one that was accepted. */
  function AnsweredBy(sc: Script, w: World, polls: seq<World>): seq<Bytes> {
    if polls == [] then []
    else
      var before := AnsweredBy(sc, w, Front(polls));
      var k := Last(polls).steps;
      if IsNew(sc, w, k, LastOf(before)) && Accepted(sc, w, k) then before + [sc.offer(k).value] else before
  }

  function ShownBy(sc: Script, w: World, polls: seq<World>): seq<Phase> {
    if polls == [] then []
    else
      var before := ShownBy(sc, w, Front(polls));
      var k := Last(polls).steps;
      if NewAtEnd(sc, w, polls) then before + Replies(sc, w, k) else before
  }

  function Front(polls: seq<World>): seq<World>
    requires polls != []
  {
    polls[..|polls| - 1]
  }

  function Last(polls: seq<World>): World
    requires polls != []
  {
    polls[|polls| - 1]
  }

  predicate NewAtEnd(sc: Script, w: World, polls: seq<World>)
    requires polls != []
  {
    IsNew(sc, w, Last(polls).steps, LastOf(AnsweredBy(sc, w, Front(polls))))
  }

  /** The last of these polls ends the run: its offer failed, or was answered and no reconnect is waited for. */
  predicate Stops(sc: Script, w: World, keep: bool, polls: seq<World>) {
    polls != [] && NewAtEnd(sc, w, polls) && !(keep && Accepted(sc, w, Last(polls).steps))
  }

  predicate NoneStops(sc: Script, w: World, keep: bool, polls: seq<World>) {
    polls != [] ==> NoneStops(sc, w, keep, Front(polls)) && !Stops(sc, w, keep, polls)
  }

  // ---------------------------------------------------------------- when polls are made

  /** The time the steps from `from` up to `to` take. */
  function Delays(sc: Script, from: nat, to: nat): nat {
    if to <= from then 0 else Delays(sc, from, to - 1) + sc.delay(to - 1)
  }

  /** How many of these polls began after the backoff time. */
  function Late(p: Policy, begin: int, polls: seq<World>): nat {
    if polls == [] then 0
    else Late(p, begin, Front(polls)) + if Last(polls).clock - begin >= (p.backoffAfterMs + 1) * MS then 1 else 0
  }

  /** The interval slept after these polls: half a second more for every late one, up to the largest. */
  function Interval(p: Policy, begin: int, polls: seq<World>): int {
    var grown := p.initialMs + BACKOFF_STEP_MS * Late(p, begin, polls);
    if grown < p.maxMs then grown else p.maxMs
  }

  /** An interval slept in whole slices of 20 ms. */
  function Rest(intervalMs: int): int {
    (intervalMs + SLICE_MS - 1) / SLICE_MS * (SLICE_MS * MS)
  }

  /** The time of step `k` after these polls: one rest after the last of them, and what the steps take. */
  function Due(sc: Script, p: Policy, begun: World, polls: seq<World>, k: nat): int {
    if polls == [] then begun.clock + Delays(sc, begun.steps, k)
    else Last(polls).clock + Rest(Interval(p, begun.clock, polls)) + Delays(sc, Last(polls).steps, k)
  }

  predicate Timely(sc: Script, p: Policy, begun: World, polls: seq<World>) {
    forall i :: 0 <= i < |polls| ==> OnTime(sc, p, begun, polls[..i], polls[i])
  }

  predicate OnTime(sc: Script, p: Policy, begun: World, before: seq<World>, at: World) {
    && at.clock == Due(sc, p, begun, before, at.steps)
    && begun.clock <= at.clock < begun.clock + p.timeoutMs * MS
    && at.steps > if before == [] then begun.steps else Last(before).steps
  }

  // ---------------------------------------------------------------- whole runs

  const OPENING: seq<Phase> := [CreatingSession, SessionCreated, WaitingForOffer]

  /** The run gets a session and comes to its polling. */
  predicate Opens(sc: Script, w: World) {
    Quiet(sc, w, w.steps + 3) && sc.session(w.steps + 1).Some?
  }

  /** Where the polling begins. */
  function Begun(sc: Script, w: World): World {
    Tick(sc, Tick(sc, Tick(sc, Tick(sc, w))))
  }

  /** What a run that polls ends with. It ends because of its last poll, because somebody cancelled, or
      because its time is up; only then it may report a timeout, and does exactly if nothing was answered. */
  predicate Told(sc: Script, p: Policy, keep: bool, w: World, r: Run) {
    var polls := r.shown.polls;
    && r.shown.answered == AnsweredBy(sc, w, polls)
    && Timely(sc, p, Begun(sc, w), polls)
    && (polls != [] ==> NoneStops(sc, w, keep, Front(polls)))
    && Closes(sc, p, keep, w, r)
  }

  predicate Closes(sc: Script, p: Policy, keep: bool, w: World, r: Run) {
    var shows := OPENING + ShownBy(sc, w, r.shown.polls);
    || (r.shown.phases == shows && Stops(sc, w, keep, r.shown.polls))
    || (r.shown.phases == shows + [Canceled] && !Quiet(sc, w, r.w.steps))
    || (&& r.shown.phases == shows + (if r.shown.answered == [] then [TimedOut] else [])
        && r.w.clock >= Begun(sc, w).clock + p.timeoutMs * MS && !Stops(sc, w, keep, r.shown.polls))
  }

  // ---------------------------------------------------------------- steps

  /** A world of a run begun at `w` is cancelled exactly when some step before it was. */
  predicate Marked(sc: Script, w: World, at: World) {
    at.steps >= w.steps && (at.cancelled <==> !Quiet(sc, w, at.steps))
  }

  lemma TickMarked(sc: Script, w: World, at: World)
    requires Marked(sc, w, at)
    ensures Marked(sc, w, Tick(sc, at))
  {
  }

  lemma DelaysMore(sc: Script, from: nat, at: World)
    requires from <= at.steps
    ensures Delays(sc, from, Tick(sc, at).steps) - Delays(sc, from, at.steps) == Tick(sc, at).clock - at.clock
  {
  }

  lemma DueMore(sc: Script, p: Policy, begun: World, polls: seq<World>, at: World)
    requires at.steps >= if polls == [] then begun.steps else Last(polls).steps
    requires at.clock == Due(sc, p, begun, polls, at.steps)
    ensures Tick(sc, at).clock == Due(sc, p, begun, polls, Tick(sc, at).steps)
  {
    hide Rest, Interval;
    DelaysMore(sc, if polls == [] then begun.steps else Last(polls).steps, at);
  }

  /** A sleep lasts its whole slices and what its steps take, unless somebody cancels. */
  lemma {:induction false} SleepLasts(sc: Script, w: World, at: World, from: nat, intervalMs: int, sleptMs: int)
    requires 0 <= sleptMs < intervalMs + SLICE_MS && Marked(sc, w, at) && from <= at.steps
    ensures var r := Sleep(sc, at, intervalMs, sleptMs);
            && Marked(sc, w, r) && r.steps >= at.steps
            && (r.cancelled || r.clock == at.clock + Rest(intervalMs - sleptMs) + Delays(sc, from, r.steps)
                                          - Delays(sc, from, at.steps))
    decreases intervalMs - sleptMs
  {
    hide Rest, Delays, Quiet;
    if sleptMs < intervalMs {
      var t := Tick(sc, at);
      TickMarked(sc, w, at);
      DelaysMore(sc, from, at);
      if !t.cancelled {
        var u := Slept(sc, t);
        TickMarked(sc, w, t);
        DelaysMore(sc, from, t);
        OneSlice(intervalMs - sleptMs);
        SleepLasts(sc, w, u, from, intervalMs, sleptMs + SLICE_MS);
      }
    } else {
      NoSlice(intervalMs - sleptMs);
    }
  }

  lemma OneSlice(ms: int)
    ensures Rest(ms) == SLICE_MS * MS + Rest(ms - SLICE_MS)
  {
  }

  lemma NoSlice(ms: int)
    requires -SLICE_MS < ms <= 0
    ensures Rest(ms) == 0
  {
  }

  /** One poll more makes the interval what the loop computes from the one before. */
  lemma IntervalMore(p: Policy, begin: int, polls: seq<World>, at: World)
    requires begin <= at.clock
    ensures Interval(p, begin, polls + [at])
            == NextInterval(p, Interval(p, begin, polls), Elapsed(begin, at.clock))
  {
    assert Front(polls + [at]) == polls;
    ElapsedBeyond(p.backoffAfterMs, begin, at.clock);
  }

  lemma ElapsedBeyond(ms: int, begin: int, now: int)
    requires begin <= now
    ensures Elapsed(begin, now) > ms <==> now - begin >= (ms + 1) * MS
  {
  }

  lemma IntervalWithin(p: Policy, begin: int, polls: seq<World>)
    ensures p.initialMs <= Interval(p, begin, polls) <= p.maxMs
  {
  }

  // ---------------------------------------------------------------- one poll

  /** What answering a new offer polled at step `k` shows; the answering begins at `at`, two steps on. */
  lemma AnswerReplies(sc: Script, w: World, k: nat, at: World, s: Shown, sdp: Bytes)
    requires Marked(sc, w, at) && at.steps == k + 2 && k >= w.steps
    ensures var a := Answer(sc, at, s, sdp);
            && (a.Goes? <==> Accepted(sc, w, k))
            && (if a.Goes?
                then a.shown == Shown(s.phases + Replies(sc, w, k), s.polls, s.answered + [sdp])
                else a.run.shown == s.(phases := s.phases + Replies(sc, w, k)))
            && (a.Goes? ==> a.w == Tick(sc, Tick(sc, Tick(sc, at))))
  {
    hide Quiet;
    var made := Tick(sc, at);
    var looked := Tick(sc, made);
    var sent := Tick(sc, looked);
    TickMarked(sc, w, at);
    TickMarked(sc, w, made);
    TickMarked(sc, w, looked);
    TickMarked(sc, w, sent);
  }

  /** What the loop has at its head, from the polls so far. */
  predicate Telling(sc: Script, p: Policy, keep: bool, w: World, l: Loop, at: World, s: Shown) {
    && Marked(sc, w, at) && at.steps >= Begun(sc, w).steps && at.clock >= Begun(sc, w).clock
    && Carries(sc, p, keep, w, l, s)
    && l.intervalMs == Interval(p, Begun(sc, w).clock, s.polls)
    && (at.cancelled || at.clock == Due(sc, p, Begun(sc, w), s.polls, at.steps))
    && (s.polls != [] ==> at.steps > Last(s.polls).steps)
  }

  predicate Carries(sc: Script, p: Policy, keep: bool, w: World, l: Loop, s: Shown) {
    && (l.answered <==> s.answered != []) && l.lastSdp == LastOf(s.answered)
    && s.answered == AnsweredBy(sc, w, s.polls)
    && s.phases == OPENING + ShownBy(sc, w, s.polls)
    && NoneStops(sc, w, keep, s.polls)
    && Timely(sc, p, Begun(sc, w), s.polls)
  }

  /** After the poll at `now`, ready to rest. */
  predicate Asked(sc: Script, p: Policy, keep: bool, w: World, l: Loop, now: World, at: World, s: Shown) {
    && Marked(sc, w, at) && Begun(sc, w).clock <= now.clock <= at.clock && now.steps < at.steps
    && Begun(sc, w).steps <= now.steps
    && at.clock - now.clock == Delays(sc, now.steps, at.steps)
    && (now.cancelled ==> at.cancelled) && Elapsed(Begun(sc, w).clock, now.clock) < p.timeoutMs
    && Carries(sc, p, keep, w, l, s)
    && s.polls != [] && Last(s.polls) == now
    && l.intervalMs == Interval(p, Begun(sc, w).clock, Front(s.polls))
  }

  lemma TimelyMore(sc: Script, p: Policy, begun: World, polls: seq<World>, at: World)
    requires Timely(sc, p, begun, polls) && OnTime(sc, p, begun, polls, at)
    ensures Timely(sc, p, begun, polls + [at])
  {
    hide OnTime;
    var more := polls + [at];
    forall i | 0 <= i < |more| ensures OnTime(sc, p, begun, more[..i], more[i]) {
      assert more[..i] == polls[..i];
    }
  }

  lemma FrontOf(polls: seq<World>, at: World)
    ensures Front(polls + [at]) == polls && Last(polls + [at]) == at
  {
  }

  lemma NoneStopsMore(sc: Script, w: World, keep: bool, polls: seq<World>, at: World)
    requires NoneStops(sc, w, keep, polls)
    ensures NoneStops(sc, w, keep, polls + [at]) <==> !Stops(sc, w, keep, polls + [at])
  {
    hide Stops;
    FrontOf(polls, at);
  }

  /** A poll that yields no new offer changes nothing but the polls. */
  lemma NothingNew(sc: Script, p: Policy, keep: bool, w: World, l: Loop, now: World, s: Shown)
    requires Carries(sc, p, keep, w, l, s) && OnTime(sc, p, Begun(sc, w), s.polls, now)
    requires !IsNew(sc, w, now.steps, l.lastSdp)
    ensures Carries(sc, p, keep, w, l, s.(polls := s.polls + [now]))
  {
    hide OnTime, IsNew, Timely, Accepted;
    FrontOf(s.polls, now);
    TimelyMore(sc, p, Begun(sc, w), s.polls, now);
    NoneStopsMore(sc, w, keep, s.polls, now);
  }

  /** A new offer's phases are shown, and the offer counts as answered if it was accepted. */
  lemma SomethingNew(sc: Script, w: World, polls: seq<World>, now: World)
    requires IsNew(sc, w, now.steps, LastOf(AnsweredBy(sc, w, polls)))
    ensures NewAtEnd(sc, w, polls + [now])
    ensures ShownBy(sc, w, polls + [now]) == ShownBy(sc, w, polls) + Replies(sc, w, now.steps)
    ensures AnsweredBy(sc, w, polls + [now])
            == AnsweredBy(sc, w, polls) + if Accepted(sc, w, now.steps) then [sc.offer(now.steps).value] else []
  {
    hide IsNew, Accepted, Replies;
    FrontOf(polls, now);
    if Accepted(sc, w, now.steps) {
    }
  }

  lemma AnswerCarries(sc: Script, p: Policy, w: World, l: Loop, now: World, s: Shown, sdp: Bytes)
    requires Carries(sc, p, true, w, l, s) && OnTime(sc, p, Begun(sc, w), s.polls, now)
    requires IsNew(sc, w, now.steps, l.lastSdp) && sdp == sc.offer(now.steps).value && Accepted(sc, w, now.steps)
    ensures Carries(sc, p, true, w, l.(lastSdp := sdp, answered := true),
              Shown(s.phases + Replies(sc, w, now.steps), s.polls + [now], s.answered + [sdp]))
  {
    assert sc.offer(now.steps).Some?;
    hide OnTime, IsNew, Timely, Accepted, Replies;
    SomethingNew(sc, w, s.polls, now);
    TimelyMore(sc, p, Begun(sc, w), s.polls, now);
    FrontOf(s.polls, now);
    NoneStopsMore(sc, w, true, s.polls, now);
    assert OPENING + ShownBy(sc, w, s.polls) + Replies(sc, w, now.steps)
        == OPENING + (ShownBy(sc, w, s.polls) + Replies(sc, w, now.steps));
  }

  /** The run is over with the poll at `now`. */
  lemma StopTells(sc: Script, p: Policy, keep: bool, w: World, l: Loop, now: World, s: Shown, r: Run)
    requires Carries(sc, p, keep, w, l, s) && OnTime(sc, p, Begun(sc, w), s.polls, now)
    requires IsNew(sc, w, now.steps, l.lastSdp) && !(keep && Accepted(sc, w, now.steps))
    requires Over(sc, w, now, s, r.shown)
    ensures Told(sc, p, keep, w, r)
  {
    assert sc.offer(now.steps).Some?;
    hide OnTime, IsNew, Timely, Accepted, Replies, Quiet;
    SomethingNew(sc, w, s.polls, now);
    TimelyMore(sc, p, Begun(sc, w), s.polls, now);
    FrontOf(s.polls, now);
    assert OPENING + ShownBy(sc, w, s.polls) + Replies(sc, w, now.steps)
        == OPENING + (ShownBy(sc, w, s.polls) + Replies(sc, w, now.steps));
  }

  predicate Over(sc: Script, w: World, now: World, s: Shown, after: Shown) {
    && sc.offer(now.steps).Some?
    && after == Shown(s.phases + Replies(sc, w, now.steps), s.polls + [now],
                      s.answered + if Accepted(sc, w, now.steps) then [sc.offer(now.steps).value] else [])
  }

  lemma CancelTells(sc: Script, p: Policy, keep: bool, w: World, l: Loop, at: World, s: Shown)
    requires Carries(sc, p, keep, w, l, s) && Marked(sc, w, at) && at.cancelled
    ensures Told(sc, p, keep, w, Run(at, Report(s, Canceled)))
  {
    hide Timely, Stops, Quiet, AnsweredBy, ShownBy;
  }

  lemma TimeoutTells(sc: Script, p: Policy, keep: bool, w: World, l: Loop, at: World, s: Shown)
    requires Carries(sc, p, keep, w, l, s) && at.clock >= Begun(sc, w).clock + p.timeoutMs * MS
    ensures Told(sc, p, keep, w, Run(at, if l.answered then s else Report(s, TimedOut)))
  {
    assert Stops(sc, w, keep, s.polls) ==> s.polls != [];
    hide Timely, Stops, Quiet, AnsweredBy, ShownBy;
    assert OPENING + ShownBy(sc, w, s.polls) + [] == OPENING + ShownBy(sc, w, s.polls);
  }

  lemma TimeIsUp(begin: int, now: int, ms: int)
    requires begin <= now
    ensures Elapsed(begin, now) >= ms <==> now >= begin + ms * MS
  {
  }

  lemma LeftTicks(sc: Script, p: Policy, begin: int, at: World)
    ensures Left(p, begin, Tick(sc, Tick(sc, at))) <= Left(p, begin, at)
  {
  }

  lemma IsOnTime(sc: Script, p: Policy, begun: World, before: seq<World>, at: World)
    requires at.clock == Due(sc, p, begun, before, at.steps)
    requires begun.clock <= at.clock < begun.clock + p.timeoutMs * MS
    requires at.steps > if before == [] then begun.steps else Last(before).steps
    ensures OnTime(sc, p, begun, before, at)
  {
  }

  lemma DelaysTwo(sc: Script, now: World)
    ensures var polled := Tick(sc, now);
            && Delays(sc, now.steps, polled.steps) == polled.clock - now.clock
            && Delays(sc, now.steps, Tick(sc, polled).steps) == Tick(sc, polled).clock - now.clock
  {
    DelaysMore(sc, now.steps, now);
    DelaysMore(sc, now.steps, Tick(sc, now));
  }

  lemma DelaysFive(sc: Script, now: World)
    ensures var sent := Tick(sc, Tick(sc, Tick(sc, Tick(sc, Tick(sc, now)))));
            Delays(sc, now.steps, sent.steps) == sent.clock - now.clock
  {
    hide Delays;
    DelaysTwo(sc, now);
    var again := Tick(sc, Tick(sc, now));
    DelaysMore(sc, now.steps, again);
    DelaysMore(sc, now.steps, Tick(sc, again));
    DelaysMore(sc, now.steps, Tick(sc, Tick(sc, again)));
  }

  /** The loop's test is about a new offer. */
  lemma NewIs(sc: Script, w: World, now: World, again: World, last: Bytes)
    requires Marked(sc, w, again)
    requires again == if sc.offer(now.steps).Some? then Tick(sc, Tick(sc, now)) else Tick(sc, now)
    ensures IsNew(sc, w, now.steps, last) <==>
            sc.offer(now.steps).Some? && !again.cancelled && sc.offer(now.steps).value != last
  {
    hide Quiet;
  }

  lemma CarriesLast(sc: Script, p: Policy, keep: bool, w: World, l: Loop, s: Shown)
    requires Carries(sc, p, keep, w, l, s)
    ensures l.lastSdp == LastOf(s.answered)
  {
  }

  lemma IsOver(sc: Script, w: World, now: World, s: Shown, after: Shown)
    requires sc.offer(now.steps).Some?
    requires after.phases == s.phases + Replies(sc, w, now.steps) && after.polls == s.polls + [now]
    requires after.answered
             == if Accepted(sc, w, now.steps) then s.answered + [sc.offer(now.steps).value] else s.answered
    ensures Over(sc, w, now, s, after)
  {
    hide Replies, Accepted;
    assert s.answered + [] == s.answered;
  }

  lemma IsAsked(sc: Script, p: Policy, keep: bool, w: World, l: Loop, now: World, at: World, s: Shown)
    requires Marked(sc, w, at) && Begun(sc, w).clock <= now.clock <= at.clock && now.steps < at.steps
    requires Begun(sc, w).steps <= now.steps && at.clock - now.clock == Delays(sc, now.steps, at.steps)
    requires (now.cancelled ==> at.cancelled) && Elapsed(Begun(sc, w).clock, now.clock) < p.timeoutMs
    requires Carries(sc, p, keep, w, l, s) && s.polls != [] && Last(s.polls) == now
    requires l.intervalMs == Interval(p, Begun(sc, w).clock, Front(s.polls))
    ensures Asked(sc, p, keep, w, l, now, at, s)
  {
  }

  lemma AfterAnswer(sc: Script, p: Policy, w: World, l: Loop, now: World, again: World, s: Shown)
    requires Marked(sc, w, again) && again == Tick(sc, Tick(sc, now))
    requires Begun(sc, w).clock <= now.clock && Begun(sc, w).steps <= now.steps
    requires Elapsed(Begun(sc, w).clock, now.clock) < p.timeoutMs
    requires Carries(sc, p, true, w, l, s) && s.polls != [] && Last(s.polls) == now
    requires l.intervalMs == Interval(p, Begun(sc, w).clock, Front(s.polls))
    ensures Asked(sc, p, true, w, l, now, Tick(sc, Tick(sc, Tick(sc, again))), s)
  {
    hide Carries, Interval, Quiet, Elapsed, Asked;
    var made := Tick(sc, again);
    var looked := Tick(sc, made);
    TickMarked(sc, w, again);
    TickMarked(sc, w, made);
    TickMarked(sc, w, looked);
    DelaysFive(sc, now);
    IsAsked(sc, p, true, w, l, now, Tick(sc, looked), s);
  }

  lemma FrontLast(polls: seq<World>)
    requires polls != []
    ensures polls == Front(polls) + [Last(polls)]
  {
  }

  lemma CarriesOn(sc: Script, p: Policy, keep: bool, w: World, l: Loop, more: Loop, s: Shown)
    requires Carries(sc, p, keep, w, l, s) && more == l.(intervalMs := more.intervalMs)
    ensures Carries(sc, p, keep, w, more, s)
  {
  }

  lemma IsTelling(sc: Script, p: Policy, keep: bool, w: World, l: Loop, now: World, at: World, s: Shown)
    requires Marked(sc, w, at) && at.steps > now.steps >= Begun(sc, w).steps
    requires at.clock >= now.clock >= Begun(sc, w).clock
    requires Carries(sc, p, keep, w, l, s) && s.polls != [] && Last(s.polls) == now
    requires l.intervalMs == Interval(p, Begun(sc, w).clock, s.polls)
    requires at.cancelled || at.clock == now.clock + Rest(l.intervalMs) + Delays(sc, now.steps, at.steps)
    ensures Telling(sc, p, keep, w, l, at, s)
  {
    hide Carries, Marked, Interval, Rest, Delays;
  }

  // ---------------------------------------------------------------- the loop

  lemma {:induction false} PollingTells(sc: Script, p: Policy, keep: bool, w: World, l: Loop, at: World, s: Shown)
    requires Telling(sc, p, keep, w, l, at, s)
    ensures at.clock >= Begun(sc, w).clock && p.initialMs <= l.intervalMs <= p.maxMs
    ensures Told(sc, p, keep, w, Polling(sc, p, keep, Begun(sc, w).clock, l, at, s))
    decreases Left(p, Begun(sc, w).clock, at), 1
  {
    hide Carries, Answer, Resting, Left, Told, Quiet, Due, Interval, OnTime, Accepted, Delays, IsNew, Over, Asked;
    var begin := Begun(sc, w).clock;
    IntervalWithin(p, begin, s.polls);
    CarriesLast(sc, p, keep, w, l, s);
    var looked := Tick(sc, at);
    TickMarked(sc, w, at);
    if looked.cancelled {
      CancelTells(sc, p, keep, w, l, looked, s);
    } else {
      var now := Tick(sc, looked);
      TickMarked(sc, w, looked);
      DueMore(sc, p, Begun(sc, w), s.polls, at);
      DueMore(sc, p, Begun(sc, w), s.polls, looked);
      TimeIsUp(begin, now.clock, p.timeoutMs);
      if Elapsed(begin, now.clock) >= p.timeoutMs {
        TimeoutTells(sc, p, keep, w, l, now, s);
      } else {
        LeftTicks(sc, p, begin, at);
        IsOnTime(sc, p, Begun(sc, w), s.polls, now);
        var polled := Tick(sc, now);
        TickMarked(sc, w, now);
        TickMarked(sc, w, polled);
        DelaysTwo(sc, now);
        var offer := sc.offer(now.steps);
        var s1 := s.(polls := s.polls + [now]);
        var again := if offer.Some? then Tick(sc, polled) else polled;
        FrontOf(s.polls, now);
        NewIs(sc, w, now, again, l.lastSdp);
        if IsNew(sc, w, now.steps, l.lastSdp) {
          var answering := Answer(sc, again, s1, offer.value);
          AnswerReplies(sc, w, now.steps, again, s1, offer.value);
          if answering.Goes? && keep {
            AnswerCarries(sc, p, w, l, now, s, offer.value);
            var more := l.(lastSdp := offer.value, answered := true);
            AfterAnswer(sc, p, w, more, now, again, answering.shown);
            RestingTells(sc, p, keep, w, more, now, answering.w, answering.shown);
          } else if answering.Goes? {
            IsOver(sc, w, now, s, answering.shown);
            StopTells(sc, p, keep, w, l, now, s, Run(answering.w, answering.shown));
          } else {
            IsOver(sc, w, now, s, answering.run.shown);
            StopTells(sc, p, keep, w, l, now, s, answering.run);
          }
        } else {
          NothingNew(sc, p, keep, w, l, now, s);
          IsAsked(sc, p, keep, w, l, now, again, s1);
          RestingTells(sc, p, keep, w, l, now, again, s1);
        }
      }
    }
  }

  lemma {:induction false} RestingTells(sc: Script, p: Policy, keep: bool, w: World, l: Loop, now: World, at: World,
                                        s: Shown)
    requires Asked(sc, p, keep, w, l, now, at, s)
    ensures p.initialMs <= l.intervalMs <= p.maxMs
    ensures Told(sc, p, keep, w, Resting(sc, p, keep, Begun(sc, w).clock, l, now, at, s))
    decreases Left(p, Begun(sc, w).clock, now), 0
  {
    hide Carries, Polling, Left, Told, Quiet, Interval, OnTime, Delays, NextInterval, Elapsed, Rest, Telling;
    var begin := Begun(sc, w).clock;
    IntervalWithin(p, begin, Front(s.polls));
    var looked := Tick(sc, at);
    TickMarked(sc, w, at);
    DelaysMore(sc, now.steps, at);
    if looked.cancelled {
      CancelTells(sc, p, keep, w, l, looked, s);
    } else {
      var intervalMs := NextInterval(p, l.intervalMs, Elapsed(begin, now.clock));
      FrontLast(s.polls);
      IntervalMore(p, begin, Front(s.polls), now);
      IntervalStays(p, l.intervalMs, Elapsed(begin, now.clock));
      SleepTakes(sc, looked, intervalMs, 0);
      SleepLasts(sc, w, looked, now.steps, intervalMs, 0);
      var rested := Sleep(sc, looked, intervalMs, 0);
      LeftFalls(p, begin, now, rested, intervalMs);
      var more := l.(intervalMs := intervalMs);
      CarriesOn(sc, p, keep, w, l, more, s);
      IsTelling(sc, p, keep, w, more, now, rested, s);
      PollingTells(sc, p, keep, w, more, rested, s);
    }
  }

  // ---------------------------------------------------------------- the theorems

  /** A run that never polls. */
  predicate Unopened(sc: Script, w: World, s: Shown) {
    && s.polls == [] && s.answered == []
    && s.phases == if !Quiet(sc, w, w.steps + 1) then [Canceled]
                   else [CreatingSession, if Quiet(sc, w, w.steps + 3) then Failed else Canceled]
  }

  /** Every run, whatever its surroundings do: the offers it answers and the phases it shows are those its
      polls call for, it polls in time until a poll, a cancellation or its timeout ends it. */
  lemma RunTells(sc: Script, keep: bool, w: World)
    ensures var r := RunAll(sc, keep, w);
            if Opens(sc, w) then Told(sc, sc.session(w.steps + 1).value, keep, w, r) else Unopened(sc, w, r.shown)
  {
    hide Polling, Told, Quiet, Telling;
    var looked := Tick(sc, w);
    var created := Tick(sc, looked);
    var again := Tick(sc, created);
    var begun := Tick(sc, again);
    StartMarked(sc, w);
    TickMarked(sc, w, w);
    TickMarked(sc, w, looked);
    TickMarked(sc, w, created);
    TickMarked(sc, w, again);
    QuietFalls(sc, w, w.steps + 1, w.steps + 3);
    if Opens(sc, w) {
      var p := sc.session(w.steps + 1).value;
      var s := Shown([] + [CreatingSession] + [SessionCreated] + [WaitingForOffer], [], []);
      FirstTelling(sc, p, keep, w, Loop(p.initialMs, [], false), s);
      PollingTells(sc, p, keep, w, Loop(p.initialMs, [], false), begun, s);
    }
  }

  lemma StartMarked(sc: Script, w: World)
    ensures Marked(sc, w, w)
  {
  }

  lemma QuietFalls(sc: Script, w: World, j: nat, k: nat)
    requires j <= k
    ensures Quiet(sc, w, k) ==> Quiet(sc, w, j)
  {
  }

  lemma FirstTelling(sc: Script, p: Policy, keep: bool, w: World, l: Loop, s: Shown)
    requires s.phases == OPENING && s.polls == [] && s.answered == []
    requires l == Loop(p.initialMs, [], false)
    requires Marked(sc, w, Begun(sc, w))
    ensures Telling(sc, p, keep, w, l, Begun(sc, w), s)
  {
    hide Marked, Begun;
    assert OPENING + [] == OPENING;
  }

  /** The poll at place `i` leaves what was shown before it; a new offer it yields, not cancelled by its end,
      with an answer that the server takes, is the offer answered next, and the phases of an answer follow. */
  predicate AnsweredAt(sc: Script, w: World, polls: seq<World>, i: nat, phases: seq<Phase>, answered: seq<Bytes>)
    requires i < |polls|
  {
    var before := AnsweredBy(sc, w, polls[..i]);
    var shown := ShownBy(sc, w, polls[..i]);
    var k := polls[i].steps;
    && before <= answered && shown <= phases
    && (IsNew(sc, w, k, LastOf(before)) && Accepted(sc, w, k) ==>
          && before + [sc.offer(k).value] <= answered
          && shown + [GeneratingAnswer, SendingAnswer, Succeeded] <= phases)
  }

  lemma NewOfferIsAnswered(sc: Script, keep: bool, w: World, i: nat)
    requires i < |RunAll(sc, keep, w).shown.polls|
    ensures var s := RunAll(sc, keep, w).shown;
            && OPENING <= s.phases
            && AnsweredAt(sc, w, s.polls, i, s.phases[|OPENING|..], s.answered)
  {
    RunTells(sc, keep, w);
    hide RunAll, Timely, Stops, NoneStops, AnsweredAt, ShownBy, AnsweredBy;
    var r := RunAll(sc, keep, w);
    PollAnswers(sc, w, r.shown.polls, i);
    Behind(ShownBy(sc, w, r.shown.polls), r.shown.phases);
    MoreShown(sc, w, r.shown.polls, i, r.shown.phases[|OPENING|..], r.shown.answered);
  }

  lemma Behind(shown: seq<Phase>, phases: seq<Phase>)
    requires OPENING + shown <= phases
    ensures OPENING <= phases && shown <= phases[|OPENING|..]
  {
  }

  lemma MoreShown(sc: Script, w: World, polls: seq<World>, i: nat, phases: seq<Phase>, answered: seq<Bytes>)
    requires i < |polls| && ShownBy(sc, w, polls) <= phases && AnsweredBy(sc, w, polls) == answered
    requires AnsweredAt(sc, w, polls, i, ShownBy(sc, w, polls), AnsweredBy(sc, w, polls))
    ensures AnsweredAt(sc, w, polls, i, phases, answered)
  {
    hide IsNew, Accepted, ShownBy, AnsweredBy;
  }

  lemma PollAnswers(sc: Script, w: World, polls: seq<World>, i: nat)
    requires i < |polls|
    ensures AnsweredAt(sc, w, polls, i, ShownBy(sc, w, polls), AnsweredBy(sc, w, polls))
  {
    var k := polls[i].steps;
    var before := AnsweredBy(sc, w, polls[..i]);
    Grow(sc, w, polls, i);
    if IsNew(sc, w, k, LastOf(before)) && Accepted(sc, w, k) {
      assert Replies(sc, w, k) == [GeneratingAnswer, SendingAnswer, Succeeded];
      hide AnsweredBy, ShownBy, IsNew, Accepted, Replies, LastOf;
      Grow(sc, w, polls, i + 1);
      assert polls[..i + 1] == polls[..i] + [polls[i]];
      SomethingNew(sc, w, polls[..i], polls[i]);
    }
  }

  /** What earlier polls brought stays. */
  lemma {:induction false} Grow(sc: Script, w: World, polls: seq<World>, i: nat)
    requires i <= |polls|
    ensures AnsweredBy(sc, w, polls[..i]) <= AnsweredBy(sc, w, polls)
    ensures ShownBy(sc, w, polls[..i]) <= ShownBy(sc, w, polls)
    decreases |polls| - i
  {
    hide IsNew, Accepted, Replies;
    if i < |polls| {
      assert Front(polls[..i + 1]) == polls[..i];
      Grow(sc, w, polls, i + 1);
    } else {
      assert polls[..i] == polls;
    }
  }

  // ---------------------------------------------------------------- surroundings that never fail

  /** Nobody cancels, the session comes, every answer is made, and the server takes it. */
  ghost predicate Willing(sc: Script, w: World) {
    && !w.cancelled && sc.session(w.steps + 1).Some?
    && forall k :: !sc.cancel(k) && sc.put(k) && sc.answer(k).Some? && sc.answer(k).value != []
  }

  /** The offers these polls yielded. */
  function Offers(sc: Script, polls: seq<World>): seq<Bytes> {
    if polls == [] then []
    else
      var offer := sc.offer(Last(polls).steps);
      Offers(sc, Front(polls)) + if offer.Some? then [offer.value] else []
  }

  /** A list with adjacent repeats removed. */
  function WithoutRepeats(offers: seq<Bytes>): seq<Bytes> {
    if |offers| <= 1 then offers
    else
      var n := |offers| - 1;
      WithoutRepeats(offers[..n]) + if offers[n] == offers[n - 1] then [] else [offers[n]]
  }

  function Answers(n: nat): seq<Phase> {
    if n == 0 then [] else Answers(n - 1) + [GeneratingAnswer, SendingAnswer, Succeeded]
  }

  predicate AllEmpty(offers: seq<Bytes>) {
    forall i :: 0 <= i < |offers| ==> offers[i] == []
  }

  lemma WillingIs(sc: Script, w: World, k: nat, last: Bytes)
    requires Willing(sc, w)
    ensures IsNew(sc, w, k, last) <==> sc.offer(k).Some? && sc.offer(k).value != last
    ensures Accepted(sc, w, k) && Replies(sc, w, k) == [GeneratingAnswer, SendingAnswer, Succeeded]
    ensures Opens(sc, w) && Quiet(sc, w, k)
  {
  }

  lemma {:induction false} RepeatsEnd(offers: seq<Bytes>)
    requires offers != []
    ensures WithoutRepeats(offers) != [] && LastOf(WithoutRepeats(offers)) == LastOf(offers)
  {
    if |offers| > 1 {
      RepeatsEnd(offers[..|offers| - 1]);
    }
  }

  lemma WithoutRepeatsMore(offers: seq<Bytes>, offer: Bytes)
    requires offers != []
    ensures WithoutRepeats(offers + [offer])
            == WithoutRepeats(offers) + if offer == LastOf(offers) then [] else [offer]
  {
    assert (offers + [offer])[..|offers|] == offers;
  }

  lemma OneOfferMore(answered: seq<Bytes>, offers: seq<Bytes>, offer: Bytes)
    requires [[]] + answered == WithoutRepeats([[]] + offers)
    ensures [[]] + (if offer == LastOf(answered) then answered else answered + [offer])
            == WithoutRepeats([[]] + (offers + [offer]))
  {
    hide WithoutRepeats, LastOf;
    WithoutRepeatsMore([[]] + offers, offer);
    RepeatsEnd([[]] + offers);
    LastAfterEmpty(answered);
    assert [[]] + offers + [offer] == [[]] + (offers + [offer]);
    assert [[]] + answered + [offer] == [[]] + (answered + [offer]);
    assert [[]] + answered + [] == [[]] + answered;
  }

  /** With nothing failing each offer other than the one before it is answered; an empty first one is not. */
  lemma {:induction false} OffersAnswered(sc: Script, w: World, polls: seq<World>)
    requires Willing(sc, w)
    ensures [[]] + AnsweredBy(sc, w, polls) == WithoutRepeats([[]] + Offers(sc, polls))
    ensures ShownBy(sc, w, polls) == Answers(|AnsweredBy(sc, w, polls)|)
  {
    if polls != [] {
      var k := Last(polls).steps;
      OffersAnswered(sc, w, Front(polls));
      WillingIs(sc, w, k, LastOf(AnsweredBy(sc, w, Front(polls))));
      hide Willing, IsNew, Accepted, Replies, WithoutRepeats, LastOf;
      if sc.offer(k).Some? {
        OneOfferMore(AnsweredBy(sc, w, Front(polls)), Offers(sc, Front(polls)), sc.offer(k).value);
      } else {
        NoOffer(sc, polls);
      }
    }
  }

  lemma NoOffer(sc: Script, polls: seq<World>)
    requires polls != [] && sc.offer(Last(polls).steps).None?
    ensures Offers(sc, polls) == Offers(sc, Front(polls))
  {
  }

  lemma LastAfterEmpty(answered: seq<Bytes>)
    ensures LastOf([[]] + answered) == LastOf(answered)
  {
  }

  /** A leading empty entry makes no difference to what follows, unless that begins with an empty one. */
  lemma {:induction false} LeadingEmpty(offers: seq<Bytes>)
    requires offers != [] ==> offers[0] != []
    ensures WithoutRepeats([[]] + offers) == [[]] + WithoutRepeats(offers)
  {
    if offers != [] {
      var n := |offers| - 1;
      LeadingEmpty(offers[..n]);
      assert [[]] + offers == [[]] + offers[..n] + [offers[n]];
      WithoutRepeatsMore([[]] + offers[..n], offers[n]);
      if n > 0 {
        assert offers == offers[..n] + [offers[n]];
        WithoutRepeatsMore(offers[..n], offers[n]);
      }
    }
  }

  lemma {:induction false} NoneLeft(offers: seq<Bytes>)
    ensures WithoutRepeats([[]] + offers) == [[]] <==> AllEmpty(offers)
  {
    if offers != [] {
      var n := |offers| - 1;
      NoneLeft(offers[..n]);
      assert [[]] + offers == [[]] + offers[..n] + [offers[n]];
      WithoutRepeatsMore([[]] + offers[..n], offers[n]);
      RepeatsEnd([[]] + offers[..n]);
      LastAfterEmpty(offers[..n]);
    }
  }

  /** Where nothing fails, polling goes on after an answer: exactly the offers yielded are answered, adjacent
      repeats left out, in order; the run lasts until its timeout and reports one only if every offer was empty. */
  lemma WillingRunAnswers(sc: Script, w: World)
    requires Willing(sc, w)
    ensures var r := RunAll(sc, true, w);
            var offers := Offers(sc, r.shown.polls);
            && [[]] + r.shown.answered == WithoutRepeats([[]] + offers)
            && (offers != [] && offers[0] != [] ==> r.shown.answered == WithoutRepeats(offers))
            && (r.shown.answered == [] <==> AllEmpty(offers))
            && r.shown.phases == OPENING + Answers(|r.shown.answered|)
                                 + (if r.shown.answered == [] then [TimedOut] else [])
            && r.w.clock >= Begun(sc, w).clock + sc.session(w.steps + 1).value.timeoutMs * MS
  {
    var r := RunAll(sc, true, w);
    var polls := r.shown.polls;
    var offers := Offers(sc, polls);
    RunTells(sc, true, w);
    WillingIs(sc, w, r.w.steps, []);
    hide RunAll, Willing, AnsweredBy, ShownBy, NoneStops, Timely, WithoutRepeats, Begun;
    OffersAnswered(sc, w, polls);
    NoneLeft(offers);
    EmptyLead(r.shown.answered);
    if offers != [] && offers[0] != [] {
      LeadingEmpty(offers);
      SameBehind(r.shown.answered, WithoutRepeats(offers));
    }
    WillingGoesOn(sc, w, polls);
  }

  lemma EmptyLead(answered: seq<Bytes>)
    ensures [[]] + answered == [[]] <==> answered == []
  {
  }

  lemma SameBehind(a: seq<Bytes>, b: seq<Bytes>)
    requires [[]] + a == [[]] + b
    ensures a == b
  {
    assert a == ([[]] + a)[1..] && b == ([[]] + b)[1..];
  }

  lemma WillingGoesOn(sc: Script, w: World, polls: seq<World>)
    requires Willing(sc, w)
    ensures !Stops(sc, w, true, polls)
  {
    if polls != [] {
      WillingIs(sc, w, Last(polls).steps, []);
    }
  }

  /** Where nothing fails and polling ends with an answer, the first offer that is not empty is answered and
      ends the run; without one it times out. */
  lemma WillingRunAnswersOnce(sc: Script, w: World)
    requires Willing(sc, w)
    ensures var r := RunAll(sc, false, w);
            var polls := r.shown.polls;
            if AllEmpty(Offers(sc, polls))
            then r.shown.answered == [] && r.shown.phases == OPENING + [TimedOut]
                 && r.w.clock >= Begun(sc, w).clock + sc.session(w.steps + 1).value.timeoutMs * MS
            else && polls != [] && AllEmpty(Offers(sc, Front(polls)))
                 && sc.offer(Last(polls).steps) == Some(LastOf(r.shown.answered)) && |r.shown.answered| == 1
                 && r.shown.phases == OPENING + [GeneratingAnswer, SendingAnswer, Succeeded]
  {
    var r := RunAll(sc, false, w);
    var polls := r.shown.polls;
    RunTells(sc, false, w);
    WillingIs(sc, w, r.w.steps, []);
    hide RunAll, Willing, AnsweredBy, ShownBy, Timely, WithoutRepeats, Begun, IsNew, Accepted;
    if polls != [] {
      NothingYet(sc, w, Front(polls));
      if Stops(sc, w, false, polls) {
        FirstAnswer(sc, w, polls);
      } else {
        NothingYet(sc, w, polls);
      }
    }
  }

  lemma {:induction false} NothingYet(sc: Script, w: World, polls: seq<World>)
    requires Willing(sc, w) && NoneStops(sc, w, false, polls)
    ensures AnsweredBy(sc, w, polls) == [] && ShownBy(sc, w, polls) == [] && AllEmpty(Offers(sc, polls))
  {
    if polls != [] {
      WillingIs(sc, w, Last(polls).steps, []);
      hide Willing, IsNew, Accepted, Replies;
      NothingYet(sc, w, Front(polls));
    }
  }

  lemma FirstAnswer(sc: Script, w: World, polls: seq<World>)
    requires Willing(sc, w) && polls != [] && NoneStops(sc, w, false, Front(polls)) && Stops(sc, w, false, polls)
    ensures sc.offer(Last(polls).steps).Some? && sc.offer(Last(polls).steps).value != []
    ensures AnsweredBy(sc, w, polls) == [sc.offer(Last(polls).steps).value]
    ensures ShownBy(sc, w, polls) == [GeneratingAnswer, SendingAnswer, Succeeded]
    ensures !AllEmpty(Offers(sc, polls)) && AllEmpty(Offers(sc, Front(polls)))
  {
    var k := Last(polls).steps;
    NothingYet(sc, w, Front(polls));
    WillingIs(sc, w, k, []);
    hide Willing, IsNew, Accepted, Replies;
    var offers := Offers(sc, polls);
    assert offers[|offers| - 1] != [];
  }
}
