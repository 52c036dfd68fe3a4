/** The worker's run as it executes: a polling loop over its surroundings. */
module SignalingWork {
  import opened Wire
  import M = SignalingModel

  class SignalingWorker {
    const script: M.Script
    const keepPollingAfterAnswer: bool
    var world: M.World
    var shown: M.Shown

    constructor (script: M.Script, keepPollingAfterAnswer: bool, world: M.World)
      ensures this.script == script && this.keepPollingAfterAnswer == keepPollingAfterAnswer
      ensures this.world == world && shown == M.Shown([], [], [])
    {
      this.script, this.keepPollingAfterAnswer := script, keepPollingAfterAnswer;
      this.world, shown := world, M.Shown([], [], []);
    }

    /** Anything that takes time, during which cancellation may come. */
    method Pass()
      modifies this`world
      ensures world == M.Tick(script, old(world))
    {
      world := M.Tick(script, world);
    }

    method CancelRequested() returns (requested: bool)
      modifies this`world
      ensures world == M.Tick(script, old(world)) && requested == world.cancelled
    {
      Pass();
      return world.cancelled;
    }

    method Report(phase: M.Phase)
      modifies this`shown
      ensures shown == M.Report(old(shown), phase)
    {
      shown := shown.(phases := shown.phases + [phase]);
    }

    method Fail()
      modifies this
      ensures M.Run(world, shown) == M.Fail(script, old(world), old(shown))
    {
      var requested := CancelRequested();
      if requested { Report(M.Canceled); return; }
      Report(M.Failed);
    }

    method SleepFor(intervalMs: int)
      modifies this`world
      ensures world == M.Sleep(script, old(world), intervalMs, 0)
    {
      var slept := 0;
      while slept < intervalMs
        invariant slept >= 0
        invariant M.Sleep(script, old(world), intervalMs, 0) == M.Sleep(script, world, intervalMs, slept)
        decreases intervalMs - slept
      {
        var requested := CancelRequested();
        if requested { return; }
        world := M.Slept(script, world);
        slept := slept + M.SLICE_MS;
      }
    }

    /** From a new offer to its accepted answer; true when the run is over. */
    method AnswerOffer(sdp: Bytes) returns (over: bool)
      modifies this
      ensures M.Answer(script, old(world), old(shown), sdp)
              == if over then M.Over(M.Run(world, shown)) else M.Goes(world, shown)
    {
      Report(M.GeneratingAnswer);
      var answer := script.answer(world.steps);
      Pass();
      var requested := CancelRequested();
      if requested { Report(M.Canceled); return true; }
      if answer.None? || answer.value == [] { Report(M.Failed); return true; }
      Report(M.SendingAnswer);
      var put := script.put(world.steps);
      Pass();
      if !put { Fail(); return true; }
      Report(M.Succeeded);
      shown := shown.(answered := shown.answered + [sdp]);
      return false;
    }

    method RunOnce()
      requires shown == M.Shown([], [], [])
      modifies this
      ensures M.Run(world, shown) == M.RunAll(script, keepPollingAfterAnswer, old(world))
    {
      hide M.Polling;
      var early := CancelRequested();
      if early { Report(M.Canceled); return; }
      Report(M.CreatingSession);
      var session := script.session(world.steps);
      Pass();
      if session.None? { Fail(); return; }
      var late := CancelRequested();
      if late { Report(M.Canceled); return; }
      Report(M.SessionCreated);
      Report(M.WaitingForOffer);
      Pass();
      PollOffers(session.value, world.clock);
    }

    method PollOffers(poll: M.Policy, begin: int)
      requires world.clock == begin
      modifies this
      ensures M.Run(world, shown) == M.Polling(script, poll, keepPollingAfterAnswer, begin,
                                               M.Loop(poll.initialMs, [], false), old(world), old(shown))
    {
      hide M.Sleep, M.NextInterval, M.Answer, M.Left, M.Elapsed;
      var l := M.Loop(poll.initialMs, [], false);
      while true
        invariant begin <= world.clock && poll.initialMs <= l.intervalMs <= poll.maxMs
        invariant M.Polling(script, poll, keepPollingAfterAnswer, begin, M.Loop(poll.initialMs, [], false),
                  old(world), old(shown))
                  == M.Polling(script, poll, keepPollingAfterAnswer, begin, l, world, shown)
        decreases M.Left(poll, begin, world)
      {
        var over;
        over, l := OneRound(poll, begin, l);
        if over { return; }
      }
    }

    /** One turn of the loop: over with the run's end, or ready for the next turn with less time left. */
    method OneRound(poll: M.Policy, begin: int, before: M.Loop) returns (over: bool, l: M.Loop)
      requires begin <= world.clock && poll.initialMs <= before.intervalMs <= poll.maxMs
      modifies this
      ensures over ==>
                M.Polling(script, poll, keepPollingAfterAnswer, begin, before, old(world), old(shown))
                  == M.Run(world, shown)
      ensures !over ==> begin <= world.clock && poll.initialMs <= l.intervalMs <= poll.maxMs
      ensures !over ==> M.Left(poll, begin, world) < M.Left(poll, begin, old(world))
      ensures !over ==> M.Polling(script, poll, keepPollingAfterAnswer, begin, before, old(world), old(shown))
                        == M.Polling(script, poll, keepPollingAfterAnswer, begin, l, world, shown)
    {
      hide M.Sleep, M.NextInterval, M.Answer, M.Left;
      l := before;
      var requested := CancelRequested();
      if requested { Report(M.Canceled); return true, l; }
      Pass();
      ghost var now := world;
      LeftTicks(poll, begin, old(world));
      var elapsed := M.Elapsed(begin, world.clock);
      if elapsed >= poll.timeoutMs {
        if !l.answered { Report(M.TimedOut); }
        return true, l;
      }
      var offer := script.offer(world.steps);
      shown := shown.(polls := shown.polls + [world]);
      Pass();
      if offer.Some? {
        requested := CancelRequested();
        if !requested && offer.value != l.lastSdp {
          over := AnswerOffer(offer.value);
          if over || !keepPollingAfterAnswer { return true, l; }
          l := l.(lastSdp := offer.value, answered := true);
        }
      }
      requested := CancelRequested();
      if requested { Report(M.Canceled); return true, l; }
      M.IntervalStays(poll, l.intervalMs, elapsed);
      M.SleepTakes(script, world, M.NextInterval(poll, l.intervalMs, elapsed), 0);
      l := l.(intervalMs := M.NextInterval(poll, l.intervalMs, elapsed));
      SleepFor(l.intervalMs);
      M.LeftFalls(poll, begin, now, world, l.intervalMs);
      return false, l;
    }

    lemma LeftTicks(poll: M.Policy, begin: int, w: M.World)
      ensures M.Left(poll, begin, M.Tick(script, M.Tick(script, w))) <= M.Left(poll, begin, w)
    {
    }
  }
}
