/** The lease protocol over every interleaving. */
module GateLaws {
  import opened GateModel

  function OfThread(live: set<Lease>, t: Thread): set<Lease> {
    set l | l in live && l.thread == t
  }

  /** The per-thread counts are the live leases, none is zero, and leases have distinct numbers. */
  ghost predicate Counts(w: World) {
    && (forall t :: CountsThread(w, t))
    && (forall t :: t in w.gate.users ==> w.gate.users[t] > 0)
    && (forall l :: l in w.live ==> l.id < w.granted)
  }

  ghost predicate CountsThread(w: World, t: Thread) {
    Held(w.gate, t) == |OfThread(w.live, t)|
  }

  lemma OfThreadAdds(live: set<Lease>, lease: Lease, t: Thread)
    requires lease !in live
    ensures |OfThread(live + {lease}, t)| == |OfThread(live, t)| + if t == lease.thread then 1 else 0
  {
    assert OfThread(live + {lease}, t) == if t == lease.thread then OfThread(live, t) + {lease} else OfThread(live, t);
  }

  lemma OfThreadDrops(live: set<Lease>, lease: Lease, t: Thread)
    requires lease in live
    ensures |OfThread(live - {lease}, t)| == |OfThread(live, t)| - if t == lease.thread then 1 else 0
  {
    assert OfThread(live - {lease}, t) == if t == lease.thread then OfThread(live, t) - {lease} else OfThread(live, t);
  }

  /** A closer only sleeps while a lease is alive, and only once the gate is shut. */
  ghost predicate NoLostWakeUp(w: World) {
    && (w.asleep != {} ==> w.live != {})
    && (w.asleep + w.awake != {} ==> !w.gate.open)
  }

  ghost predicate ClosedIsFinal(w: World) {
    w.closed ==> !w.gate.open && w.live == {}
  }

  lemma NoUsersNoLeases(w: World)
    requires Counts(w)
    ensures w.gate.users == map[] <==> w.live == {}
  {
    if w.live != {} {
      var l :| l in w.live;
      assert l in OfThread(w.live, l.thread);
      assert CountsThread(w, l.thread);
    } else {
      forall t ensures t !in w.gate.users {
        assert CountsThread(w, t) && OfThread(w.live, t) == {};
      }
      assert w.gate.users == map[];
    }
  }

  lemma EnterCounts(w: World, t: Thread)
    requires Counts(w) && w.gate.open
    ensures Counts(Step(w, Enter(t)))
  {
    hide OfThread;
    var after := Step(w, Enter(t));
    forall u ensures CountsThread(after, u) {
      assert CountsThread(w, u);
      OfThreadAdds(w.live, Lease(w.granted, t), u);
    }
  }

  lemma DestroyCounts(w: World, lease: Lease)
    requires Counts(w) && lease in w.live
    ensures Held(w.gate, lease.thread) > 0 && Counts(Step(w, Destroy(lease)))
  {
    var t := lease.thread;
    assert lease in OfThread(w.live, t);
    hide OfThread;
    assert CountsThread(w, t);
    var after := Step(w, Destroy(lease));
    forall u ensures CountsThread(after, u) {
      assert CountsThread(w, u);
      OfThreadDrops(w.live, lease, u);
    }
  }

  lemma StepKeeps(w: World, e: Event)
    requires Counts(w) && NoLostWakeUp(w) && ClosedIsFinal(w)
    ensures Counts(Step(w, e)) && NoLostWakeUp(Step(w, e)) && ClosedIsFinal(Step(w, e))
  {
    hide Counts, OfThread;
    NoUsersNoLeases(w);
    match e
    case Enter(t) => if w.gate.open { EnterCounts(w, t); }
    case Destroy(lease) => if lease in w.live { DestroyCounts(w, lease); }
    case Close(t) => SameCounts(w, Step(w, e));
    case Wake(t) => SameCounts(w, Step(w, e));
    case Recheck(t) => SameCounts(w, Step(w, e));
  }

  lemma SameCounts(w: World, after: World)
    requires Counts(w) && after.gate.users == w.gate.users && after.live == w.live && after.granted == w.granted
    ensures Counts(after)
  {
    forall t ensures CountsThread(after, t) { assert CountsThread(w, t); }
  }

  /** Over every interleaving: the counts equal the live leases thread by thread, no wake-up is lost, and once a close
      has returned no lease is alive. */
  lemma {:induction false} RunKeeps(events: seq<Event>)
    ensures Counts(Run(events)) && NoLostWakeUp(Run(events)) && ClosedIsFinal(Run(events))
  {
    hide Counts, NoLostWakeUp, ClosedIsFinal, Step;
    if events == [] {
      StartKeeps();
    } else {
      RunKeeps(events[..|events| - 1]);
      StepKeeps(Run(events[..|events| - 1]), events[|events| - 1]);
    }
  }

  lemma StartKeeps()
    ensures Counts(START) && NoLostWakeUp(START) && ClosedIsFinal(START)
  {
    forall t ensures CountsThread(START, t) { assert OfThread({}, t) == {}; }
  }

  /** Shut gates stay shut: from then on no lease is granted and the live ones only die. */
  lemma {:induction false} ShutStaysShut(events: seq<Event>, more: seq<Event>)
    requires !Run(events).gate.open
    ensures var before, after := Run(events), Run(events + more);
            !after.gate.open && after.granted == before.granted && after.live <= before.live
              && (before.closed ==> after.closed)
    decreases |more|
  {
    if more == [] {
      assert events + more == events;
    } else {
      hide Run, Step;
      var n := |more| - 1;
      assert (events + more)[..|events| + n] == events + more[..n];
      ShutStaysShut(events, more[..n]);
      RunStep(events + more);
      ShutStep(Run(events + more[..n]), more[n]);
    }
  }

  lemma ShutStep(w: World, e: Event)
    requires !w.gate.open
    ensures var after := Step(w, e);
            !after.gate.open && after.granted == w.granted && after.live <= w.live && (w.closed ==> after.closed)
  {
  }

  lemma RunStep(events: seq<Event>)
    requires events != []
    ensures Run(events) == Step(Run(events[..|events| - 1]), events[|events| - 1])
  {
  }

  /** Once closeAndWait has returned, no lease is alive and none is ever granted again, whatever the threads do. */
  lemma NothingAfterClose(events: seq<Event>, more: seq<Event>)
    requires Run(events).closed
    ensures var after := Run(events + more);
            after.live == {} && after.granted == Run(events).granted && !after.gate.open
  {
    hide Run, Counts;
    RunKeeps(events);
    ShutStaysShut(events, more);
  }

  /** When the last lease dies every waiting closer has been notified, and returns as soon as it runs. */
  lemma CloseCanReturn(events: seq<Event>, t: Thread)
    requires var w := Run(events); w.live == {} && t in w.asleep + w.awake
    ensures t in Run(events).awake && Step(Run(events), Recheck(t)).closed
    ensures t !in Step(Run(events), Recheck(t)).asleep + Step(Run(events), Recheck(t)).awake
  {
    hide Run, Counts;
    RunKeeps(events);
    NoUsersNoLeases(Run(events));
  }

  /** A close from inside a lease throws and changes nothing; any other one shuts the gate, and returns at once exactly
      when no lease is alive. */
  lemma CloseIs(events: seq<Event>, t: Thread)
    requires t !in Run(events).asleep + Run(events).awake
    ensures var w := Run(events);
            var after := Step(w, Close(t));
            && ((exists l :: l in w.live && l.thread == t) ==> after == w)
            && (!(exists l :: l in w.live && l.thread == t) ==>
                  !after.gate.open && after.live == w.live && (t in after.asleep <==> w.live != {})
                    && (w.live == {} ==> after.closed))
  {
    hide Run;
    RunKeeps(events);
    var w := Run(events);
    NoUsersNoLeases(w);
    assert CountsThread(w, t);
    if l :| l in w.live && l.thread == t {
      assert l in OfThread(w.live, t);
    } else {
      assert OfThread(w.live, t) == {};
    }
  }

  // ---------------------------------------------------------------- what the gate grants

  /** The gate without counts, closers and wake-ups: whether it is open, the live leases, how many were granted. */
  datatype Ideal = Ideal(open: bool, live: set<Lease>, granted: nat)

  /** While it is open every entry is granted; it shuts when a thread that holds no lease closes it. */
  function IdealStep(i: Ideal, e: Event): Ideal {
    match e
    case Enter(t) => if i.open then Ideal(true, i.live + {Lease(i.granted, t)}, i.granted + 1) else i
    case Destroy(lease) => i.(live := i.live - {lease})
    case Close(t) => i.(open := i.open && exists l :: l in i.live && l.thread == t)
    case _ => i
  }

  function IdealRun(events: seq<Event>): Ideal {
    if events == [] then Ideal(true, {}, 0) else IdealStep(IdealRun(events[..|events| - 1]), events[|events| - 1])
  }

  /** Every interleaving grants exactly what the ideal gate grants. */
  lemma {:induction false} GrantsExactly(events: seq<Event>)
    ensures var w := Run(events);
            Ideal(w.gate.open, w.live, w.granted) == IdealRun(events)
  {
    if events != [] {
      hide Run, Counts, OfThread, NoLostWakeUp;
      var earlier, e := events[..|events| - 1], events[|events| - 1];
      GrantsExactly(earlier);
      RunStep(events);
      RunKeeps(earlier);
      match e
      case Destroy(lease) =>
        if lease in Run(earlier).live {
          DestroyCounts(Run(earlier), lease);
        }
      case Close(t) =>
        if t in Run(earlier).asleep + Run(earlier).awake {
          ClosersShut(Run(earlier), t);
        } else {
          CloseIs(earlier, t);
        }
      case _ =>
    }
  }

  lemma ClosersShut(w: World, t: Thread)
    requires NoLostWakeUp(w) && t in w.asleep + w.awake
    ensures !w.gate.open && Step(w, Close(t)) == w
  {
  }

  /** A waiting close goes on waiting, asleep or notified, until it returns; and it returns only on its own turn
      with no lease alive. */
  lemma WaitsUntilNone(events: seq<Event>, e: Event, t: Thread)
    requires t in Run(events).asleep + Run(events).awake
    ensures var w, after := Run(events), Step(Run(events), e);
            t in after.asleep + after.awake <==> !(e == Recheck(t) && t in w.awake && w.live == {})
  {
    hide Run, Counts;
    RunKeeps(events);
    NoUsersNoLeases(Run(events));
  }
}
