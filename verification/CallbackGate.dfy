/** The gate as it runs: each method is one critical section. The waiters of its condition variable are two sets, the
    threads asleep and those woken that have not yet tested the condition again. */
module CallbackGating {
  import M = GateModel

  class CallbackGate {
    var open: bool
    var users: map<M.Thread, nat>
    var asleep: set<M.Thread>
    var awake: set<M.Thread>

    ghost function Snapshot(): M.Gate
      reads this
    {
      M.Gate(open, users)
    }

    constructor ()
      ensures Snapshot() == M.START.gate && asleep == awake == {}
    {
      open, users, asleep, awake := true, map[], {}, {};
    }

    method Enter(current: M.Thread) returns (granted: bool)
      modifies this
      ensures Snapshot() == M.Entered(old(Snapshot()), current) && granted == old(open)
      ensures asleep == old(asleep) && awake == old(awake)
    {
      if !open { return false; }
      users := users[current := (if current in users then users[current] else 0) + 1];
      return true;
    }

    /** A lease is destroyed on the thread that holds it, and every closer that sleeps is notified. */
    method Leave(current: M.Thread)
      requires current in users && users[current] > 0
      modifies this
      ensures Snapshot() == M.Released(old(Snapshot()), current)
      ensures asleep == {} && awake == old(awake + asleep)
    {
      users := users[current := users[current] - 1];
      if users[current] == 0 { users := users - {current}; }
      NotifyAll();
    }

    method NotifyAll()
      modifies this`asleep, this`awake
      ensures asleep == {} && awake == old(awake + asleep)
    {
      asleep, awake := {}, awake + asleep;
    }

    /** Closing up to the wait: throws on a thread inside a lease, else shuts the gate and goes to sleep unless no lease
        is alive. */
    method BeginClose(current: M.Thread) returns (outcome: M.Outcome)
      modifies this
      ensures outcome == M.CloseOutcome(old(Snapshot()), current)
      ensures Snapshot() == if outcome == M.Throws then old(Snapshot()) else old(Snapshot()).(open := false)
      ensures asleep == (if outcome == M.Waits then old(asleep) + {current} else old(asleep)) && awake == old(awake)
    {
      if current in users { return M.Throws; }
      open := false;
      if users == map[] { return M.Returns; }
      asleep := asleep + {current};
      return M.Waits;
    }

    /** A woken closer tests the condition under the mutex: it returns, or sleeps again. */
    method Recheck(current: M.Thread) returns (returned: bool)
      requires current in awake
      modifies this`asleep, this`awake
      ensures returned <==> users == map[]
      ensures awake == old(awake) - {current}
      ensures asleep == if returned then old(asleep) else old(asleep) + {current}
    {
      awake := awake - {current};
      if users == map[] { return true; }
      asleep := asleep + {current};
      return false;
    }
  }
}
