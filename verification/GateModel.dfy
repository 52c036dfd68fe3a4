/** The callback gate as a state machine: every critical section of every thread is one step, in any interleaving. */
module GateModel {

  type Thread = int

  datatype Lease = Lease(id: nat, thread: Thread)

  /** What the gate keeps under its mutex. */
  datatype Gate = Gate(open: bool, users: map<Thread, nat>)

  function Held(g: Gate, t: Thread): nat {
    if t in g.users then g.users[t] else 0
  }

  function Entered(g: Gate, t: Thread): Gate {
    if g.open then g.(users := g.users[t := Held(g, t) + 1]) else g
  }

  /** A lease dies on thread `t`; an entry that reaches zero is erased. */
  function Released(g: Gate, t: Thread): Gate
    requires t in g.users && g.users[t] > 0
  {
    if g.users[t] == 1 then g.(users := g.users - {t}) else g.(users := g.users[t := g.users[t] - 1])
  }

  datatype Outcome = Throws | Returns | Waits

  /** The first critical section of a close, up to its return or its wait. */
  function CloseOutcome(g: Gate, t: Thread): Outcome {
    if t in g.users then Throws else if g.users == map[] then Returns else Waits
  }

  // ---------------------------------------------------------------- all threads together

  /** The gate, the leases that are alive, how many were granted, the closers waiting on the condition variable and
      those notified but not yet run, and whether some close has returned. */
  datatype World = World(gate: Gate, live: set<Lease>, granted: nat, asleep: set<Thread>, awake: set<Thread>,
    closed: bool)

  const START := World(Gate(true, map[]), {}, 0, {}, {}, false)

  datatype Event =
    | Enter(t: Thread)
    | Destroy(lease: Lease)     // on the thread that entered
    | Close(t: Thread)
    | Wake(t: Thread)           // spurious
    | Recheck(t: Thread)        // a notified closer holds the mutex again

  function Step(w: World, e: Event): World {
    match e
    case Enter(t) =>
      if !w.gate.open then w
      else w.(gate := Entered(w.gate, t), live := w.live + {Lease(w.granted, t)}, granted := w.granted + 1)
    case Destroy(lease) =>
      if lease in w.live && Held(w.gate, lease.thread) > 0 then
        w.(gate := Released(w.gate, lease.thread), live := w.live - {lease}, asleep := {}, awake := w.awake + w.asleep)
      else w
    case Close(t) =>
      if t in w.asleep + w.awake then w
      else
        match CloseOutcome(w.gate, t) {
          case Throws => w
          case Returns => w.(gate := w.gate.(open := false), closed := true)
          case Waits => w.(gate := w.gate.(open := false), asleep := w.asleep + {t})
        }
    case Wake(t) =>
      if t in w.asleep then w.(asleep := w.asleep - {t}, awake := w.awake + {t}) else w
    case Recheck(t) =>
      if t !in w.awake then w
      else if w.gate.users == map[] then w.(awake := w.awake - {t}, closed := true)
      else w.(awake := w.awake - {t}, asleep := w.asleep + {t})
  }

  function Run(events: seq<Event>): World {
    if events == [] then START else Step(Run(events[..|events| - 1]), events[|events| - 1])
  }
}
