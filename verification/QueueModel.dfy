/** The bounded queue of compressed access units as a function of its state. */
module QueueModel {
  import opened Wire
  import opened AnnexB

  const MAX_FRAMES: int := 8
  const MAX_QUEUED: int := 2 * 1024 * 1024

  datatype Unit = Unit(bytes: Bytes, timestampUs: int, generation: int, resetSerial: int)

  datatype State = State(queue: seq<Unit>, bytes: int, generation: int, resetSerial: int, waiting: bool)

  const INITIAL := State([], 0, 1, 1, true)

  /** Everything queued is dropped, and whatever depended on it: the next unit must be a configured IDR. */
  function Emptied(s: State, generation: int): State {
    State([], 0, generation, s.resetSerial + 1, true)
  }

  function Reset(s: State): State {
    Emptied(s, s.generation + 1)
  }

  function Invalidate(s: State): State {
    Emptied(s, s.generation)
  }

  predicate Overflows(s: State, bytes: Bytes) {
    |bytes| > MAX_QUEUED || |s.queue| >= MAX_FRAMES || |bytes| > MAX_QUEUED - s.bytes
  }

  datatype Pushed = Pushed(s: State, accepted: bool)

  function Push(s: State, bytes: Bytes, timestampUs: int, generation: int): Pushed {
    if bytes == [] || generation != s.generation then Pushed(s, false)
    else if Overflows(s, bytes) then Pushed(Emptied(s, s.generation), false)
    else if s.waiting && !ConfiguredIdr(bytes) then Pushed(s, false)
    else Pushed(State(s.queue + [Unit(bytes, timestampUs, generation, s.resetSerial)], s.bytes + |bytes|,
      s.generation, s.resetSerial,
                      s.waiting && !ConfiguredIdr(bytes)), true)
  }

  datatype Popped = Popped(s: State, unit: Option<Unit>)

  function Pop(s: State): Popped {
    if s.queue == [] then Popped(s, None)
    else Popped(s.(queue := s.queue[1..], bytes := s.bytes - |s.queue[0].bytes|), Some(s.queue[0]))
  }

  predicate Current(s: State, unit: Unit) {
    unit.generation == s.generation && unit.resetSerial == s.resetSerial
  }
}
