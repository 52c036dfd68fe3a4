/** The bounded PCM queue as a plain sequence with counters. */
module PcmModel {

  type Sample = x: int | -32768 <= x < 32768

  function Least(a: nat, b: nat): nat {
    if a < b then a else b
  }

  /** The bounds as the constructor settles them. */
  datatype Bounds = Bounds(capacity: nat, highWater: nat, target: nat)

  function Settle(capacity: nat, highWater: nat, target: nat): Bounds {
    var c := if capacity == 0 then 1 else capacity;
    var h := if highWater == 0 then c else highWater;
    Bounds(c, h, Least(target, h))
  }

  predicate Settled(b: Bounds) {
    b.capacity > 0 && b.highWater > 0 && b.target <= b.highWater
  }

  datatype Stats = Stats(pushed: nat, popped: nat, dropped: nat, underruns: nat, depthHigh: nat)

  datatype State = State(queue: seq<Sample>, stats: Stats)

  const INITIAL := State([], Stats(0, 0, 0, 0, 0))

  /** The newest `n` elements, or all. */
  function Newest(s: seq<Sample>, n: nat): seq<Sample> {
    s[|s| - Least(n, |s|)..]
  }

  /** Keep what fits, newest first; then, above the high water mark, the newest up to the target. */
  function Kept(b: Bounds, queue: seq<Sample>, data: seq<Sample>): seq<Sample> {
    var fitting := Newest(queue + data, b.capacity);
    if |fitting| > b.highWater then Newest(fitting, b.target) else fitting
  }

  function Push(b: Bounds, s: State, data: seq<Sample>): State {
    if data == [] then s
    else
      var kept := Kept(b, s.queue, data);
      State(kept, Stats(s.stats.pushed + |data|, s.stats.popped, s.stats.dropped + |s.queue| + |data| - |kept|,
                        s.stats.underruns, if |kept| > s.stats.depthHigh then |kept| else s.stats.depthHigh))
  }

  datatype Popped = Popped(s: State, out: seq<Sample>)

  function Pop(s: State, room: nat): Popped {
    var take := Least(room, |s.queue|);
    var underruns := s.stats.underruns + if take == 0 && room > 0 then 1 else 0;
    Popped(State(s.queue[take..], s.stats.(popped := s.stats.popped + take, underruns := underruns)), s.queue[..take])
  }

  function Clear(s: State): State {
    State([], s.stats.(dropped := s.stats.dropped + |s.queue|))
  }
}
