/** What the interarrival jitter of RFC 3550, section 6.4.1, measures, over whole runs. Reals stand for the program's
    floating-point numbers. */
module RtcpJitter {
  import opened Wire
  import opened RtcpModel

  /** Timestamps less than 2^31 ticks apart give their true distance, across any wrap of the 32-bit field. */
  lemma TimestampDistance(earlier: int, later: int)
    requires -0x8000_0000 <= later - earlier < 0x8000_0000
    ensures Signed32((later % 0x1_0000_0000 - earlier % 0x1_0000_0000) % 0x1_0000_0000) == later - earlier
  {
    assert (later % 0x1_0000_0000 - earlier % 0x1_0000_0000) % 0x1_0000_0000 == (later - earlier) % 0x1_0000_0000;
  }

  /** A packet as it comes: its number, its timestamp before it is cut to 32 bits, and its arrival. */
  datatype Timed = Timed(n: U16, ticks: int, us: int)

  datatype Session = Session(s: State, k: Clock)

  function Take(x: Session, p: Timed, rate: nat): Session {
    Session(Record(x.s, p.n), Tick(x.k, x.s, p.n, p.ticks % 0x1_0000_0000, p.us, rate))
  }

  function RunTimed(ps: seq<Timed>, rate: nat): Session {
    if ps == [] then Session(INITIAL, Clock(0, 0, 0.0)) else Take(RunTimed(ps[..|ps| - 1], rate), ps[|ps| - 1], rate)
  }

  /** How late the packet is, in ticks, against a stream that takes the same time for every packet. */
  function Lateness(p: Timed, rate: nat): real {
    MediaTicks(p.us, rate) - p.ticks as real
  }

  /** All timestamps lie less than 2^31 ticks apart. */
  ghost predicate Near(ps: seq<Timed>) {
    forall i, j :: 0 <= i < |ps| && 0 <= j < |ps| ==> -0x8000_0000 <= ps[i].ticks - ps[j].ticks < 0x8000_0000
  }

  ghost predicate Between(ps: seq<Timed>, rate: nat, lo: real, hi: real) {
    && lo <= hi
    && (forall i :: 0 <= i < |ps| ==> lo <= Lateness(ps[i], rate) <= hi)
    && Near(ps)
  }

  /** The last counted packet is one of those that came. */
  ghost predicate Remembers(k: Clock, ps: seq<Timed>) {
    exists i :: 0 <= i < |ps| && k.timestamp == ps[i].ticks % 0x1_0000_0000 && k.arrivalUs == ps[i].us
  }

  /** The interarrival jitter never exceeds the spread of the packets' lateness, whatever is lost, reordered or repeated
      and wherever the timestamps wrap; with every packet equally late it is 0. */
  lemma {:induction false} JitterWithinSpread(ps: seq<Timed>, rate: nat, lo: real, hi: real)
    requires Between(ps, rate, lo, hi)
    ensures 0.0 <= RunTimed(ps, rate).k.jitter <= hi - lo
    ensures ps != [] ==> RunTimed(ps, rate).s.counts.started && Remembers(RunTimed(ps, rate).k, ps)
    decreases |ps|
  {
    hide Record, Admits, Lateness, Transit, Smoothed, MediaTicks;
    if ps != [] {
      var earlier, p := ps[..|ps| - 1], ps[|ps| - 1];
      var x := RunTimed(earlier, rate);
      JitterWithinSpread(earlier, rate, lo, hi);
      RememberMore(x.k, earlier, p);
      StartedStays(x.s, p.n);
      assert earlier + [p] == ps;
      if x.s.counts.started {
        assert earlier != [];
        var i :| 0 <= i < |earlier| && x.k.timestamp == earlier[i].ticks % 0x1_0000_0000
          && x.k.arrivalUs == earlier[i].us;
        assert earlier[i] == ps[i];
        TransitIs(x.k, ps[i], p, rate);
        SmoothedWithin(x.k.jitter, Transit(x.k, p.ticks % 0x1_0000_0000, p.us, rate), hi - lo);
      }
    }
  }

  lemma RememberMore(k: Clock, earlier: seq<Timed>, p: Timed)
    ensures Remembers(k, earlier) ==> Remembers(k, earlier + [p])
    ensures k.timestamp == p.ticks % 0x1_0000_0000 && k.arrivalUs == p.us ==> Remembers(k, earlier + [p])
  {
    var all := earlier + [p];
    assert all[|earlier|] == p;
    if i :| 0 <= i < |earlier| && k.timestamp == earlier[i].ticks % 0x1_0000_0000 && k.arrivalUs == earlier[i].us {
      assert all[i] == earlier[i];
    }
  }

  lemma StartedStays(s: State, n: U16)
    ensures Record(s, n).counts.started
    ensures !s.counts.started ==> Admits(s, n)
  {
  }

  /** A transit difference is a difference in lateness. */
  lemma TransitIs(k: Clock, last: Timed, p: Timed, rate: nat)
    requires k.timestamp == last.ticks % 0x1_0000_0000 && k.arrivalUs == last.us
    requires -0x8000_0000 <= p.ticks - last.ticks < 0x8000_0000
    ensures Transit(k, p.ticks % 0x1_0000_0000, p.us, rate) == Lateness(p, rate) - Lateness(last, rate)
  {
    hide MediaTicks, Signed32;
    TimestampDistance(last.ticks, p.ticks);
    TicksBetween(p.us, last.us, rate);
  }

  lemma TicksBetween(a: int, b: int, rate: nat)
    ensures MediaTicks(a - b, rate) == MediaTicks(a, rate) - MediaTicks(b, rate)
  {
    var x, y, r := a as real, b as real, rate as real;
    assert (a - b) as real == x - y;
    assert (x - y) * r == x * r - y * r;
  }

  lemma SmoothedWithin(jitter: real, transit: real, bound: real)
    requires 0.0 <= jitter <= bound && -bound <= transit <= bound
    ensures 0.0 <= Smoothed(jitter, transit) <= bound
  {
  }

  // ---------------------------------------------------------------- its exact value

  /** The packets counted, in the order in which they came. */
  function Heard(ps: seq<Timed>, rate: nat): seq<Timed> {
    if ps == [] then []
    else
      var earlier, p := ps[..|ps| - 1], ps[|ps| - 1];
      Heard(earlier, rate) + if Admits(RunTimed(earlier, rate).s, p.n) then [p] else []
  }

  /** How much the lateness differs between counted packet `i` and the one before. */
  function Change(heard: seq<Timed>, rate: nat, i: nat): real
    requires 0 < i < |heard|
  {
    var d := Lateness(heard[i], rate) - Lateness(heard[i - 1], rate);
    if d < 0.0 then -d else d
  }

  function Fading(n: nat): real {
    if n == 0 then 1.0 else Fading(n - 1) * 15.0 / 16.0
  }

  /** The first `k` changes, a sixteenth of each, fading by a sixteenth with every later one. */
  function Faded(heard: seq<Timed>, rate: nat, k: nat): real
    requires k < |heard| || k == 0
  {
    if k == 0 then 0.0 else Faded(heard, rate, k - 1) + Change(heard, rate, k) * Fading(|heard| - 1 - k) / 16.0
  }

  lemma {:induction false} FadesOnce(heard: seq<Timed>, rate: nat, p: Timed, k: nat)
    requires k < |heard|
    ensures Faded(heard + [p], rate, k) == Faded(heard, rate, k) * 15.0 / 16.0
  {
    if k > 0 {
      FadesOnce(heard, rate, p, k - 1);
      SameChange(heard, rate, p, k);
      hide Faded, Change;
      var f := Fading(|heard| - 1 - k);
      assert Fading(|heard| - k) == f * 15.0 / 16.0;
      Scaled(Change(heard, rate, k), f);
      hide Fading;
      FadedIs(heard, rate, k);
      FadedIs(heard + [p], rate, k);
    }
  }

  lemma FadedIs(heard: seq<Timed>, rate: nat, k: nat)
    requires 0 < k < |heard|
    ensures Faded(heard, rate, k)
            == Faded(heard, rate, k - 1) + Change(heard, rate, k) * Fading(|heard| - 1 - k) / 16.0
  {
  }

  lemma Scaled(c: real, f: real)
    ensures c * (f * 15.0 / 16.0) / 16.0 == c * f / 16.0 * 15.0 / 16.0
  {
  }

  lemma SameChange(heard: seq<Timed>, rate: nat, p: Timed, k: nat)
    requires 0 < k < |heard|
    ensures Change(heard + [p], rate, k) == Change(heard, rate, k)
  {
  }

  /** One counted packet more. */
  lemma FadedMore(heard: seq<Timed>, rate: nat, p: Timed)
    requires heard != []
    ensures var more := heard + [p];
            Faded(more, rate, |more| - 1) == Faded(heard, rate, |heard| - 1) * 15.0 / 16.0
                                             + Change(more, rate, |more| - 1) / 16.0
  {
    var more := heard + [p];
    FadesOnce(heard, rate, p, |heard| - 1);
    FadedIs(more, rate, |more| - 1);
    assert Fading(0) == 1.0;
  }

  /** The clock and the counted packets agree. */
  ghost predicate Agrees(x: Session, heard: seq<Timed>, rate: nat) {
    && (x.s.counts.started <==> heard != [])
    && (heard != [] ==>
          && x.k.timestamp == heard[|heard| - 1].ticks % 0x1_0000_0000
          && x.k.arrivalUs == heard[|heard| - 1].us)
    && x.k.jitter == if heard == [] then 0.0 else Faded(heard, rate, |heard| - 1)
  }

  /** Over any run the jitter is the changes in lateness between counted packets, a sixteenth of each, those
      before the last faded by a sixteenth for every change since. */
  lemma {:induction false} JitterIs(ps: seq<Timed>, rate: nat)
    requires Near(ps)
    ensures Agrees(RunTimed(ps, rate), Heard(ps, rate), rate)
    decreases |ps|
  {
    if ps != [] {
      hide Record, Admits, Agrees, Near;
      var earlier, p := ps[..|ps| - 1], ps[|ps| - 1];
      NearFront(ps);
      JitterIs(earlier, rate);
      HeardNear(ps, earlier, p, rate);
      OneMore(RunTimed(earlier, rate), Heard(earlier, rate), p, rate);
    }
  }

  lemma NearFront(ps: seq<Timed>)
    requires Near(ps) && ps != []
    ensures Near(ps[..|ps| - 1])
  {
  }

  lemma HeardNear(ps: seq<Timed>, earlier: seq<Timed>, p: Timed, rate: nat)
    requires ps == earlier + [p] && Near(ps)
    ensures LastNear(Heard(earlier, rate), p)
  {
    hide Admits, RunTimed;
    HeardCame(earlier, rate);
    var heard := Heard(earlier, rate);
    if heard != [] {
      assert heard[|heard| - 1] in earlier;
      var i :| 0 <= i < |earlier| && earlier[i] == heard[|heard| - 1];
      assert ps[i] == earlier[i] && ps[|earlier|] == p;
    }
  }

  predicate LastNear(heard: seq<Timed>, p: Timed) {
    heard != [] ==> -0x8000_0000 <= p.ticks - heard[|heard| - 1].ticks < 0x8000_0000
  }

  lemma {:induction false} HeardCame(ps: seq<Timed>, rate: nat)
    ensures forall q :: q in Heard(ps, rate) ==> q in ps
  {
    hide Admits, RunTimed;
    if ps != [] { HeardCame(ps[..|ps| - 1], rate); }
  }

  lemma OneMore(x: Session, heard: seq<Timed>, p: Timed, rate: nat)
    requires Agrees(x, heard, rate) && LastNear(heard, p)
    ensures Agrees(Take(x, p, rate), heard + if Admits(x.s, p.n) then [p] else [], rate)
  {
    StartedStays(x.s, p.n);
    AdmittedOrSame(x.s, p.n);
    hide Record, Admits, Transit, Faded, Change, Lateness;
    if !Admits(x.s, p.n) {
      assert heard + [] == heard;
    } else if heard == [] {
      assert heard + [p] == [p];
      FadedNone([p], rate);
    } else {
      var last := heard[|heard| - 1];
      TransitIs(x.k, last, p, rate);
      FadedMore(heard, rate, p);
      ChangeLast(heard, rate, p);
    }
  }

  lemma FadedNone(heard: seq<Timed>, rate: nat)
    ensures Faded(heard, rate, 0) == 0.0
  {
  }

  lemma ChangeLast(heard: seq<Timed>, rate: nat, p: Timed)
    requires heard != []
    ensures var d := Lateness(p, rate) - Lateness(heard[|heard| - 1], rate);
            Change(heard + [p], rate, |heard|) == if d < 0.0 then -d else d
  {
    assert (heard + [p])[|heard| - 1] == heard[|heard| - 1];
  }

  lemma AdmittedOrSame(s: State, n: U16)
    ensures !Admits(s, n) ==> Record(s, n) == s
  {
  }

  /** When the lateness changes by the same amount each time, the jitter approaches that amount. */
  lemma {:induction false} SteadyJitter(heard: seq<Timed>, rate: nat, d: real, k: nat)
    requires k < |heard| && forall i :: 0 < i < |heard| ==> Change(heard, rate, i) == d
    ensures Faded(heard, rate, k) == d * (Fading(|heard| - 1 - k) - Fading(|heard| - 1))
  {
    hide Change;
    if k > 0 {
      SteadyJitter(heard, rate, d, k - 1);
      var f := Fading(|heard| - 1 - k);
      assert Fading(|heard| - k) == f * 15.0 / 16.0;
      Distribute(d, f, Fading(|heard| - 1));
    }
  }

  lemma Distribute(d: real, f: real, g: real)
    ensures d * (f * 15.0 / 16.0 - g) + d * f / 16.0 == d * (f - g)
  {
    assert d * (f * 15.0 / 16.0 - g) == d * f * 15.0 / 16.0 - d * g;
  }

  lemma SteadyRun(ps: seq<Timed>, rate: nat, d: real)
    requires Near(ps) && ps != []
    requires forall i :: 0 < i < |Heard(ps, rate)| ==> Change(Heard(ps, rate), rate, i) == d
    ensures Heard(ps, rate) != []
    ensures RunTimed(ps, rate).k.jitter == d * (1.0 - Fading(|Heard(ps, rate)| - 1))
  {
    hide Change, Faded, RunTimed, Heard, Fading, Near;
    var heard := Heard(ps, rate);
    JitterIs(ps, rate);
    SomethingHeard(ps, rate);
    SteadyJitter(heard, rate, d, |heard| - 1);
    FadingNone();
  }

  lemma FadingNone()
    ensures Fading(0) == 1.0
  {
  }

  lemma SomethingHeard(ps: seq<Timed>, rate: nat)
    requires ps != []
    ensures RunTimed(ps, rate).s.counts.started
  {
    hide Record;
    StartedStays(RunTimed(ps[..|ps| - 1], rate).s, ps[|ps| - 1].n);
  }

  /** The reported jitter is the whole part of the jitter, as far as 32 bits go. */
  lemma {:induction false} JitterReported(ps: seq<Timed>, rate: nat)
    ensures var j := RunTimed(ps, rate).k.jitter;
            && JitterField(j) as real <= j
            && (j < JitterField(j) as real + 1.0 || (JitterField(j) == U32_MAX && j > U32_MAX as real))
  {
    hide Transit, Admits, Record, RunTimed;
    JitterPositive(ps, rate);
  }

  lemma {:induction false} JitterPositive(ps: seq<Timed>, rate: nat)
    ensures RunTimed(ps, rate).k.jitter >= 0.0
  {
    hide Transit, Admits, Record;
    if ps != [] {
      JitterPositive(ps[..|ps| - 1], rate);
    }
  }
}
