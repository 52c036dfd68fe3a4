/** Reception statistics and receiver reports as functions of state (RFC 3550, section 6.4.1 and appendix A). */
module RtcpModel {
  import opened Wire

  const RING: int := 2048
  const NEVER: int := -1
  const MAX_LOST: int := 0x7f_ffff
  const U32_MAX: int := 0xffff_ffff

  datatype Counts = Counts(started: bool, base: int, highest: int, received: int, previousExpected: int,
    previousReceived: int)

  type Seen = r: seq<int> | |r| == RING witness seq(RING, _ => NEVER)

  datatype State = State(counts: Counts, seen: Seen)

  function Unseen(): Seen {
    seq(RING, _ => NEVER)
  }

  const INITIAL := State(Counts(false, 0, 0, 0, 0, 0), Unseen())

  /** The extended number of a packet, unless it lies before the first one or 2048 or more behind the highest. */
  function Extend(c: Counts, n: U16): Option<int> {
    if !c.started then Some(n)
    else
      var delta := SequenceDelta(n, c.highest % 0x1_0000);
      if delta < 0 && -delta > c.highest then None
      else
        var extended := c.highest + delta;
        if extended < c.base || (c.highest > extended && c.highest - extended >= RING) then None else Some(extended)
  }

  function Count(c: Counts, extended: int): Counts {
    Counts(true, if c.started then c.base else extended,
           if !c.started || extended > c.highest then extended else c.highest,
           c.received + 1, c.previousExpected, c.previousReceived)
  }

  function Record(s: State, n: U16): State {
    match Extend(s.counts, n)
    case None => s
    case Some(e) =>
      if s.counts.started && s.seen[e % RING] == e then s
      else State(Count(s.counts, e), s.seen[e % RING := e])
  }

  /** The packet starts the count or is one not heard before. */
  predicate Admits(s: State, n: U16) {
    var e := Extend(s.counts, n);
    e.Some? && !(s.counts.started && s.seen[e.value % RING] == e.value)
  }

  // ---------------------------------------------------------------- jitter

  /** The last counted packet's timestamp and arrival, and the smoothed difference in transit times. */
  datatype Clock = Clock(timestamp: U32, arrivalUs: int, jitter: real)

  function Signed32(raw: U32): int {
    if raw < 0x8000_0000 then raw else raw - 0x1_0000_0000
  }

  /** A span of microseconds in ticks of the media clock. */
  function MediaTicks(us: int, rate: nat): real {
    us as real * rate as real / 1000000.0
  }

  /** How much longer the packet took than the one before, in ticks of the media clock. */
  function Transit(k: Clock, timestamp: U32, arrivalUs: int, rate: nat): real {
    MediaTicks(arrivalUs - k.arrivalUs, rate) - Signed32((timestamp - k.timestamp) % 0x1_0000_0000) as real
  }

  function Smoothed(jitter: real, transit: real): real {
    jitter + ((if transit < 0.0 then -transit else transit) - jitter) / 16.0
  }

  function Tick(k: Clock, s: State, n: U16, timestamp: U32, arrivalUs: int, rate: nat): Clock {
    if !Admits(s, n) then k
    else Clock(timestamp, arrivalUs,
      if s.counts.started then Smoothed(k.jitter, Transit(k, timestamp, arrivalUs, rate)) else k.jitter)
  }

  function JitterField(jitter: real): U32 {
    if jitter < 0.0 then 0 else if jitter > U32_MAX as real then U32_MAX else jitter.Floor
  }

  // ---------------------------------------------------------------- reports

  function Expected(c: Counts): int {
    c.highest - c.base + 1
  }

  function Lost(c: Counts): int {
    if Expected(c) > c.received then Expected(c) - c.received else 0
  }

  /** What was expected and received since the report before. */
  datatype Interval = Interval(expected: int, received: int)

  function IntervalOf(c: Counts): Interval {
    Interval(Expected(c) - c.previousExpected, c.received - c.previousReceived)
  }

  /** The numbers never run backwards, so no unsigned difference of the report wraps. */
  ghost predicate Sane(c: Counts) {
    && 0 <= c.base <= c.highest
    && 0 <= c.previousExpected <= Expected(c)
    && 0 <= c.previousReceived <= c.received
    && (!c.started ==> c.highest == 0)
  }

  function Fraction(i: Interval): (f: Byte)
    requires i.expected >= 0 && i.received >= 0
  {
    var lost := if i.expected > i.received then i.expected - i.received else 0;
    FractionOf(lost, i.expected)
  }

  function FractionOf(lost: nat, expected: nat): (f: Byte)
  {
    if expected == 0 then 0
    else if lost * 256 / expected > 255 then 255 else lost * 256 / expected
  }

  function Reported(c: Counts): Counts {
    c.(previousExpected := Expected(c), previousReceived := c.received)
  }

  /** The last sender report: its middle 32 bits and when it came, if one did. */
  datatype SenderReport = SenderReport(ntpMiddle: U32, arrivalMs: int)

  function Delay(sr: SenderReport, now: int): U32 {
    if sr.arrivalMs >= 0 && now >= sr.arrivalMs then
      var delay := (now - sr.arrivalMs) * 65536 / 1000;
      if delay > U32_MAX then U32_MAX else delay
    else 0
  }

  function CappedLost(c: Counts): int {
    if Lost(c) > MAX_LOST then MAX_LOST else Lost(c)
  }

  /** A receiver report with one block: version 2, type 201, eight words, and the session's own
      number 1 as its sender. */
  function Layout(ssrc: U32, fraction: Byte, lost: Bytes, highest: U32, jitter: U32, lastSr: U32, delay: U32): Bytes {
    [0x81, 201, 0, 7] + PutBe32(1) + PutBe32(ssrc) + [fraction] + lost + PutBe32(highest) + PutBe32(jitter)
    + PutBe32(lastSr) + PutBe32(delay)
  }

  function ReportBytes(c: Counts, ssrc: U32, jitter: U32, sr: SenderReport, now: int): Bytes
    requires Sane(c)
  {
    Layout(ssrc, Fraction(IntervalOf(c)), PutBe24(CappedLost(c)), c.highest % 0x1_0000_0000, jitter, sr.ntpMiddle,
      Delay(sr, now))
  }
}
