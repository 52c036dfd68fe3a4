/** The receiving session's statistics as they run: counters, the ring of seen numbers, jitter,
    and the feedback receiver that starts again with every source. */
module RtcpSession {
  import opened Wire
  import M = RtcpModel
  import T = TwccModel
  import opened TwccReceive

  class EnhancedRtcpReceivingSession {
    var ssrc: U32
    var started: bool
    var base: int
    var highest: int
    var received: int
    var previousExpected: int
    var previousReceived: int
    const seen: array<int>
    const clockRate: U32
    var lastTimestamp: U32
    var lastArrivalUs: int
    var jitter: real
    const twcc: TwccReceiver
    var srNtpMiddle: U32
    var srArrivalMs: int

    ghost predicate Valid()
      reads this
    {
      seen.Length == M.RING && twcc.records.Length == T.RING && (seen as object) != (twcc.records as object)
        && M.Sane(Counts())
    }

    ghost function Counts(): M.Counts
      reads this
    {
      M.Counts(started, base, highest, received, previousExpected, previousReceived)
    }

    ghost function Snapshot(): M.State
      requires Valid()
      reads this, seen
    {
      M.State(Counts(), seen[..])
    }

    ghost function Clock(): M.Clock
      reads this
    {
      M.Clock(lastTimestamp, lastArrivalUs, jitter)
    }

    ghost function LastSenderReport(): M.SenderReport
      reads this
    {
      M.SenderReport(srNtpMiddle, srArrivalMs)
    }

    constructor (clockRate: U32)
      ensures Valid() && fresh(seen) && fresh(twcc) && fresh(twcc.records)
      ensures Snapshot() == M.INITIAL && twcc.Snapshot() == T.INITIAL && ssrc == 0 && this.clockRate == clockRate
      ensures Clock() == M.Clock(0, 0, 0.0) && LastSenderReport() == M.SenderReport(0, -1)
    {
      seen := new int[M.RING](_ => M.NEVER);
      twcc := new TwccReceiver();
      this.clockRate := clockRate;
      ssrc, started, base, highest, received := 0, false, 0, 0, 0;
      lastTimestamp, lastArrivalUs, jitter := 0, 0, 0.0;
      previousExpected, previousReceived, srNtpMiddle, srArrivalMs := 0, 0, 0, -1;
      new;
      assert seen[..] == M.Unseen();
    }

    method ForgetNumbers()
      requires seen.Length == M.RING
      modifies seen
      ensures seen[..] == M.Unseen()
    {
      for i := 0 to seen.Length
        modifies seen
        invariant forall k :: 0 <= k < i ==> seen[k] == M.NEVER
      {
        seen[i] := M.NEVER;
      }
    }

    method ResetSource(source: U32)
      requires Valid()
      modifies this, seen, twcc, twcc.records
      ensures Valid() && Snapshot() == M.INITIAL && twcc.Snapshot() == T.INITIAL && ssrc == source
      ensures Clock() == old(Clock()).(jitter := 0.0) && LastSenderReport() == M.SenderReport(0, -1)
    {
      hide T.INITIAL, M.Unseen;
      ssrc, started := source, false;
      ForgetNumbers();
      twcc.Reset();
      base, highest, received, previousExpected, previousReceived := 0, 0, 0, 0, 0;
      srNtpMiddle, srArrivalMs, jitter := 0, -1, 0.0;
    }

    method Record(n: U16, timestamp: U32, arrivalUs: int)
      requires Valid()
      modifies this, seen
      ensures Valid() && Snapshot() == M.Record(old(Snapshot()), n)
      ensures Clock() == M.Tick(old(Clock()), old(Snapshot()), n, timestamp, arrivalUs, clockRate)
      ensures ssrc == old(ssrc) && LastSenderReport() == old(LastSenderReport())
    {
      hide SequenceDelta, M.Transit, M.Smoothed;
      var extended := n;
      if !started {
        base, highest, started := n, n, true;
      } else {
        var delta := SequenceDelta(n, highest % 0x1_0000);
        if delta < 0 && -delta > highest { return; }
        extended := highest + delta;
        if extended < base || (highest > extended && highest - extended >= M.RING) { return; }
        if seen[extended % M.RING] == extended { return; }
        if extended > highest { highest := extended; }
        var transit := M.Transit(M.Clock(lastTimestamp, lastArrivalUs, jitter), timestamp, arrivalUs, clockRate);
        jitter := M.Smoothed(jitter, transit);
      }
      seen[extended % M.RING] := extended;
      received := received + 1;
      lastTimestamp, lastArrivalUs := timestamp, arrivalUs;
    }

    method Report(now: int) returns (packet: Bytes)
      requires Valid()
      modifies this
      ensures Valid() && packet == M.ReportBytes(old(Snapshot().counts), ssrc, M.JitterField(jitter),
              LastSenderReport(), now)
      ensures Snapshot() == M.State(M.Reported(old(Snapshot().counts)), old(Snapshot().seen))
      ensures ssrc == old(ssrc) && Clock() == old(Clock()) && LastSenderReport() == old(LastSenderReport())
    {
      hide PutBe24, M.FractionOf, M.Delay, M.Layout, M.JitterField;
      var expected := highest - base + 1;
      var intervalExpected, intervalReceived := expected - previousExpected, received - previousReceived;
      var lost := if expected > received then expected - received else 0;
      var intervalLost := if intervalExpected > intervalReceived then intervalExpected - intervalReceived else 0;
      previousExpected, previousReceived := expected, received;
      var clamped := if lost > M.MAX_LOST then M.MAX_LOST else lost;
      packet := M.Layout(ssrc, M.FractionOf(intervalLost, intervalExpected), PutBe24(clamped), highest % 0x1_0000_0000,
                         M.JitterField(jitter), srNtpMiddle, M.Delay(M.SenderReport(srNtpMiddle, srArrivalMs), now));
    }
  }
}
