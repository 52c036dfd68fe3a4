/** Reading back a receiver report, from RFC 3550, section 6.4.2. */
module RtcpReport {
  import opened Wire
  import opened RtcpModel
  import opened RtcpLaws

  datatype Block = Block(sender: U32, ssrc: U32, fraction: Byte, lost: int, highest: U32, jitter: U32, lastSr: U32,
    delay: U32)

  function Signed24(v: int): int {
    if v < 0x80_0000 then v else v - 0x100_0000
  }

  function ReadReport(b: Bytes): Option<Block> {
    hide *;
    if |b| != 32 || b[0] != 0x81 || b[1] != 201 || (Be16(b[2], b[3]) + 1) * 4 != 32 then None
    else Some(Block(Be32(b[4], b[5], b[6], b[7]), Be32(b[8], b[9], b[10], b[11]), b[12],
                    Signed24(Be24(b[13], b[14], b[15])),
                    Be32(b[16], b[17], b[18], b[19]), Be32(b[20], b[21], b[22], b[23]),
                    Be32(b[24], b[25], b[26], b[27]), Be32(b[28], b[29], b[30], b[31])))
  }

  lemma LostReads(v: int)
    requires 0 <= v <= MAX_LOST
    ensures var p := PutBe24(v); Signed24(Be24(p[0], p[1], p[2])) == v
  {
    hide Be24, PutBe24;
    Put24Back(v);
  }

  lemma BytesRead(ssrc: U32, fraction: Byte, lost: Bytes, highest: U32, jitter: U32, lastSr: U32, delay: U32)
    requires |lost| == 3
    ensures ReadReport(Layout(ssrc, fraction, lost, highest, jitter, lastSr, delay))
            == Some(Block(1, ssrc, fraction, Signed24(Be24(lost[0], lost[1], lost[2])), highest, jitter, lastSr, delay))
  {
    hide Be32, PutBe32, Be24, Signed24;
    var one, s, h, j, l, d := PutBe32(1), PutBe32(ssrc), PutBe32(highest), PutBe32(jitter), PutBe32(lastSr),
      PutBe32(delay);
    var b := Layout(ssrc, fraction, lost, highest, jitter, lastSr, delay);
    assert b == [0x81, 201, 0, 7] + one + s + [fraction] + lost + h + j + l + d;
    assert b[4] == one[0] && b[5] == one[1] && b[6] == one[2] && b[7] == one[3];
    assert b[8] == s[0] && b[9] == s[1] && b[10] == s[2] && b[11] == s[3];
    assert b[12] == fraction && b[13] == lost[0] && b[14] == lost[1] && b[15] == lost[2];
    assert b[16] == h[0] && b[17] == h[1] && b[18] == h[2] && b[19] == h[3];
    assert b[20] == j[0] && b[21] == j[1] && b[22] == j[2] && b[23] == j[3];
    assert b[24] == l[0] && b[25] == l[1] && b[26] == l[2] && b[27] == l[3];
    assert b[28] == d[0] && b[29] == d[1] && b[30] == d[2] && b[31] == d[3];
  }

  /** The block a report should hold when `heard` distinct packets were received. */
  function Due(c: Counts, heard: int, ssrc: U32, jitter: U32, sr: SenderReport, now: int): Block
    requires Sane(c)
  {
    hide Fraction, Delay;
    var total := Expected(c) - heard;
    Block(1, ssrc, Fraction(IntervalOf(c)), if total > MAX_LOST then MAX_LOST else total, c.highest % 0x1_0000_0000,
      jitter,
          sr.ntpMiddle, Delay(sr, now))
  }

  lemma LostIsCapped(c: Counts)
    ensures 0 <= CappedLost(c) <= MAX_LOST && CappedLost(c) == if Lost(c) > MAX_LOST then MAX_LOST else Lost(c)
  {
  }

  lemma ReportOf(c: Counts, heard: int, ssrc: U32, jitter: U32, sr: SenderReport, now: int)
    requires Sane(c) && Lost(c) == Expected(c) - heard
    ensures ReadReport(ReportBytes(c, ssrc, jitter, sr, now)) == Some(Due(c, heard, ssrc, jitter, sr, now))
  {
    hide PutBe24, Delay, Fraction, ReadReport, Layout, Lost;
    BytesRead(ssrc, Fraction(IntervalOf(c)), PutBe24(CappedLost(c)), c.highest % 0x1_0000_0000, jitter, sr.ntpMiddle,
      Delay(sr, now));
    LostIsCapped(c);
    LostReads(CappedLost(c));
  }

  /** What a sender reads in the report made after any run: the loss since the first packet, counted over distinct
      packets and capped at 2^23 - 1, the highest number, and the loss of the last interval in 256ths. */
  lemma ReportReads(events: seq<Event>, ssrc: U32, jitter: U32, sr: SenderReport, now: int)
    requires Run(events).s.counts.started
    ensures Sane(Run(events).s.counts)
    ensures ReadReport(ReportBytes(Run(events).s.counts, ssrc, jitter, sr, now))
            == Some(Due(Run(events).s.counts, |IdealRun(events).accepted|, ssrc, jitter, sr, now))
    ensures |IdealRun(events).accepted| <= Expected(Run(events).s.counts)
  {
    hide Run, IdealRun, RingHolds, ReadReport, ReportBytes, Due;
    RingIsTheSet(events);
    NeverOvercounts(IdealRun(events));
    ReportOf(Run(events).s.counts, |IdealRun(events).accepted|, ssrc, jitter, sr, now);
  }

  /** The fraction is the lost part of the interval, rounded down to 256ths, 255 standing for all of it. */
  lemma FractionIs(i: Interval)
    requires i.expected > 0 && 0 <= i.received
    ensures i.received >= i.expected ==> Fraction(i) == 0
    ensures 0 < i.received < i.expected ==>
              Fraction(i) * i.expected <= 256 * (i.expected - i.received) < (Fraction(i) + 1) * i.expected
    ensures i.received == 0 ==> Fraction(i) == 255
  {
    if i.received < i.expected {
      FractionBetween(i.expected - i.received, i.expected);
    }
  }

  lemma FractionBetween(lost: int, expected: int)
    requires 0 < lost <= expected
    ensures lost < expected ==>
              FractionOf(lost, expected) * expected <= 256 * lost < (FractionOf(lost, expected) + 1) * expected
    ensures lost == expected ==> FractionOf(lost, expected) == 255
  {
    var q := lost * 256 / expected;
    assert q * expected <= 256 * lost < (q + 1) * expected;
    if lost == expected {
      QuotientAtLeast(256 * lost, expected, 256, q);
    } else {
      QuotientBelow(256 * lost, expected, 256, q);
    }
  }

  lemma QuotientAtLeast(v: int, d: int, k: int, q: int)
    requires d > 0 && v >= k * d && v < (q + 1) * d
    ensures q >= k
  {
    assert q + 1 <= k ==> (q + 1) * d <= k * d;
  }

  lemma QuotientBelow(v: int, d: int, k: int, q: int)
    requires d > 0 && v < k * d && q * d <= v
    ensures q < k
  {
    assert q >= k ==> q * d >= k * d;
  }

  /** The delay since the last sender report is its age rounded down to 65536ths of a second; 2^32 - 1 stands for more,
      and 0 for a report that never came or lies ahead. */
  lemma DelayIs(sr: SenderReport, now: int)
    ensures var d, ms := Delay(sr, now), now - sr.arrivalMs;
            if sr.arrivalMs < 0 || ms < 0 then d == 0
            else d <= U32_MAX && 1000 * d <= 65536 * ms && (d < U32_MAX ==> 65536 * ms < 1000 * (d + 1))
  {
  }
}
