/** Transport-wide congestion-control feedback as a function of the receiver's state
    (draft-holmer-rmcat-transport-wide-cc-extensions-01, section 3.1). */
module TwccModel {
  import opened Wire

  const RING: nat := 2048
  const TICK_US: int := 250
  const REFERENCE_US: int := 64000
  const MAX_REPORTED: nat := 512

  datatype Record = Record(arrivalUs: int, size: U16, received: bool)

  const EMPTY := Record(0, 0, false)

  datatype Pending = Pending(base: U16, end: U16, some: bool)

  type Ring = r: seq<Record> | |r| == RING witness seq(RING, _ => EMPTY)

  datatype State = State(records: Ring, pending: Pending, fbCount: Byte)

  const INITIAL := State(seq(RING, _ => EMPTY), Pending(0, 0, false), 0)

  // ---------------------------------------------------------------- recording

  function Widen(p: Pending, n: U16): Pending {
    if !p.some then Pending(n, (n + 1) % 0x1_0000, true)
    else Pending(if SequenceDelta(n, p.base) < 0 then n else p.base,
                 if SequenceDelta(n, p.end) >= 0 then (n + 1) % 0x1_0000 else p.end, true)
  }

  function OnPacket(s: State, n: U16, arrivalUs: int, size: U16): State {
    State(s.records[n % RING := Record(arrivalUs, size, true)], Widen(s.pending, n), s.fbCount)
  }

  // ---------------------------------------------------------------- statuses

  /** 0 not received, 1 a delta of one byte, 2 a delta of two bytes; deltas in ticks. */
  datatype Status = Status(kind: int, ticks: int)

  function Count(p: Pending): nat {
    var n := (p.end - p.base) % 0x1_0000;
    if n > MAX_REPORTED then MAX_REPORTED else n
  }

  function Slot(p: Pending, i: nat): (j: nat)
    ensures j < RING
  {
    ((p.base + i) % 0x1_0000) % RING
  }

  /** The records being reported, oldest number first. */
  function Window(s: State): (w: seq<Record>)
    ensures |w| == Count(s.pending)
    ensures forall i :: 0 <= i < |w| ==> w[i] == s.records[Slot(s.pending, i)]
  {
    seq(Count(s.pending), i requires 0 <= i < Count(s.pending) => s.records[Slot(s.pending, i)])
  }

  /** Arrival of the last received record. */
  function LastArrival(w: seq<Record>): Option<int> {
    if w == [] then None
    else if w[|w| - 1].received then Some(w[|w| - 1].arrivalUs)
    else LastArrival(w[..|w| - 1])
  }

  function ReferenceOf(arrivalUs: int): int {
    TruncDiv(arrivalUs, REFERENCE_US)
  }

  /** Arrival of the first received record, in units of 64 ms. */
  function Reference(w: seq<Record>): Option<int> {
    if w == [] then None
    else match Reference(w[..|w| - 1])
      case Some(r) => Some(r)
      case None => if w[|w| - 1].received then Some(ReferenceOf(w[|w| - 1].arrivalUs)) else None
  }

  function Clamp(ticks: int): int {
    if ticks < -32768 then -32768 else if ticks > 32767 then 32767 else ticks
  }

  function StatusOf(ticks: int): Status {
    if 0 <= ticks <= 255 then Status(1, ticks) else Status(2, Clamp(ticks))
  }

  /** Ticks since the reception before, or since the reference time for the first one. */
  function TicksAfter(earlier: seq<Record>, arrivalUs: int): int {
    match LastArrival(earlier)
    case None => TruncDiv(arrivalUs - ReferenceOf(arrivalUs) * REFERENCE_US, TICK_US)
    case Some(prev) => TruncDiv(arrivalUs - prev, TICK_US)
  }

  function StatusAfter(earlier: seq<Record>, r: Record): Status {
    if r.received then StatusOf(TicksAfter(earlier, r.arrivalUs)) else Status(0, 0)
  }

  function Statuses(w: seq<Record>): (ss: seq<Status>)
    ensures |ss| == |w|
  {
    if w == [] then [] else Statuses(w[..|w| - 1]) + [StatusAfter(w[..|w| - 1], w[|w| - 1])]
  }

  // ---------------------------------------------------------------- chunks and deltas

  /** How many statuses from the front are of the same kind, at most 8191. */
  function RunOf(ss: seq<Status>, kind: int, room: nat): (n: nat)
    ensures n <= |ss| && n <= room
    ensures forall i :: 0 <= i < n ==> ss[i].kind == kind
    decreases |ss|
  {
    if ss == [] || ss[0].kind != kind || room == 0 then 0 else 1 + RunOf(ss[1..], kind, room - 1)
  }

  function Run(ss: seq<Status>): (n: nat)
    requires ss != []
    ensures 1 <= n <= |ss| && n <= 8191
  {
    1 + RunOf(ss[1..], ss[0].kind, 8190)
  }

  function Symbol(ss: seq<Status>, j: nat): int {
    if j < |ss| then ss[j].kind else 0
  }

  function RunChunk(kind: int, n: nat): int {
    kind * 8192 + n
  }

  function VectorChunk(ss: seq<Status>): int {
    0xC000 + Symbol(ss, 0) * 4096 + Symbol(ss, 1) * 1024 + Symbol(ss, 2) * 256 + Symbol(ss, 3) * 64
    + Symbol(ss, 4) * 16 + Symbol(ss, 5) * 4 + Symbol(ss, 6)
  }

  /** How many statuses the next chunk covers. */
  function Covered(ss: seq<Status>): (n: nat)
    requires ss != []
    ensures 1 <= n <= |ss|
  {
    if Run(ss) >= 7 then Run(ss) else if |ss| < 7 then |ss| else 7
  }

  function NextChunk(ss: seq<Status>): int
    requires ss != []
  {
    if Run(ss) >= 7 then RunChunk(ss[0].kind, Run(ss)) else VectorChunk(ss)
  }

  function Chunks(ss: seq<Status>): seq<int>
    decreases |ss|
  {
    if ss == [] then [] else [NextChunk(ss)] + Chunks(ss[Covered(ss)..])
  }

  function DeltaBytes(s: Status): Bytes {
    if s.kind == 1 then [s.ticks % 0x100]
    else if s.kind == 2 then PutBe16(s.ticks % 0x1_0000)
    else []
  }

  function Deltas(ss: seq<Status>): Bytes {
    if ss == [] then [] else DeltaBytes(ss[0]) + Deltas(ss[1..])
  }

  function ChunkBytes(cs: seq<int>): Bytes {
    if cs == [] then [] else PutBe16(cs[0] % 0x1_0000) + ChunkBytes(cs[1..])
  }

  // ---------------------------------------------------------------- the packet

  function Padding(n: nat): nat {
    (4 - n % 4) % 4
  }

  function Head(senderSsrc: U32, mediaSsrc: U32, base: U16, count: U16, reference: int, fbCount: Byte,
                words: int): Bytes {
    [0x8f, 205] + PutBe16(words % 0x1_0000) + PutBe32(senderSsrc) + PutBe32(mediaSsrc)
    + PutBe16(base) + PutBe16(count) + PutBe24(reference % 0x100_0000) + [fbCount]
  }

  function Packet(s: State, senderSsrc: U32, mediaSsrc: U32, reference: int): Bytes {
    var ss := Statuses(Window(s));
    var body := ChunkBytes(Chunks(ss)) + Deltas(ss);
    var pad := Padding(|body|);
    Head(senderSsrc, mediaSsrc, s.pending.base, Count(s.pending), reference, s.fbCount, (20 + |body| + pad) / 4 - 1)
      + body + Zeros(pad)
  }

  /** The first `n` reported records forgotten. */
  function Cleared(s: State, n: nat): Ring {
    if n == 0 then s.records else Cleared(s, n - 1)[Slot(s.pending, n - 1) := EMPTY]
  }

  function Advance(s: State): State {
    var base := (s.pending.base + Count(s.pending)) % 0x1_0000;
    State(Cleared(s, Count(s.pending)), Pending(base, s.pending.end, base != s.pending.end), (s.fbCount + 1) % 0x100)
  }

  datatype Built = Built(s: State, packet: Bytes)

  function Build(s: State, senderSsrc: U32, mediaSsrc: U32): Built {
    if !s.pending.some then Built(s, [])
    else match Reference(Window(s))
      case None => Built(s, [])
      case Some(reference) => Built(Advance(s), Packet(s, senderSsrc, mediaSsrc, reference))
  }
}
