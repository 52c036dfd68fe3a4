/** The DataChannel video depacketizer as a function of its state: a reorder buffer keyed by 16-bit frame
    sequence numbers with timeouts, memory bounds and IDR gating. The class DcVideoDepacketizer is proved to
    compute these functions; the theorems about runs are stated over them. */
module DcModel {
  import opened Wire
  import opened AnnexB

  const MAX_PENDING_FRAMES: nat := 32
  const MAX_PENDING_BYTES: nat := 2 * 1024 * 1024
  const HEADER_BYTES: nat := 12
  const MAX_PACKET_BYTES: nat := 1192
  const EXPIRE_US: nat := 60000
  const SKIP_US: nat := 10000
  const PLI_US: nat := 50000
  const RAISE_US: nat := 2000000
  const MIN_BITRATE: nat := 2000000
  const MAX_BITRATE: nat := 8000000

  datatype FrameRecord = Frame(timestamp: U32, count: Byte, stableFlags: nat, received: nat, bytes: nat,
                               arrival: int, chunks: seq<Bytes>)

  /** The chunk table is sized once, when the frame is created. */
  type Frame = f: FrameRecord | |f.chunks| == f.count witness Frame(0, 0, 0, 0, 0, 0, [])

  type Pending = map<U16, Frame>

  datatype Output = Output(data: Bytes, timestamp: U32)

  datatype Control = Pli | Bitrate(bps: int)

  /** A delivered unit with the frame number it was sent under. `period` counts initialisations and `position`
      is that number extended across wraps; neither influences any decision. */
  datatype Delivery = Delivery(out: Output, seqNo: U16, period: nat, position: nat)

  datatype Batch = Batch(frames: seq<Delivery>, controls: seq<Control>)

  datatype State = State(pending: Pending, bytes: int, expected: U16, initialized: bool, waiting: bool,
                         lastPli: int, lastIncrease: int, sps: Bytes, pps: Bytes, bitrate: int,
                         period: nat, position: nat)

  /** The state together with the batch being filled. */
  datatype Turn = Turn(s: State, b: Batch)

  const EMPTY_BATCH := Batch([], [])

  function Reset(s: State): State {
    State(map[], 0, 0, false, true, -1, -1, [], [], 3000000, s.period, s.position)
  }

  const INITIAL := State(map[], 0, 0, false, true, -1, -1, [], [], 3000000, 0, 0)

  // ---------------------------------------------------------------- sizes

  function SumBelow(m: Pending, n: nat): nat
    requires n <= 0x1_0000
  {
    if n == 0 then 0 else SumBelow(m, n - 1) + (if n - 1 in m then m[n - 1].bytes else 0)
  }

  function Total(m: Pending): nat {
    SumBelow(m, 0x1_0000)
  }

  // ---------------------------------------------------------------- recovery

  function Recover(t: Turn, now: int): (r: Turn)
    ensures r.s.pending == t.s.pending && r.s.expected == t.s.expected
  {
    if t.s.lastPli < 0 || now - t.s.lastPli >= PLI_US then
      var reduced := t.s.bitrate * 85 / 100;
      var rate := if reduced > MIN_BITRATE then reduced else MIN_BITRATE;
      Turn(t.s.(waiting := true, lastPli := now, lastIncrease := now, bitrate := rate),
           t.b.(controls := t.b.controls + [Pli, Bitrate(rate)]))
    else t.(s := t.s.(waiting := true))
  }

  function Erase(s: State, k: U16): State
    requires k in s.pending
  {
    s.(pending := s.pending - {k}, bytes := s.bytes - s.pending[k].bytes)
  }

  // ---------------------------------------------------------------- assembling one frame

  /** Annex-B first; four-byte length prefixes only when the whole frame parses that way. */
  function Units(raw: Bytes): Option<seq<Nal>> {
    if Split(raw).Some? then Split(raw) else SplitLengths(raw)
  }

  function LastOf(ns: seq<Nal>, t: int): Nal {
    if ns == [] then []
    else if ns[|ns| - 1] != [] && NalType(ns[|ns| - 1]) == t then ns[|ns| - 1]
    else LastOf(ns[..|ns| - 1], t)
  }

  /** The units forwarded from the sender: no delimiters, and no parameter sets beside an IDR. */
  predicate Kept(n: Nal, idr: bool) {
    n != [] && NalType(n) != 9 && !(idr && (NalType(n) == 7 || NalType(n) == 8))
  }

  function KeptUnits(ns: seq<Nal>, idr: bool): seq<Nal> {
    if ns == [] then []
    else KeptUnits(ns[..|ns| - 1], idr) + (if Kept(ns[|ns| - 1], idr) then [ns[|ns| - 1]] else [])
  }

  const AUD: Nal := [9, 0xf0]

  function AccessUnit(ns: seq<Nal>, idr: bool, sps: Nal, pps: Nal): seq<Nal> {
    [AUD] + (if idr then [sps, pps] else []) + KeptUnits(ns, idr)
  }

  datatype Assembly = Assembly(s: State, out: Option<Output>)

  function Assemble(s: State, f: Frame): (r: Assembly)
    ensures r.s.pending == s.pending && r.s.expected == s.expected
    ensures r.s.period == s.period && r.s.position == s.position
  {
    match Units(Concat(f.chunks))
    case None => Assembly(s, None)
    case Some(ns) =>
      var idr := HasType(ns, 5);
      var sps, pps := LastOf(ns, 7), LastOf(ns, 8);
      if (sps == []) != (pps == []) then Assembly(s.(sps := [], pps := []), None)
      else
        var s1 := if sps == [] then s else s.(sps := sps, pps := pps);
        if (f.stableFlags % 2 == 1 && !idr) || (s1.waiting && !idr) || (idr && (s1.sps == [] || s1.pps == []))
        then Assembly(s1, None)
        else Assembly(if idr then s1.(waiting := false) else s1,
                      Some(Output(Print(AccessUnit(ns, idr, s1.sps, s1.pps)), f.timestamp)))
  }

  // ---------------------------------------------------------------- draining

  predicate Expired(f: Frame, now: int) {
    now >= f.arrival && now - f.arrival >= EXPIRE_US
  }

  predicate Needed(s: State, k: U16) {
    !s.initialized || SequenceDelta(k, s.expected) >= 0
  }

  /** One visit of the expiry loop. */
  function ExpireKey(t: Turn, k: U16, now: int): Turn {
    if k in t.s.pending && Expired(t.s.pending[k], now) then
      var erased := t.(s := Erase(t.s, k));
      if Needed(t.s, k) then Recover(erased, now) else erased
    else t
  }

  function ExpireBelow(t: Turn, n: nat, now: int): Turn
    requires n <= 0x1_0000
  {
    if n == 0 then t else ExpireKey(ExpireBelow(t, n - 1, now), n - 1, now)
  }

  function Expire(t: Turn, now: int): Turn {
    ExpireBelow(t, 0x1_0000, now)
  }

  predicate Complete(f: Frame) {
    f.received == f.count
  }

  predicate Candidate(m: Pending, k: U16) {
    k in m && Complete(m[k]) && m[k].stableFlags % 2 == 1
  }

  /** The complete keyframe-flagged frame that arrived first; the smallest number wins a tie. */
  function FirstBelow(m: Pending, n: nat): (r: Option<U16>)
    requires n <= 0x1_0000
    ensures r.Some? ==> Candidate(m, r.value)
  {
    if n == 0 then None
    else
      var r := FirstBelow(m, n - 1);
      if Candidate(m, n - 1) && (r.None? || m[n - 1].arrival < m[r.value].arrival) then Some(n - 1) else r
  }

  function Initialize(s: State): State {
    if s.initialized then s
    else match FirstBelow(s.pending, 0x1_0000)
      case None => s
      case Some(k) => s.(expected := k, initialized := true, period := s.period + 1, position := k)
  }

  /** The pending frame closest ahead of `expected`. */
  function NearestBelow(m: Pending, expected: U16, n: nat): (r: Option<U16>)
    requires n <= 0x1_0000
    ensures r.Some? ==> r.value in m && SequenceDelta(r.value, expected) >= 0
  {
    if n == 0 then None
    else
      var r := NearestBelow(m, expected, n - 1);
      if n - 1 in m && SequenceDelta(n - 1, expected) >= 0
         && (r.None? || SequenceDelta(n - 1, expected) < SequenceDelta(r.value, expected)) then Some(n - 1) else r
  }

  function Nearest(s: State): (r: Option<U16>)
    ensures r.Some? ==> r.value in s.pending && SequenceDelta(r.value, s.expected) >= 0
  {
    NearestBelow(s.pending, s.expected, 0x1_0000)
  }

  function StepOver(s: State): (r: State)
    requires s.expected in s.pending
  {
    Erase(s, s.expected).(expected := (s.expected + 1) % 0x1_0000, position := s.position + 1)
  }

  /** The expected frame is complete: deliver it or recover, and move on. */
  function Consume(t: Turn, now: int): (r: Turn)
    requires t.s.expected in t.s.pending
    ensures r.s.pending == t.s.pending - {t.s.expected}
  {
    var a := Assemble(t.s, t.s.pending[t.s.expected]);
    var r := match a.out
             case Some(o) => Turn(a.s, t.b.(frames := t.b.frames
               + [Delivery(o, t.s.expected, t.s.period, t.s.position)]))
             case None => Recover(Turn(a.s, t.b), now);
    r.(s := StepOver(r.s))
  }

  /** The expected frame stayed incomplete too long. */
  function Abandon(t: Turn, now: int): (r: Turn)
    requires t.s.expected in t.s.pending
    ensures r.s.pending == t.s.pending - {t.s.expected}
  {
    Recover(t.(s := StepOver(t.s)), now)
  }

  /** The expected frame never came: continue at the nearest one that did. */
  function Jump(t: Turn, k: U16, now: int): (r: Turn)
    requires SequenceDelta(k, t.s.expected) >= 0
    ensures r.s.pending == t.s.pending && r.s.expected == k
  {
    Recover(t.(s := t.s.(expected := k, position := t.s.position + SequenceDelta(k, t.s.expected))), now)
  }

  function Advance(t: Turn, now: int): Turn
    decreases |t.s.pending|, if t.s.expected in t.s.pending then 0 else 1
  {
    hide Consume, Abandon, Jump, Nearest, Complete;
    var s := t.s;
    if s.pending == map[] then t
    else if s.expected in s.pending then
      ErasedIsSmaller(s.pending, s.expected);
      if Complete(s.pending[s.expected]) then Advance(Consume(t, now), now)
      else if now - s.pending[s.expected].arrival >= SKIP_US then Advance(Abandon(t, now), now)
      else t
    else match Nearest(s)
      case None => t
      case Some(k) => if now - s.pending[k].arrival < SKIP_US then t else Advance(Jump(t, k, now), now)
  }

  lemma ErasedIsSmaller(m: Pending, k: U16)
    requires k in m
    ensures |m - {k}| == |m| - 1
  {
    assert (m - {k}).Keys == m.Keys - {k};
    assert |(m - {k}).Keys| == |m - {k}| && |m.Keys| == |m|;
  }

  function TrimBelow(s: State, n: nat): State
    requires n <= 0x1_0000
  {
    if n == 0 then s
    else
      var r := TrimBelow(s, n - 1);
      if n - 1 in r.pending && SequenceDelta(n - 1, r.expected) < 0 then Erase(r, n - 1) else r
  }

  /** A delivered unit may raise the bitrate again, at most every two seconds. */
  function RaiseRate(t: Turn, now: int): Turn {
    if t.s.waiting || t.b.frames == [] then t
    else if t.s.lastIncrease < 0 then t.(s := t.s.(lastIncrease := now))
    else if now - t.s.lastIncrease >= RAISE_US then
      var rate := if t.s.bitrate + 300000 < MAX_BITRATE then t.s.bitrate + 300000 else MAX_BITRATE;
      Turn(t.s.(bitrate := rate, lastIncrease := now), t.b.(controls := t.b.controls + [Bitrate(rate)]))
    else t
  }

  function Drain(t: Turn, now: int): Turn {
    var e := Expire(t, now);
    var i := e.(s := Initialize(e.s));
    if !i.s.initialized then i
    else
      var a := Advance(i, now);
      RaiseRate(a.(s := TrimBelow(a.s, 0x1_0000)), now)
  }

  // ---------------------------------------------------------------- packets

  datatype Chunk = Chunk(stableFlags: nat, index: Byte, count: Byte, seqNo: U16, timestamp: U32, payload: Bytes)

  function Le16(lo: Byte, hi: Byte): U16 {
    Be16(hi, lo)
  }

  function Le32(a: Byte, b: Byte, c: Byte, d: Byte): U32 {
    Be32(d, c, b, a)
  }

  /** The 12-byte little-endian header; None for everything the receiver ignores. */
  function ParseChunk(p: Bytes): (r: Option<Chunk>)
    ensures r.Some? ==> r.value.index < r.value.count && r.value.payload != [] && r.value.stableFlags < 4
  {
    if |p| <= HEADER_BYTES || |p| > MAX_PACKET_BYTES then None
    else if Le16(p[0], p[1]) != 0x4b4d || p[3] != 1 || p[2] >= 16 || p[5] == 0 || p[4] >= p[5] then None
    else if ((p[2] / 4) % 2 == 1) != (p[4] == 0) || ((p[2] / 8) % 2 == 1) != (p[4] + 1 == p[5]) then None
    else Some(Chunk(p[2] % 4, p[4], p[5], Le16(p[6], p[7]), Le32(p[8], p[9], p[10], p[11]), p[12..]))
  }

  function EmptyTable(n: nat): (r: seq<Bytes>)
    ensures |r| == n
  {
    seq(n, _ => [])
  }

  function FreshFrame(c: Chunk, now: int): Frame {
    Frame(c.timestamp, c.count, c.stableFlags, 0, 0, now, EmptyTable(c.count))
  }

  function AddChunk(f: Frame, c: Chunk): Frame
    requires c.index < f.count
  {
    f.(chunks := f.chunks[c.index := c.payload], received := f.received + 1, bytes := f.bytes + |c.payload|)
  }

  predicate SameHeader(f: Frame, c: Chunk) {
    f.count == c.count && f.timestamp == c.timestamp && f.stableFlags == c.stableFlags
  }

  /** Puts the chunk into its frame; contradicting metadata or content discards the frame. */
  function Store(t: Turn, c: Chunk, now: int): Turn
    requires c.index < c.count
  {
    var f := if c.seqNo in t.s.pending then t.s.pending[c.seqNo] else FreshFrame(c, now);
    var s := t.s.(pending := t.s.pending[c.seqNo := f]);
    if !SameHeader(f, c) then Recover(t.(s := Erase(s, c.seqNo)), now)
    else if f.chunks[c.index] == [] then
      t.(s := s.(pending := s.pending[c.seqNo := AddChunk(f, c)], bytes := s.bytes + |c.payload|))
    else if f.chunks[c.index] != c.payload then Recover(t.(s := Erase(s, c.seqNo)), now)
    else t.(s := s)
  }

  predicate Overflows(s: State, c: Chunk) {
    (c.seqNo !in s.pending && |s.pending| >= MAX_PENDING_FRAMES) || s.bytes + |c.payload| > MAX_PENDING_BYTES
  }

  function Accept(t: Turn, c: Chunk, now: int): Turn
    requires c.index < c.count
  {
    if t.s.initialized && SequenceDelta(c.seqNo, t.s.expected) < 0 then t
    else if Overflows(t.s, c) then Recover(t.(s := t.s.(pending := map[], bytes := 0, initialized := false)), now)
    else Drain(Store(t, c, now), now)
  }

  function Process(s: State, p: Bytes, now: int): Turn {
    var c := ParseChunk(p);
    if now < 0 || c.None? then Turn(s, EMPTY_BATCH)
    else Accept(Drain(Turn(s, EMPTY_BATCH), now), c.value, now)
  }

  function Tick(s: State, now: int): Turn {
    if now < 0 then Turn(s, EMPTY_BATCH)
    else
      var t := Drain(Turn(s, EMPTY_BATCH), now);
      if t.s.waiting then Recover(t, now) else t
  }
}
