/** The RTP H.264 depacketizer as a function of its state (RFC 6184: single NAL units, STAP-A, FU-A). The class
    H264RtpDepacketizer is proved to compute these functions. */
module RtpModel {
  import opened Wire
  import opened AnnexB
  import opened RtpWire

  const MAX_PARAMETER_SET: nat := 65536

  datatype Out = Deliver(data: Bytes, timestamp: U32) | RequestKeyframe

  /** What payloads are collected into: the access unit, the open fragmented unit, the stored parameter sets, and
      what the access unit holds so far. */
  datatype Content = Content(au: Bytes, fu: Bytes, fuHeader: Byte, sps: Bytes, pps: Bytes,
                             idr: bool, vcl: bool, hasSps: bool, hasPps: bool)

  /** The content, the packet bookkeeping and the recovery flags. */
  datatype State = State(c: Content, timestamp: U32, ssrc: U32, sequence: U16,
                         haveSsrc: bool, haveSequence: bool, haveTimestamp: bool, waiting: bool, damaged: bool)

  /** The state and the callbacks made so far. */
  datatype Turn = Turn(s: State, outs: seq<Out>)

  const INITIAL := State(Content([], [], 0, [], [], false, false, false, false), 0, 0, 0, false, false, false, true,
    false)

  function ClearFlags(c: Content): Content {
    c.(idr := false, vcl := false, hasSps := false, hasPps := false)
  }

  function ClearAu(s: State): State {
    s.(c := ClearFlags(s.c.(au := [], fu := [])), damaged := false)
  }

  function Reset(s: State): State {
    var r := ClearAu(s);
    r.(c := r.c.(sps := [], pps := []), waiting := true, haveSsrc := false, haveSequence := false,
      haveTimestamp := false)
  }

  function Lose(t: Turn): Turn {
    Turn(t.s.(c := t.s.c.(au := [], fu := []), damaged := true, waiting := true), t.outs + [RequestKeyframe])
  }

  /** The content after offering a unit or a payload, and whether it was taken. */
  datatype Taken = Taken(c: Content, ok: bool)

  predicate Fits(c: Content, n: Nal) {
    && ValidNalu(n) && |n| <= MAX_ACCESS_UNIT_BYTES - 4 && |c.au| <= MAX_ACCESS_UNIT_BYTES - |n| - 4
    && (NalType(n) in {7, 8} ==> |n| <= MAX_PARAMETER_SET)
  }

  /** A parameter set replaces the stored one; a different SPS also forgets the stored PPS. */
  function Remember(c: Content, n: Nal): (r: Content)
    requires n != []
  {
    if NalType(n) == 7 then c.(pps := if c.sps != n then [] else c.pps, sps := n, hasSps := true)
    else if NalType(n) == 8 then c.(pps := n, hasPps := true)
    else c
  }

  /** The unit behind the others, and what it makes of the access unit. */
  function Extend(c: Content, n: Nal): Content
    requires n != []
  {
    c.(au := c.au + Unit(n), idr := c.idr || NalType(n) == 5, vcl := c.vcl || 1 <= NalType(n) <= 5)
  }

  function AppendNalu(c: Content, n: Nal): Taken {
    if Fits(c, n) then Taken(Extend(Remember(c, n), n), true) else Taken(c, false)
  }

  /** The parameter sets an IDR is still missing. */
  function Missing(c: Content): Bytes {
    (if c.hasSps then [] else Unit(c.sps)) + (if c.hasPps then [] else Unit(c.pps))
  }

  predicate Good(s: State) {
    !s.damaged && s.c.fu == [] && s.c.vcl && (!s.waiting || s.c.idr) && (!s.c.idr || (s.c.sps != [] && s.c.pps != []))
  }

  /** The end of an access unit. */
  function Emit(t: Turn): Turn {
    var s := t.s;
    if Good(s) then
      var prefix := if s.c.idr then Missing(s.c) else [];
      var fits := |s.c.au| + |prefix| <= MAX_ACCESS_UNIT_BYTES;
      var waiting := (s.waiting && !s.c.idr) || !fits;
      var output := if fits then prefix + s.c.au else [];
      var r := ClearAu(s).(waiting := waiting);
      if output != [] then Turn(r, t.outs + [Deliver(output, s.timestamp)])
      else if waiting then Turn(r, t.outs + [RequestKeyframe]) else Turn(r, t.outs)
    else
      var waiting := s.waiting || s.c.vcl || s.c.fu != [];
      Turn(ClearAu(s).(waiting := waiting), if waiting then t.outs + [RequestKeyframe] else t.outs)
  }

  // ---------------------------------------------------------------- payload structures

  /** The units of a STAP-A body, of which `found` were already read (RFC 6184 section 5.7.1). */
  function StapUnits(b: Bytes, found: nat): Option<seq<Nal>>
    decreases |b|
  {
    if b == [] then Some([])
    else if |b| < 2 then None
    else
      var length := Be16(b[0], b[1]);
      if length == 0 || length > |b| - 2 || found >= MAX_NALUS || !ValidNalu(b[2..2 + length]) then None
      else After([b[2..2 + length]], StapUnits(b[2 + length..], found + 1))
  }

  function TotalSize(ns: seq<Nal>): nat {
    if ns == [] then 0 else TotalSize(ns[..|ns| - 1]) + |ns[|ns| - 1]| + 4
  }

  function AppendAll(c: Content, ns: seq<Nal>): Taken
    decreases |ns|
  {
    if ns == [] then Taken(c, true)
    else
      var r := AppendAll(c, ns[..|ns| - 1]);
      if r.ok then AppendNalu(r.c, ns[|ns| - 1]) else r
  }

  function TakeStap(c: Content, p: Bytes): Taken
    requires p != []
  {
    match StapUnits(p[1..], 0)
    case None => Taken(c, false)
    case Some(ns) =>
      if c.fu != [] || ns == [] || TotalSize(ns) > MAX_ACCESS_UNIT_BYTES - |c.au| then Taken(c, false)
        else AppendAll(c, ns)
  }

  predicate FragmentOk(p: Bytes) {
    |p| >= 3 && (p[1] / 32) % 2 == 0 && 1 <= p[1] % 32 <= 23 && p[1] < 192
  }

  /** The header of the fragmented unit. */
  function FragmentHeader(p: Bytes): Byte
    requires |p| >= 2
  {
    (p[0] / 32) * 32 + p[1] % 32
  }

  /** The start bit opens a unit; without it the fragment must continue the open one. */
  function OpenFragment(c: Content, first: bool, header: Byte): Taken {
    if first then (if c.fu != [] then Taken(c, false) else Taken(c.(fuHeader := header, fu := [header]), true))
    else Taken(c, c.fu != [] && c.fuHeader == header)
  }

  function ExtendFragment(c: Content, part: Bytes, last: bool): Taken {
    if |c.au| + 4 + |part| + |c.fu| > MAX_ACCESS_UNIT_BYTES then Taken(c, false)
    else
      var g := c.(fu := c.fu + part);
      if !last then Taken(g, true)
      else
        var r := AppendNalu(g, g.fu);
        Taken(r.c.(fu := []), r.ok)
  }

  /** One fragment of a unit (RFC 6184 section 5.8). */
  function TakeFragment(c: Content, p: Bytes): Taken
    requires p != []
  {
    if !FragmentOk(p) then Taken(c, false)
    else
      var o := OpenFragment(c, p[1] >= 128, FragmentHeader(p));
      if o.ok then ExtendFragment(o.c, p[2..], (p[1] / 64) % 2 == 1) else o
  }

  function TakePayload(c: Content, p: Bytes): Taken
    requires p != []
  {
    if 1 <= p[0] % 32 <= 23 then (if c.fu == [] then AppendNalu(c, p) else Taken(c, false))
    else if p[0] % 32 == 24 then TakeStap(c, p)
    else if p[0] % 32 == 28 then TakeFragment(c, p)
    else Taken(c, false)
  }

  // ---------------------------------------------------------------- packets

  predicate NewSource(s: State, p: RtpPacket) {
    s.haveSsrc && s.ssrc != p.ssrc
  }

  predicate Stale(s: State, p: RtpPacket) {
    !NewSource(s, p) && s.haveSequence && SequenceDelta(p.sequence, s.sequence) <= 0
  }

  /** A packet from another source forgets everything. */
  function SwitchSource(s: State, p: RtpPacket): State {
    (if NewSource(s, p) then Reset(s) else s).(haveSsrc := true, ssrc := p.ssrc)
  }

  /** A new timestamp ends the access unit before it, marker or not. */
  function Boundary(t: Turn, p: RtpPacket, gap: bool): Turn {
    var e := if t.s.haveTimestamp && p.timestamp != t.s.timestamp
             then Emit(if gap || t.s.c.fu != [] then Lose(t) else t) else t;
    e.(s := e.s.(timestamp := p.timestamp, haveTimestamp := true))
  }

  /** Everything before the payload: source change, sequence gap, access-unit boundary. */
  function Enter(s: State, p: RtpPacket): Turn
    requires !Stale(s, p)
  {
    var a := SwitchSource(s, p);
    var gap := a.haveSequence && SequenceDelta(p.sequence, a.sequence) != 1;
    var d := Boundary(Turn(a.(sequence := p.sequence, haveSequence := true), []), p, gap);
    if gap then Lose(d) else d
  }

  function Finish(t: Turn, p: RtpPacket): Turn {
    if p.marker then var e := Emit(t); e.(s := e.s.(haveTimestamp := false)) else t
  }

  function Process(s: State, bytes: Bytes): Turn {
    match ParseRtp(bytes)
    case None => Lose(Turn(s, []))
    case Some(p) =>
      if Stale(s, p) then Turn(s.(haveSsrc := true, ssrc := p.ssrc), [])
      else
        var t := Enter(s, p);
        if t.s.damaged then
          if p.marker then t.(s := ClearAu(t.s).(haveTimestamp := false)) else t
        else if p.payload[0] >= 128 then Lose(t)
        else
          var r := TakePayload(t.s.c, p.payload);
          var u := t.(s := t.s.(c := r.c));
          Finish(if r.ok then u else Lose(u), p)
  }
}
