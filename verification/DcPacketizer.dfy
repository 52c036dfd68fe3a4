/** The browser's DataChannel packetizer: one access unit cut into numbered chunks behind 12-byte headers. */
module DcPacketizer {
  import opened Wire
  import opened DcModel

  const PAYLOAD_BYTES: nat := 1180
  const MAX_CHUNKS: nat := 255
  const MAX_AU_BYTES: nat := PAYLOAD_BYTES * MAX_CHUNKS
  const MAX_SAFE_INTEGER: int := 0x1F_FFFF_FFFF_FFFF

  datatype SendResult = Sent | TooLarge | Invalid | SendFailed

  function Count(data: Bytes): (n: nat)
    ensures |data| <= MAX_AU_BYTES ==> n <= MAX_CHUNKS
    ensures data != [] ==> 0 < n && (n - 1) * PAYLOAD_BYTES < |data| <= n * PAYLOAD_BYTES
  {
    (|data| + PAYLOAD_BYTES - 1) / PAYLOAD_BYTES
  }

  function Part(data: Bytes, i: nat): (part: Bytes)
    requires i < Count(data) && data != []
    ensures 0 < |part| <= PAYLOAD_BYTES
  {
    var end := if (i + 1) * PAYLOAD_BYTES < |data| then (i + 1) * PAYLOAD_BYTES else |data|;
    data[i * PAYLOAD_BYTES..end]
  }

  function Parts(data: Bytes): (parts: seq<Bytes>)
    requires data != []
    ensures |parts| == Count(data) && forall i :: 0 <= i < Count(data) ==> parts[i] == Part(data, i)
  {
    seq(Count(data), i requires 0 <= i < Count(data) => Part(data, i))
  }

  function PutLe16(v: U16): (r: Bytes)
    ensures |r| == 2
  {
    [v % 0x100, v / 0x100]
  }

  function PutLe32(v: U32): Bytes {
    PutLe16(v % 0x1_0000) + PutLe16(v / 0x1_0000)
  }

  function Flags(key: bool, index: nat, count: nat): Byte {
    (if key then 1 else 0) + (if index == 0 then 4 else 0) + (if index + 1 == count then 8 else 0)
  }

  function Header(key: bool, index: nat, count: nat, seqNo: int, timestampUs: int): (h: Bytes)
    requires index < count <= MAX_CHUNKS
    ensures |h| == HEADER_BYTES
  {
    PutLe16(0x4b4d) + [Flags(key, index, count), 1, index, count]
    + PutLe16(seqNo % 0x1_0000) + PutLe32(timestampUs % 0x1_0000_0000)
  }

  function PacketOf(data: Bytes, seqNo: int, timestampUs: int, key: bool, i: nat): Bytes
    requires 0 < |data| <= MAX_AU_BYTES && i < Count(data)
  {
    Header(key, i, Count(data), seqNo, timestampUs) + Part(data, i)
  }

  function Packets(data: Bytes, seqNo: int, timestampUs: int, key: bool): (ps: seq<Bytes>)
    requires 0 < |data| <= MAX_AU_BYTES
    ensures |ps| == Count(data) && forall i :: 0 <= i < |ps| ==> ps[i] == PacketOf(data, seqNo, timestampUs, key, i)
  {
    seq(Count(data), i requires 0 <= i < Count(data) => PacketOf(data, seqNo, timestampUs, key, i))
  }

  /** A JavaScript number as far as this code looks at it: an integer, or anything else (a
      fraction, an infinity, NaN). */
  datatype Number = Integral(v: int) | Other

  predicate SafeInteger(n: Number) {
    n.Integral? && -MAX_SAFE_INTEGER <= n.v <= MAX_SAFE_INTEGER
  }

  predicate Refused(data: Bytes, seqNo: Number, timestampUs: Number) {
    data == [] || !SafeInteger(timestampUs) || !seqNo.Integral?
  }

  /** `accepts` is how many sends the channel takes before one throws. */
  method SendAccessUnit(data: Bytes, seqNo: Number, timestampUs: Number, key: bool, accepts: nat)
    returns (result: SendResult, sent: seq<Bytes>)
    ensures result == TooLarge <==> |data| > MAX_AU_BYTES
    ensures result == Invalid <==> |data| <= MAX_AU_BYTES && Refused(data, seqNo, timestampUs)
    ensures result == Sent ==> Count(data) <= accepts && sent == Packets(data, seqNo.v, timestampUs.v, key)
    ensures result == SendFailed ==>
              accepts < Count(data) && sent == Packets(data, seqNo.v, timestampUs.v, key)[..accepts]
    ensures result in {TooLarge, Invalid} ==> sent == []
  {
    sent := [];
    if |data| > MAX_AU_BYTES { return TooLarge, sent; }
    if data == [] || !SafeInteger(timestampUs) || !seqNo.Integral? { return Invalid, sent; }
    hide Header, Part;
    var count := Count(data);
    ghost var all := Packets(data, seqNo.v, timestampUs.v, key);
    for i := 0 to count
      invariant |sent| == i <= accepts && sent == all[..i]
    {
      var buffer := Header(key, i, count, seqNo.v, timestampUs.v);
      buffer := buffer + Part(data, i);
      if i == accepts { return SendFailed, sent; }
      assert all[..i + 1] == all[..i] + [all[i]];
      sent := sent + [buffer];
    }
    return Sent, sent;
  }

  // ---------------------------------------------------------------- the receiver reads what the sender wrote

  lemma FlagsRead(key: bool, index: nat, count: nat)
    requires index < count <= MAX_CHUNKS
    ensures var f := Flags(key, index, count);
            && f < 16 && f % 4 == (if key then 1 else 0)
            && ((f / 4) % 2 == 1 <==> index == 0) && ((f / 8) % 2 == 1 <==> index + 1 == count)
  {
  }

  lemma Le16Read(v: U16)
    ensures Le16(PutLe16(v)[0], PutLe16(v)[1]) == v
  {
  }

  lemma Le32Read(v: U32)
    ensures var b := PutLe32(v);
            |b| == 4 && Le32(b[0], b[1], b[2], b[3]) == v
  {
    hide PutLe16;
    var lo, hi, b := v % 0x1_0000, v / 0x1_0000, PutLe32(v);
    Le16Read(lo);
    Le16Read(hi);
    assert b[0] == PutLe16(lo)[0] && b[1] == PutLe16(lo)[1] && b[2] == PutLe16(hi)[0] && b[3] == PutLe16(hi)[1];
  }

  /** Each packet parses to its part of the unit with the truncated number and time. */
  lemma PacketParses(data: Bytes, seqNo: int, timestampUs: int, key: bool, i: nat)
    requires 0 < |data| <= MAX_AU_BYTES && i < Count(data)
    ensures ParseChunk(PacketOf(data, seqNo, timestampUs, key, i)) ==
            Some(Chunk(if key then 1 else 0, i, Count(data), seqNo % 0x1_0000, timestampUs % 0x1_0000_0000,
              Part(data, i)))
  {
    hide Le16, Le32, PutLe16, PutLe32, Flags, Part, Count;
    var p := PacketOf(data, seqNo, timestampUs, key, i);
    var h := Header(key, i, Count(data), seqNo, timestampUs);
    assert p[..12] == h && p[12..] == Part(data, i);
    HeaderReads(key, i, Count(data), seqNo, timestampUs);
    FlagsRead(key, i, Count(data));
  }

  lemma HeaderReads(key: bool, index: nat, count: nat, seqNo: int, timestampUs: int)
    requires index < count <= MAX_CHUNKS
    ensures var h := Header(key, index, count, seqNo, timestampUs);
            && Le16(h[0], h[1]) == 0x4b4d && h[2] == Flags(key, index, count)
            && h[3] == 1 && h[4] == index && h[5] == count
            && Le16(h[6], h[7]) == seqNo % 0x1_0000
            && Le32(h[8], h[9], h[10], h[11]) == timestampUs % 0x1_0000_0000
  {
    hide Le16, Le32, Flags, Be16;
    var sn, ts := PutLe16(seqNo % 0x1_0000), PutLe32(timestampUs % 0x1_0000_0000);
    Le16Read(0x4b4d);
    Le16Read(seqNo % 0x1_0000);
    Le32Read(timestampUs % 0x1_0000_0000);
    var h := Header(key, index, count, seqNo, timestampUs);
    assert h[6..8] == sn && h[8..12] == ts;
    assert h[6] == sn[0] && h[7] == sn[1];
    assert h[8] == ts[0] && h[9] == ts[1] && h[10] == ts[2] && h[11] == ts[3];
  }

  lemma {:induction false} PartsPrefix(data: Bytes, n: nat)
    requires data != [] && n <= Count(data)
    ensures Concat(Parts(data)[..n]) == data[..if n * PAYLOAD_BYTES < |data| then n * PAYLOAD_BYTES else |data|]
  {
    if n > 0 {
      PartsPrefix(data, n - 1);
      ConcatSnoc(Parts(data)[..n - 1], Part(data, n - 1));
      assert Parts(data)[..n] == Parts(data)[..n - 1] + [Part(data, n - 1)];
    }
  }

  /** The parts put together are the access unit. */
  lemma PartsAreTheUnit(data: Bytes)
    requires data != []
    ensures Concat(Parts(data)) == data
  {
    PartsPrefix(data, Count(data));
    assert Parts(data)[..Count(data)] == Parts(data);
  }

  // ---------------------------------------------------------------- and reads nothing else

  /** The header and payload of a chunk with any two low flag bits, as the wire format has them. */
  function Printed(c: Chunk): Bytes
    requires Printable(c)
  {
    PutLe16(0x4b4d) + [Bits(c.stableFlags, c.index, c.count), 1, c.index, c.count] + PutLe16(c.seqNo)
    + PutLe32(c.timestamp) + c.payload
  }

  /** The low bits as they are, bit 2 for the first chunk of a unit, bit 3 for its last. */
  function Bits(stable: nat, index: nat, count: nat): Byte
    requires stable < 4
  {
    stable + (if index == 0 then 4 else 0) + (if index + 1 == count then 8 else 0)
  }

  predicate Printable(c: Chunk) {
    c.stableFlags < 4 && c.index < c.count && 0 < |c.payload| <= PAYLOAD_BYTES
  }

  lemma BitsRead(flags: Byte, stable: nat, index: nat, count: nat)
    requires stable < 4 && index < count
    ensures flags == Bits(stable, index, count)
            <==> flags < 16 && flags % 4 == stable && ((flags / 4) % 2 == 1 <==> index == 0)
                 && ((flags / 8) % 2 == 1 <==> index + 1 == count)
  {
  }

  lemma Le16Back(a: Byte, b: Byte)
    ensures PutLe16(Le16(a, b)) == [a, b]
  {
  }

  lemma Le32Back(a: Byte, b: Byte, c: Byte, d: Byte)
    ensures PutLe32(Le32(a, b, c, d)) == [a, b, c, d]
  {
    hide Le16, PutLe16;
    HalvesOf(a, b, c, d);
    Le16Back(a, b);
    Le16Back(c, d);
  }

  lemma HalvesOf(a: Byte, b: Byte, c: Byte, d: Byte)
    ensures Le32(a, b, c, d) % 0x1_0000 == Le16(a, b) && Le32(a, b, c, d) / 0x1_0000 == Le16(c, d)
  {
    assert Le32(a, b, c, d) == Le16(c, d) * 0x1_0000 + Le16(a, b);
    hide Le16, Le32;
    Halves(Le16(c, d), Le16(a, b));
  }

  lemma Halves(high: U16, low: U16)
    ensures (high * 0x1_0000 + low) % 0x1_0000 == low && (high * 0x1_0000 + low) / 0x1_0000 == high
  {
  }

  lemma PrintedReads(c: Chunk)
    requires Printable(c)
    ensures ParseChunk(Printed(c)) == Some(c)
  {
    hide Le16, Le32, PutLe16, PutLe32, Bits, Be16;
    var p := Printed(c);
    var m, sn, ts := PutLe16(0x4b4d), PutLe16(c.seqNo), PutLe32(c.timestamp);
    Le16Read(0x4b4d);
    Le16Read(c.seqNo);
    Le32Read(c.timestamp);
    BitsRead(p[2], c.stableFlags, c.index, c.count);
    assert p[0] == m[0] && p[1] == m[1] && p[6] == sn[0] && p[7] == sn[1];
    assert p[8] == ts[0] && p[9] == ts[1] && p[10] == ts[2] && p[11] == ts[3];
    assert p[12..] == c.payload;
  }

  lemma ReadIsPrinted(p: Bytes)
    requires ParseChunk(p).Some?
    ensures Printable(ParseChunk(p).value) && p == Printed(ParseChunk(p).value)
  {
    hide Le16, Le32, PutLe16, PutLe32, Bits, Be16;
    var c := ParseChunk(p).value;
    Le16Back(p[0], p[1]);
    Le16Back(p[6], p[7]);
    Le32Back(p[8], p[9], p[10], p[11]);
    BitsRead(p[2], c.stableFlags, c.index, c.count);
    assert p == [p[0], p[1]] + [p[2], p[3], p[4], p[5]] + [p[6], p[7]] + [p[8], p[9], p[10], p[11]] + p[12..];
  }

  /** The receiver reads exactly the packets of this format: its magic, type, chunk place and flags that agree with it,
      and a payload of 1 to 1180 bytes. */
  lemma ReadsTheFormat(p: Bytes, c: Chunk)
    ensures ParseChunk(p) == Some(c) <==> Printable(c) && p == Printed(c)
  {
    hide ParseChunk, Printed;
    if ParseChunk(p).Some? { ReadIsPrinted(p); }
    if Printable(c) && p == Printed(c) { PrintedReads(c); }
  }
}
