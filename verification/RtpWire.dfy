/** The RTP fixed header, header extension and padding (RFC 3550 sections 5.1 and 5.3.1). */
module RtpWire {
  import opened Wire

  datatype RtpPacket = RtpPacket(payload: Bytes, timestamp: U32, ssrc: U32, sequence: U16, payloadType: Byte,
    marker: bool)

  function PayloadOffset(b: Bytes): (r: Option<nat>)
    requires 12 <= |b|
    ensures r.Some? ==> 12 <= r.value <= |b|
  {
    var offset := 12 + (b[0] % 16) * 4;
    if offset > |b| then None
    else if (b[0] / 16) % 2 == 0 then Some(offset)
    else if |b| - offset < 4 then None
    else
      var length := 4 + Be16(b[offset + 2], b[offset + 3]) * 4;
      if length > |b| - offset then None else Some(offset + length)
  }

  function PayloadEnd(b: Bytes, offset: nat): Option<nat>
    requires offset <= |b| && 12 <= |b|
  {
    if (b[0] / 32) % 2 == 0 then Some(|b|)
    else
      var padding := b[|b| - 1];
      if padding == 0 || padding > |b| - offset then None else Some(|b| - padding)
  }

  function ParseRtp(b: Bytes): (r: Option<RtpPacket>)
    ensures r.Some? ==> r.value.payload != []
  {
    if |b| < 12 || |b| > 65535 || b[0] / 64 != 2 then None
    else match PayloadOffset(b)
      case None => None
      case Some(offset) =>
        match PayloadEnd(b, offset)
        case None => None
        case Some(end) =>
          if end <= offset then None
          else Some(RtpPacket(b[offset..end], Be32(b[4], b[5], b[6], b[7]), Be32(b[8], b[9], b[10], b[11]),
                              Be16(b[2], b[3]), b[1] % 128, b[1] >= 128))
  }

  // ---------------------------------------------------------------- the packets that are accepted

  /** A header extension: its profile and its words (RFC 3550 section 5.3.1). */
  datatype Extension = Extension(profile: Bytes, words: Bytes)

  /** What a sender may put around a payload: contributing sources, a header extension, and padding in front of the byte
      that counts it. */
  datatype Wrapping = Wrapping(sources: Bytes, extension: Option<Extension>, padding: Option<Bytes>)

  predicate WrappingOk(w: Wrapping) {
    && |w.sources| % 4 == 0 && |w.sources| <= 60
    && (w.extension.Some? ==> |w.extension.value.profile| == 2 && |w.extension.value.words| % 4 == 0
                              && |w.extension.value.words| < 4 * 0x1_0000)
    && (w.padding.Some? ==> |w.padding.value| < 255)
  }

  function FirstByte(w: Wrapping): Byte
    requires WrappingOk(w)
  {
    128 + (if w.padding.Some? then 32 else 0) + (if w.extension.Some? then 16 else 0) + |w.sources| / 4
  }

  function Fixed(p: RtpPacket, first: Byte): (r: Bytes)
    requires p.payloadType < 128
    ensures |r| == 12
  {
    [first, (if p.marker then 128 else 0) + p.payloadType] + PutBe16(p.sequence) + PutBe32(p.timestamp)
      + PutBe32(p.ssrc)
  }

  function ExtensionBytes(w: Wrapping): Bytes
    requires WrappingOk(w)
  {
    if w.extension.None? then []
    else w.extension.value.profile + PutBe16(|w.extension.value.words| / 4) + w.extension.value.words
  }

  function PaddingBytes(w: Wrapping): Bytes
    requires WrappingOk(w)
  {
    if w.padding.None? then [] else w.padding.value + [|w.padding.value| + 1]
  }

  function PrintRtp(p: RtpPacket, w: Wrapping): Bytes
    requires p.payloadType < 128 && WrappingOk(w)
  {
    Fixed(p, FirstByte(w)) + (w.sources + ExtensionBytes(w)) + p.payload + PaddingBytes(w)
  }

  lemma FirstByteReads(w: Wrapping)
    requires WrappingOk(w)
    ensures var f := FirstByte(w);
            && f / 64 == 2 && (f % 16) * 4 == |w.sources|
            && ((f / 16) % 2 == 1) == w.extension.Some? && ((f / 32) % 2 == 1) == w.padding.Some?
  {
    var n := |w.sources| / 4;
    assert 0 <= n < 16;
  }

  lemma FixedReads(p: RtpPacket, first: Byte, rest: Bytes)
    requires p.payloadType < 128
    ensures var b := Fixed(p, first) + rest;
            && b[0] == first && b[1] % 128 == p.payloadType && (b[1] >= 128) == p.marker
            && Be16(b[2], b[3]) == p.sequence && Be32(b[4], b[5], b[6], b[7]) == p.timestamp
            && Be32(b[8], b[9], b[10], b[11]) == p.ssrc
  {
    hide Be16, Be32, PutBe16, PutBe32;
    var sn, ts, sr := PutBe16(p.sequence), PutBe32(p.timestamp), PutBe32(p.ssrc);
    var b := Fixed(p, first) + rest;
    assert b[2] == sn[0] && b[3] == sn[1];
    assert b[4] == ts[0] && b[5] == ts[1] && b[6] == ts[2] && b[7] == ts[3];
    assert b[8] == sr[0] && b[9] == sr[1] && b[10] == sr[2] && b[11] == sr[3];
  }

  /** Where the payload of a printed packet begins. */
  lemma OffsetIs(b: Bytes, w: Wrapping, rest: Bytes)
    requires WrappingOk(w) && |b| >= 12 && b[0] == FirstByte(w) && b[12..] == w.sources + ExtensionBytes(w) + rest
    ensures PayloadOffset(b) == Some(12 + |w.sources| + |ExtensionBytes(w)|)
            && 12 + |w.sources| + |ExtensionBytes(w)| <= |b|
  {
    hide Be16, PutBe16, FirstByte;
    FirstByteReads(w);
    var at := 12 + |w.sources|;
    assert |b| == at + |ExtensionBytes(w)| + |rest|;
    if w.extension.Some? {
      var x := w.extension.value;
      var length := PutBe16(|x.words| / 4);
      assert b[at + 2] == b[12..][|w.sources| + 2] == length[0];
      assert b[at + 3] == b[12..][|w.sources| + 3] == length[1];
    }
  }

  lemma EndIs(b: Bytes, w: Wrapping, offset: nat, payload: Bytes)
    requires WrappingOk(w) && 12 <= offset <= |b| && b[0] == FirstByte(w) && b[offset..] == payload + PaddingBytes(w)
    ensures PayloadEnd(b, offset) == Some(offset + |payload|) && offset + |payload| <= |b|
    ensures b[offset..offset + |payload|] == payload
  {
    hide FirstByte;
    FirstByteReads(w);
    assert |b| == offset + |payload| + |PaddingBytes(w)|;
    assert b[offset..offset + |payload|] == b[offset..][..|payload|];
    if w.padding.Some? {
      assert b[|b| - 1] == b[offset..][|b| - 1 - offset];
    }
  }

  /** Whatever contributing sources, header extension and padding a sender puts around a payload, exactly the packets
      with a payload and of at most 65535 bytes are accepted, and read as they were sent. */
  lemma ParseAfterPrint(p: RtpPacket, w: Wrapping)
    requires p.payloadType < 128 && WrappingOk(w)
    ensures ParseRtp(PrintRtp(p, w)) == if p.payload != [] && |PrintRtp(p, w)| <= 65535 then Some(p) else None
  {
    hide Be16, Be32, PayloadOffset, PayloadEnd, Fixed, FirstByte, ExtensionBytes, PaddingBytes, WrappingOk;
    var b, head := PrintRtp(p, w), w.sources + ExtensionBytes(w);
    var rest := p.payload + PaddingBytes(w);
    assert b == Fixed(p, FirstByte(w)) + (head + rest);
    FixedReads(p, FirstByte(w), head + rest);
    FirstByteReads(w);
    assert b[12..] == head + rest;
    OffsetIs(b, w, rest);
    var offset := 12 + |w.sources| + |ExtensionBytes(w)|;
    assert b[offset..] == rest;
    EndIs(b, w, offset, p.payload);
  }

  // ---------------------------------------------------------------- nothing else is accepted

  lemma FirstByteBack(f: Byte, w: Wrapping)
    requires WrappingOk(w) && f / 64 == 2 && (f % 16) * 4 == |w.sources|
    requires ((f / 16) % 2 == 1) == w.extension.Some? && ((f / 32) % 2 == 1) == w.padding.Some?
    ensures FirstByte(w) == f
  {
    assert f == 64 * (f / 64) + 32 * (f / 32 % 2) + 16 * (f / 16 % 2) + f % 16;
  }

  /** What lies between the fixed part and the payload. */
  lemma FrontOf(b: Bytes, offset: nat) returns (sources: Bytes, extension: Option<Extension>)
    requires 12 <= |b| && PayloadOffset(b) == Some(offset)
    ensures 12 <= offset <= |b| && |sources| == (b[0] % 16) * 4 && extension.Some? == ((b[0] / 16) % 2 == 1)
    ensures var w := Wrapping(sources, extension, None);
            WrappingOk(w) && b[12..offset] == sources + ExtensionBytes(w)
  {
    hide Be16, PutBe16;
    var at := 12 + (b[0] % 16) * 4;
    sources, extension := b[12..at], None;
    if (b[0] / 16) % 2 == 1 {
      var x := Extension(b[at..at + 2], b[at + 4..offset]);
      extension := Some(x);
      ShortBack(b[at + 2], b[at + 3]);
      assert |x.words| / 4 == Be16(b[at + 2], b[at + 3]);
      assert b[at..offset] == x.profile + [b[at + 2], b[at + 3]] + x.words;
      assert b[12..offset] == b[12..at] + b[at..offset];
    } else {
      assert b[12..offset] == sources + [];
    }
  }

  lemma ShortBack(hi: Byte, lo: Byte)
    ensures PutBe16(Be16(hi, lo)) == [hi, lo]
  {
  }

  lemma BackOf(b: Bytes, offset: nat, end: nat) returns (padding: Option<Bytes>)
    requires 12 <= |b| && offset <= |b| && PayloadEnd(b, offset) == Some(end)
    ensures offset <= end <= |b| && padding.Some? == ((b[0] / 32) % 2 == 1)
    ensures var w := Wrapping([], None, padding); WrappingOk(w) && b[end..] == PaddingBytes(w)
  {
    if (b[0] / 32) % 2 == 1 {
      padding := Some(b[end..|b| - 1]);
    } else {
      padding := None;
    }
  }

  /** Every accepted packet is a printed one: there is nothing else the receiver takes for a packet. */
  lemma AcceptedIsPrinted(b: Bytes) returns (w: Wrapping)
    requires ParseRtp(b).Some?
    ensures WrappingOk(w) && ParseRtp(b).value.payloadType < 128 && b == PrintRtp(ParseRtp(b).value, w)
  {
    hide Be16, Be32, PayloadOffset, PayloadEnd, Fixed, FirstByte, ExtensionBytes, PaddingBytes, WrappingOk;
    var p, offset := ParseRtp(b).value, PayloadOffset(b).value;
    var end := PayloadEnd(b, offset).value;
    var sources, extension := FrontOf(b, offset);
    var padding := BackOf(b, offset, end);
    w := Wrapping(sources, extension, padding);
    WrappingIsOk(w);
    FirstByteBack(b[0], w);
    FixedBack(b, p);
    Pieces(b, 12, offset, end);
  }

  lemma Pieces(b: Bytes, i: nat, j: nat, k: nat)
    requires i <= j <= k <= |b|
    ensures b == b[..i] + b[i..j] + b[j..k] + b[k..]
  {
  }

  lemma WrappingIsOk(w: Wrapping)
    requires WrappingOk(Wrapping(w.sources, w.extension, None)) && WrappingOk(Wrapping([], None, w.padding))
    ensures WrappingOk(w) && ExtensionBytes(w) == ExtensionBytes(Wrapping(w.sources, w.extension, None))
    ensures PaddingBytes(w) == PaddingBytes(Wrapping([], None, w.padding))
  {
  }

  lemma FixedBack(b: Bytes, p: RtpPacket)
    requires |b| >= 12 && p.payloadType == b[1] % 128 && p.marker == (b[1] >= 128) && p.sequence == Be16(b[2], b[3])
    requires p.timestamp == Be32(b[4], b[5], b[6], b[7]) && p.ssrc == Be32(b[8], b[9], b[10], b[11])
    ensures Fixed(p, b[0]) == b[..12]
  {
    hide Be16, Be32, PutBe16, PutBe32;
    ShortBack(b[2], b[3]);
    PutAfterBe32(b[4], b[5], b[6], b[7]);
    PutAfterBe32(b[8], b[9], b[10], b[11]);
  }
}
