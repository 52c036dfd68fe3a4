/** The ways to spell a string, from RFC 8259, section 7: each reads as what it stands for. */
module JsonSpellings {
  import opened Wire
  import opened Utf8
  import opened JsonModel
  import opened JsonStrings

  // ---------------------------------------------------------------- the grammar

  /** The escapes of two characters, by the names of section 7. */
  datatype Short =
    | QuotationMark
    | ReverseSolidus
    | Solidus
    | Backspace
    | FormFeed
    | LineFeed
    | CarriageReturn
    | Tab

  /** The character behind the backslash. */
  function Letter(e: Short): Byte {
    match e
    case QuotationMark => '"' as int
    case ReverseSolidus => '\\' as int
    case Solidus => '/' as int
    case Backspace => 'b' as int
    case FormFeed => 'f' as int
    case LineFeed => 'n' as int
    case CarriageReturn => 'r' as int
    case Tab => 't' as int
  }

  /** The character it stands for, as section 7 numbers it. */
  function Code(e: Short): Byte {
    match e
    case QuotationMark => 0x22
    case ReverseSolidus => 0x5C
    case Solidus => 0x2F
    case Backspace => 0x08
    case FormFeed => 0x0C
    case LineFeed => 0x0A
    case CarriageReturn => 0x0D
    case Tab => 0x09
  }

  /** A byte as it is, a short escape, or a character by its hexadecimal digits: one escape up to U+FFFF, and a pair of
      surrogates beyond. `upper` gives the case of each digit. */
  datatype Spelling = Plain(c: Byte) | Escape(e: Short) | Numeric(scalar: int, upper: seq<bool>)

  predicate SpellingOk(sp: Spelling) {
    match sp
    case Plain(c) => c >= 0x20 && c != 0x22 && c != 0x5C
    case Escape(_) => true
    case Numeric(scalar, upper) => Scalar(scalar) && |upper| == 8
  }

  function DigitChar(d: int, upper: bool): (c: Byte)
    requires 0 <= d < 16
  {
    if d < 10 then ('0' as int) + d else if upper then ('A' as int) + (d - 10) else ('a' as int) + (d - 10)
  }

  /** A backslash, a `u`, and the four digits of one unit of 16 bits. */
  function SpellUnit(u: U16, upper: seq<bool>): (r: Bytes)
    requires |upper| == 4
    ensures |r| == 6
  {
    ['\\' as int, 'u' as int, DigitChar(u / 0x1000, upper[0]), DigitChar(u / 0x100 % 0x10, upper[1]),
     DigitChar(u / 0x10 % 0x10, upper[2]), DigitChar(u % 0x10, upper[3])]
  }

  /** The surrogates of a character beyond U+FFFF (RFC 2781, section 2.1). */
  function HighSurrogate(c: int): U16
    requires 0x1_0000 <= c <= 0x10_FFFF
  {
    0xD800 + (c - 0x1_0000) / 0x400
  }

  function LowSurrogate(c: int): U16
    requires 0x1_0000 <= c <= 0x10_FFFF
  {
    0xDC00 + (c - 0x1_0000) % 0x400
  }

  function Spell(sp: Spelling): (r: Bytes)
    requires SpellingOk(sp)
    ensures r != []
  {
    match sp
    case Plain(c) => [c]
    case Escape(e) => ['\\' as int, Letter(e)]
    case Numeric(c, upper) =>
      if c < 0x1_0000 then SpellUnit(c, upper[..4])
      else SpellUnit(HighSurrogate(c), upper[..4]) + SpellUnit(LowSurrogate(c), upper[4..])
  }

  function Stood(sp: Spelling): Bytes
    requires SpellingOk(sp)
  {
    match sp
    case Plain(c) => [c]
    case Escape(e) => [Code(e)]
    case Numeric(c, _) => Encode(c)
  }

  predicate AllSpellings(ss: seq<Spelling>) {
    forall i :: 0 <= i < |ss| ==> SpellingOk(ss[i])
  }

  function SpellAll(ss: seq<Spelling>): Bytes
    requires AllSpellings(ss)
  {
    if ss == [] then [] else Spell(ss[0]) + SpellAll(ss[1..])
  }

  /** What the spellings stand for, in UTF-8. */
  function StoodAll(ss: seq<Spelling>): Bytes
    requires AllSpellings(ss)
  {
    if ss == [] then [] else Stood(ss[0]) + StoodAll(ss[1..])
  }

  // ---------------------------------------------------------------- digits read back

  lemma DigitReads(d: int, upper: bool)
    requires 0 <= d < 16
    ensures HexDigit(DigitChar(d, upper)) == d
  {
  }

  lemma UnitDigits(u: U16)
    ensures 0 <= u / 0x1000 < 0x10
    ensures ((u / 0x1000 * 0x10 + u / 0x100 % 0x10) * 0x10 + u / 0x10 % 0x10) * 0x10 + u % 0x10 == u
  {
    assert u == u / 0x10 * 0x10 + u % 0x10;
    assert u / 0x10 == u / 0x100 * 0x10 + u / 0x10 % 0x10;
    assert u / 0x100 == u / 0x1000 * 0x10 + u / 0x100 % 0x10;
  }

  lemma FourDigits(b: Bytes, p: nat, d0: int, d1: int, d2: int, d3: int)
    requires p + 4 <= |b| && HexDigit(b[p]) == d0 >= 0 && HexDigit(b[p + 1]) == d1 >= 0
    requires HexDigit(b[p + 2]) == d2 >= 0 && HexDigit(b[p + 3]) == d3 >= 0
    ensures Hex(b, p) == Some(((d0 * 16 + d1) * 16 + d2) * 16 + d3)
  {
    hide HexDigit;
    assert HexRun(b, p, 0) == Some(0);
    assert HexRun(b, p, 1) == Some(d0);
    assert HexRun(b, p, 2) == Some(d0 * 16 + d1);
    assert HexRun(b, p, 3) == Some((d0 * 16 + d1) * 16 + d2);
  }

  lemma UnitReads(b: Bytes, p: nat, u: U16, upper: seq<bool>)
    requires |upper| == 4 && Stands(b, p, SpellUnit(u, upper))
    ensures p + 6 <= |b| && b[p] == BACKSLASH && b[p + 1] == 117 && Hex(b, p + 2) == Some(u)
  {
    hide DigitChar, HexDigit, Hex, Stands;
    var text := SpellUnit(u, upper);
    StandsAt(b, p, text, 0);
    StandsAt(b, p, text, 1);
    StandsAt(b, p, text, 2);
    StandsAt(b, p, text, 3);
    StandsAt(b, p, text, 4);
    StandsAt(b, p, text, 5);
    UnitDigits(u);
    DigitReads(u / 0x1000, upper[0]);
    DigitReads(u / 0x100 % 0x10, upper[1]);
    DigitReads(u / 0x10 % 0x10, upper[2]);
    DigitReads(u % 0x10, upper[3]);
    FourDigits(b, p + 2, u / 0x1000, u / 0x100 % 0x10, u / 0x10 % 0x10, u % 0x10);
  }

  lemma SurrogatesAre(c: int)
    requires 0x1_0000 <= c <= 0x10_FFFF
    ensures 0xD800 <= HighSurrogate(c) <= 0xDBFF && 0xDC00 <= LowSurrogate(c) <= 0xDFFF
    ensures 0x1_0000 + (HighSurrogate(c) - 0xD800) * 0x400 + (LowSurrogate(c) - 0xDC00) == c
  {
  }

  lemma NumericReads(b: Bytes, p: nat, c: int, upper: seq<bool>)
    requires SpellingOk(Numeric(c, upper)) && Stands(b, p, Spell(Numeric(c, upper)))
    ensures p + 2 <= |b| && b[p] == BACKSLASH && b[p + 1] == 117
    ensures Unicode(b, p + 2) == Some(CodePoint(c, p + |Spell(Numeric(c, upper))|))
  {
    hide SpellUnit, Hex, Stands, HighSurrogate, LowSurrogate;
    if c < 0x1_0000 {
      UnitReads(b, p, c, upper[..4]);
    } else {
      SurrogatesAre(c);
      StandsParts(b, p, SpellUnit(HighSurrogate(c), upper[..4]), SpellUnit(LowSurrogate(c), upper[4..]));
      UnitReads(b, p, HighSurrogate(c), upper[..4]);
      UnitReads(b, p + 6, LowSurrogate(c), upper[4..]);
    }
  }

  // ---------------------------------------------------------------- strings read back

  lemma ShortReads(e: Short)
    ensures Unescaped(Letter(e)) == Some(Code(e)) && Letter(e) != 117
  {
  }

  lemma SpellingReads(b: Bytes, p: nat, sp: Spelling, out: Bytes)
    requires SpellingOk(sp) && Stands(b, p, Spell(sp))
    ensures StringTail(b, p, out) == StringTail(b, p + |Spell(sp)|, out + Stood(sp))
  {
    hide Unicode, Unescaped, SpellUnit, Encode, Letter, Code;
    StandsAt(b, p, Spell(sp), 0);
    match sp
    case Plain(c) =>
    case Escape(e) =>
      StandsAt(b, p, Spell(sp), 1);
      ShortReads(e);
    case Numeric(c, upper) => NumericReads(b, p, c, upper);
  }

  lemma EndReads(b: Bytes, p: nat, out: Bytes)
    requires Stands(b, p, [QUOTE])
    ensures StringTail(b, p, out) == Some(Text(out, p + 1))
  {
    StandsAt(b, p, [QUOTE], 0);
  }

  /** Every list of spellings, up to the closing quote, reads as what it stands for. */
  lemma {:induction false} SpelledReads(b: Bytes, p: nat, ss: seq<Spelling>, out: Bytes)
    requires AllSpellings(ss) && Stands(b, p, SpellAll(ss) + [QUOTE])
    ensures StringTail(b, p, out) == Some(Text(out + StoodAll(ss), p + |SpellAll(ss)| + 1))
    decreases |ss|
  {
    hide Spell, Stood, Stands, StringTail;
    StandsParts(b, p, SpellAll(ss), [QUOTE]);
    if ss == [] {
      EndReads(b, p, out);
      assert out + [] == out;
    } else {
      var first, rest := Spell(ss[0]), SpellAll(ss[1..]);
      StandsParts(b, p, first, rest);
      StandsParts(b, p + |first|, rest, [QUOTE]);
      SpellingReads(b, p, ss[0], out);
      SpelledReads(b, p + |first|, ss[1..], out + Stood(ss[0]));
      assert out + Stood(ss[0]) + StoodAll(ss[1..]) == out + (Stood(ss[0]) + StoodAll(ss[1..]));
    }
  }

  /** A string document in any spelling parses to the string it stands for. */
  lemma StringReadsAsSpelled(ss: seq<Spelling>)
    requires AllSpellings(ss)
    ensures var b := [QUOTE] + SpellAll(ss) + [QUOTE];
            Parse(b) == if |b| <= MAX_INPUT && Valid(b) then Some(String(StoodAll(ss))) else None
  {
    hide Valid, SpellAll, StoodAll, StringTail;
    var b := [QUOTE] + SpellAll(ss) + [QUOTE];
    assert b[1..|b|] == SpellAll(ss) + [QUOTE];
    SpelledReads(b, 1, ss, []);
    assert [] + StoodAll(ss) == StoodAll(ss);
  }

  // ---------------------------------------------------------------- nothing else is read

  lemma ShortBack(c: Byte) returns (e: Short)
    requires Unescaped(c).Some?
    ensures Letter(e) == c && Code(e) == Unescaped(c).value
  {
    e := if c == 34 then QuotationMark else if c == 92 then ReverseSolidus else if c == 47 then Solidus
         else if c == 98 then Backspace else if c == 102 then FormFeed else if c == 110 then LineFeed
         else if c == 114 then CarriageReturn else Tab;
  }

  lemma DigitBack(c: Byte) returns (upper: bool)
    requires HexDigit(c) >= 0
    ensures DigitChar(HexDigit(c), upper) == c
  {
    upper := 65 <= c <= 70;
  }

  lemma DigitsOf(d0: int, d1: int, d2: int, d3: int, u: int)
    requires 0 <= d0 < 16 && 0 <= d1 < 16 && 0 <= d2 < 16 && 0 <= d3 < 16
    requires u == ((d0 * 16 + d1) * 16 + d2) * 16 + d3
    ensures 0 <= u < 0x1_0000 && u / 0x1000 == d0 && u / 0x100 % 0x10 == d1 && u / 0x10 % 0x10 == d2 && u % 0x10 == d3
  {
    assert u / 0x10 == (d0 * 16 + d1) * 16 + d2;
    assert u / 0x100 == d0 * 16 + d1;
  }

  lemma HexHas(b: Bytes, p: nat)
    requires p <= |b| && Hex(b, p).Some?
    ensures p + 4 <= |b| && HexDigit(b[p]) >= 0 && HexDigit(b[p + 1]) >= 0 && HexDigit(b[p + 2]) >= 0
            && HexDigit(b[p + 3]) >= 0
  {
    hide HexDigit;
    assert HexRun(b, p, 3).Some? && HexRun(b, p, 2).Some? && HexRun(b, p, 1).Some?;
  }

  /** Four digits that are read are those of a unit. */
  lemma UnitBack(b: Bytes, p: nat) returns (upper: seq<bool>)
    requires p + 2 <= |b| && b[p] == BACKSLASH && b[p + 1] == 117 && Hex(b, p + 2).Some?
    ensures |upper| == 4 && p + 6 <= |b| && b[p..p + 6] == SpellUnit(Hex(b, p + 2).value, upper)
  {
    hide Hex, HexDigit, DigitChar;
    HexHas(b, p + 2);
    var d0, d1, d2, d3 := HexDigit(b[p + 2]), HexDigit(b[p + 3]), HexDigit(b[p + 4]), HexDigit(b[p + 5]);
    FourDigits(b, p + 2, d0, d1, d2, d3);
    DigitsOf(d0, d1, d2, d3, Hex(b, p + 2).value);
    var u0 := DigitBack(b[p + 2]);
    var u1 := DigitBack(b[p + 3]);
    var u2 := DigitBack(b[p + 4]);
    var u3 := DigitBack(b[p + 5]);
    upper := [u0, u1, u2, u3];
  }

  lemma SurrogatesBack(high: int, low: int)
    requires 0xD800 <= high <= 0xDBFF && 0xDC00 <= low <= 0xDFFF
    ensures var c := 0x1_0000 + (high - 0xD800) * 0x400 + (low - 0xDC00);
            0x1_0000 <= c <= 0x10_FFFF && HighSurrogate(c) == high && LowSurrogate(c) == low
  {
  }

  lemma NumericBack(b: Bytes, p: nat) returns (upper: seq<bool>)
    requires p + 2 <= |b| && b[p] == BACKSLASH && b[p + 1] == 117 && Unicode(b, p + 2).Some?
    ensures var cp := Unicode(b, p + 2).value;
            SpellingOk(Numeric(cp.c, upper)) && p <= cp.pos <= |b| && b[p..cp.pos] == Spell(Numeric(cp.c, upper))
  {
    hide Hex, SpellUnit, HighSurrogate, LowSurrogate;
    var high := Hex(b, p + 2).value;
    var first := UnitBack(b, p);
    if 0xD800 <= high <= 0xDBFF {
      var low := Hex(b, p + 8).value;
      var second := UnitBack(b, p + 6);
      SurrogatesBack(high, low);
      upper := first + second;
      assert b[p..p + 12] == b[p..p + 6] + b[p + 6..p + 12];
      assert upper[..4] == first && upper[4..] == second;
    } else {
      upper := first + first;
      assert upper[..4] == first;
    }
  }

  /** The spelling a string goes on with, when it does not end. */
  lemma OneSpelling(b: Bytes, p: nat, out: Bytes) returns (sp: Spelling)
    requires p <= |b| && StringTail(b, p, out).Some? && b[p] != QUOTE
    ensures SpellingOk(sp) && p + |Spell(sp)| <= |b| && b[p..p + |Spell(sp)|] == Spell(sp)
    ensures StringTail(b, p, out) == StringTail(b, p + |Spell(sp)|, out + Stood(sp))
  {
    hide Unicode, Unescaped, SpellUnit, Encode, Letter, Code;
    if b[p] != BACKSLASH {
      sp := Plain(b[p]);
    } else if b[p + 1] == 117 {
      var upper := NumericBack(b, p);
      sp := Numeric(Unicode(b, p + 2).value.c, upper);
    } else {
      var e := ShortBack(b[p + 1]);
      sp := Escape(e);
    }
  }

  /** Whatever reads as a string is written in these spellings and reads as what they stand for. */
  lemma {:induction false} OnlySpellings(b: Bytes, p: nat, out: Bytes) returns (ss: seq<Spelling>)
    requires p <= |b| && StringTail(b, p, out).Some?
    ensures AllSpellings(ss) && StringTail(b, p, out).value.text == out + StoodAll(ss)
    ensures b[p..StringTail(b, p, out).value.pos] == SpellAll(ss) + [QUOTE]
    decreases |b| - p
  {
    hide Spell, Stood, SpellingOk;
    if b[p] == QUOTE {
      ss := [];
      assert out + [] == out;
    } else {
      var sp := OneSpelling(b, p, out);
      var q, e := p + |Spell(sp)|, StringTail(b, p, out).value.pos;
      hide StringTail;
      var rest := OnlySpellings(b, q, out + Stood(sp));
      ss := [sp] + rest;
      OneMore(sp, rest, out);
      assert b[p..e] == b[p..q] + b[q..e];
    }
  }

  lemma OneMore(sp: Spelling, rest: seq<Spelling>, out: Bytes)
    requires SpellingOk(sp) && AllSpellings(rest)
    ensures AllSpellings([sp] + rest)
    ensures SpellAll([sp] + rest) + [QUOTE] == Spell(sp) + (SpellAll(rest) + [QUOTE])
    ensures out + Stood(sp) + StoodAll(rest) == out + StoodAll([sp] + rest)
  {
    hide Spell, Stood, SpellingOk;
    assert ([sp] + rest)[1..] == rest;
  }
}
