/** Strings through the reader: what `quote` writes reads back, and nothing read is ever invalid UTF-8. */
module JsonStrings {
  import opened Wire
  import opened Utf8
  import opened JsonModel

  // ---------------------------------------------------------------- quoting keeps to the grammar

  lemma RunBytes(q: Place, b: Bytes)
    requires forall i :: 0 <= i < |b| ==> b[i] < 0x80
    ensures q == Between ==> Run(q, b) == Between
  {
    if b != [] && q == Between { RunBytes(Between, b[1..]); }
  }

  lemma QuoteByteRuns(q: Place, c: Byte)
    requires Reached(q) && Step(q, c) != Off
    ensures Run(q, QuoteByte(c)) == Step(q, c)
  {
    hide Run;
    if c == QUOTE || c == BACKSLASH || c < 32 {
      AsciiBetween(q, c);
      RunBytes(q, QuoteByte(c));
    } else {
      RunOne(q, c);
    }
  }

  lemma {:induction false} QuoteAllRuns(s: Bytes)
    requires Run(Between, s) != Off
    ensures Run(Between, QuoteAll(s)) == Run(Between, s)
  {
    hide Run, Step, QuoteByte;
    if s != [] {
      var n := |s| - 1;
      var earlier, last := s[..n], s[n];
      assert s == earlier + [last];
      RunConcat(Between, earlier, [last]);
      RunOne(Run(Between, earlier), last);
      OffStays([last]);
      RunReached(Between, earlier);
      QuoteAllRuns(earlier);
      QuoteByteRuns(Run(Between, earlier), last);
      RunConcat(Between, QuoteAll(earlier), QuoteByte(last));
    }
  }

  lemma QuoteIsValid(s: Bytes)
    requires Valid(s)
    ensures Valid([QUOTE] + QuoteAll(s) + [QUOTE])
  {
    hide Run, Step, QuoteAll;
    QuoteAllRuns(s);
    QuoteMarkRuns();
    RunConcat(Between, [QUOTE], QuoteAll(s));
    RunConcat(Between, [QUOTE] + QuoteAll(s), [QUOTE]);
  }

  lemma QuoteMarkRuns()
    ensures Run(Between, [QUOTE]) == Between
  {
    RunOne(Between, QUOTE);
  }

  // ---------------------------------------------------------------- quoted strings read back

  lemma {:induction false} QuoteCons(s: Bytes)
    requires s != []
    ensures QuoteAll(s) == QuoteByte(s[0]) + QuoteAll(s[1..])
    decreases |s|
  {
    hide QuoteByte;
    var n := |s| - 1;
    if n == 0 {
      assert s[..0] == [] && s[1..] == [];
    } else {
      assert s[..n][1..] == s[1..][..n - 1] && s[..n][0] == s[0];
      QuoteCons(s[..n]);
    }
  }

  /** `text` stands at `p`. */
  predicate Stands(b: Bytes, p: nat, text: Bytes) {
    p + |text| <= |b| && b[p..p + |text|] == text
  }

  lemma StandsParts(b: Bytes, p: nat, first: Bytes, rest: Bytes)
    ensures Stands(b, p, first + rest) <==> Stands(b, p, first) && Stands(b, p + |first|, rest)
  {
    if p + |first| + |rest| <= |b| {
      var m, e := p + |first|, p + |first| + |rest|;
      assert b[p..e] == b[p..m] + b[m..e];
      SameParts(b[p..m], b[m..e], first, rest);
    }
  }

  lemma SameParts(x: Bytes, y: Bytes, first: Bytes, rest: Bytes)
    requires |x| == |first|
    ensures x + y == first + rest <==> x == first && y == rest
  {
    assert (x + y)[..|first|] == x && (x + y)[|first|..] == y;
    assert (first + rest)[..|first|] == first && (first + rest)[|first|..] == rest;
  }

  lemma StandsAt(b: Bytes, p: nat, text: Bytes, i: nat)
    requires Stands(b, p, text) && i < |text|
    ensures p + i < |b| && b[p + i] == text[i]
  {
    assert b[p..p + |text|][i] == b[p + i];
  }

  lemma EscapeReads(b: Bytes, p: nat, c: Byte)
    requires c < 32 && Stands(b, p, QuoteByte(c))
    ensures Unicode(b, p + 2) == Some(CodePoint(c, p + 6)) && b[p] == BACKSLASH && b[p + 1] == 117 && p + 6 <= |b|
  {
    var text := QuoteByte(c);
    StandsAt(b, p, text, 0);
    StandsAt(b, p, text, 1);
    StandsAt(b, p, text, 2);
    StandsAt(b, p, text, 3);
    StandsAt(b, p, text, 4);
    StandsAt(b, p, text, 5);
    assert HexRun(b, p + 2, 1) == Some(0);
    assert HexRun(b, p + 2, 2) == Some(0);
    assert HexRun(b, p + 2, 3) == Some(c / 16);
    assert HexRun(b, p + 2, 4) == Some(c / 16 * 16 + c % 16);
  }

  lemma ByteReads(b: Bytes, p: nat, c: Byte, out: Bytes)
    requires Stands(b, p, QuoteByte(c))
    ensures StringTail(b, p, out) == StringTail(b, p + |QuoteByte(c)|, out + [c])
  {
    hide Unicode;
    StandsAt(b, p, QuoteByte(c), 0);
    if c == QUOTE || c == BACKSLASH {
      StandsAt(b, p, QuoteByte(c), 1);
    } else if c < 32 {
      EscapeReads(b, p, c);
      assert Encode(c) == [c];
    }
  }

  lemma {:induction false} StringReads(b: Bytes, p: nat, s: Bytes, out: Bytes)
    requires Stands(b, p, QuoteAll(s) + [QUOTE])
    ensures StringTail(b, p, out) == Some(Text(out + s, p + |QuoteAll(s)| + 1))
    decreases |s|
  {
    hide QuoteByte, QuoteAll, Stands;
    StandsParts(b, p, QuoteAll(s), [QUOTE]);
    if s == [] {
      EmptyReads(b, p, out);
      assert out + s == out;
    } else {
      hide StringTail;
      QuoteCons(s);
      var first, rest := QuoteByte(s[0]), QuoteAll(s[1..]);
      StandsParts(b, p, first, rest);
      StandsParts(b, p + |first|, rest, [QUOTE]);
      ByteReads(b, p, s[0], out);
      StringReads(b, p + |first|, s[1..], out + [s[0]]);
      assert out + [s[0]] + s[1..] == out + s;
    }
  }

  lemma EmptyReads(b: Bytes, p: nat, out: Bytes)
    requires Stands(b, p + |QuoteAll([])|, [QUOTE])
    ensures QuoteAll([]) == [] && StringTail(b, p, out) == Some(Text(out, p + 1))
  {
    StandsAt(b, p, [QUOTE], 0);
  }

  /** Every string of valid UTF-8 survives `quote` and `parse`, exactly as long as its quoted form is within the cap;
      `quote` refuses everything else. */
  lemma QuoteReadsBack(s: Bytes)
    ensures Quote(s).None? <==> !Valid(s)
    ensures Valid(s) ==> Parse(Quote(s).value) == if |Quote(s).value| <= MAX_INPUT then Some(String(s)) else None
  {
    hide Valid, QuoteAll, StringTail;
    if Valid(s) {
      var b := Quote(s).value;
      QuoteIsValid(s);
      assert Stands(b, 1, QuoteAll(s) + [QUOTE]);
      StringReads(b, 1, s, []);
      assert [] + s == s;
    }
  }

  // ---------------------------------------------------------------- nothing invalid is read

  /** Reading inside a string of a valid input: what was decoded is as far on the grammar as the input is. */
  ghost predicate InStep(b: Bytes, p: nat, out: Bytes) {
    p <= |b| && Run(Between, b[..p]) == Run(Between, out)
  }

  lemma PrefixNotOff(b: Bytes, p: nat)
    requires Valid(b) && p <= |b|
    ensures Run(Between, b[..p]) != Off && Reached(Run(Between, b[..p]))
  {
    hide Run, Step;
    assert b == b[..p] + b[p..];
    RunConcat(Between, b[..p], b[p..]);
    RunReached(Between, b[..p]);
    OffStays(b[p..]);
  }

  lemma RunNext(b: Bytes, p: nat)
    requires p < |b|
    ensures Run(Between, b[..p + 1]) == Step(Run(Between, b[..p]), b[p])
  {
    hide Run, Step;
    assert b[..p + 1] == b[..p] + [b[p]];
    RunConcat(Between, b[..p], [b[p]]);
    RunOne(Run(Between, b[..p]), b[p]);
  }

  /** An ASCII byte of a valid input stands between characters. */
  lemma AsciiStands(b: Bytes, p: nat)
    requires Valid(b) && p < |b| && b[p] < 0x80
    ensures Run(Between, b[..p]) == Between && Run(Between, b[..p + 1]) == Between
  {
    hide Run, Step;
    PrefixNotOff(b, p);
    PrefixNotOff(b, p + 1);
    RunNext(b, p);
    AsciiBetween(Run(Between, b[..p]), b[p]);
  }

  lemma AsciiRun(b: Bytes, p: nat, q: nat)
    requires Valid(b) && p < q <= |b| && b[q - 1] < 0x80
    ensures Run(Between, b[..q]) == Between
  {
    AsciiStands(b, q - 1);
  }

  lemma HexIsAscii(b: Bytes, p: nat)
    requires p <= |b| && Hex(b, p).Some?
    ensures b[p + 3] < 0x80
  {
  }

  lemma UnicodeIsAscii(b: Bytes, p: nat)
    requires p <= |b| && Unicode(b, p).Some?
    ensures b[Unicode(b, p).value.pos - 1] < 0x80
  {
    hide Hex;
    HexIsAscii(b, p);
    if p + 6 <= |b| && Hex(b, p + 6).Some? { HexIsAscii(b, p + 6); }
  }

  lemma OutAppends(out: Bytes, more: Bytes)
    requires Run(Between, out) == Between && Valid(more)
    ensures Run(Between, out + more) == Between
  {
    RunConcat(Between, out, more);
  }

  lemma BetweenIsValid(b: Bytes)
    requires Run(Between, b) == Between
    ensures Valid(b)
  {
    hide Run;
  }

  lemma AsciiIsValid(c: Byte)
    requires c < 0x80
    ensures Valid([c])
  {
    RunOne(Between, c);
  }

  lemma {:induction false} StringTailIsValid(b: Bytes, p: nat, out: Bytes)
    requires Valid(b) && InStep(b, p, out) && StringTail(b, p, out).Some?
    ensures Valid(StringTail(b, p, out).value.text)
    decreases |b| - p
  {
    hide Run, Step, Encode, Unicode, Unescaped, Valid;
    if b[p] == QUOTE {
      AsciiStands(b, p);
      BetweenIsValid(out);
    } else if b[p] != BACKSLASH {
      PlainInStep(b, p, out);
      StringTailIsValid(b, p + 1, out + [b[p]]);
    } else if b[p + 1] == 117 {
      var cp := Unicode(b, p + 2).value;
      AsciiStands(b, p);
      UnicodeIsAscii(b, p + 2);
      AsciiRun(b, p, cp.pos);
      EncodeIsValid(cp.c);
      OutAppends(out, Encode(cp.c));
      StringTailIsValid(b, cp.pos, out + Encode(cp.c));
    } else {
      var c := Unescaped(b[p + 1]).value;
      UnescapedIsAscii(b[p + 1]);
      AsciiStands(b, p);
      AsciiStands(b, p + 1);
      AsciiIsValid(c);
      OutAppends(out, [c]);
      StringTailIsValid(b, p + 2, out + [c]);
    }
  }

  lemma UnescapedIsAscii(c: Byte)
    requires Unescaped(c).Some?
    ensures c < 0x80 && Unescaped(c).value < 0x80
  {
  }

  lemma PlainInStep(b: Bytes, p: nat, out: Bytes)
    requires InStep(b, p, out) && p < |b|
    ensures InStep(b, p + 1, out + [b[p]])
  {
    hide Run, Step;
    RunNext(b, p);
    RunConcat(Between, out, [b[p]]);
    RunOne(Run(Between, out), b[p]);
  }

  lemma StringIsValid(b: Bytes, p: nat)
    requires Valid(b) && p <= |b| && ParseString(b, p).Some?
    ensures Valid(ParseString(b, p).value.text)
  {
    hide StringTail, Run;
    AsciiStands(b, p);
    EmptyRuns();
    StringTailIsValid(b, p + 1, []);
  }

  lemma EmptyRuns()
    ensures Run(Between, []) == Between
  {
  }

  // ---------------------------------------------------------------- numbers

  predicate AllDigits(t: Bytes) {
    forall i :: 0 <= i < |t| ==> 48 <= t[i] <= 57
  }

  /** RFC 8259, section 6: int. */
  predicate IsInteger(t: Bytes) {
    AllDigits(t) && t != [] && (t[0] == 48 ==> |t| == 1)
  }

  /** frac, or nothing. */
  predicate IsFraction(t: Bytes) {
    t == [] || (|t| > 1 && t[0] == 46 && AllDigits(t[1..]))
  }

  /** exp, or nothing. */
  predicate IsExponent(t: Bytes) {
    t == [] || ((t[0] == 101 || t[0] == 69) && |t| > 1
                && (AllDigits(t[1..]) || ((t[1] == 43 || t[1] == 45) && |t| > 2 && AllDigits(t[2..]))))
  }

  ghost predicate IsNumber(t: Bytes) {
    exists sign, whole, fraction, exponent :: NumberOf(t, sign, whole, fraction, exponent)
  }

  predicate NumberOf(t: Bytes, sign: Bytes, whole: Bytes, fraction: Bytes, exponent: Bytes) {
    && t == sign + whole + fraction + exponent
    && (sign == [] || sign == [45]) && IsInteger(whole) && IsFraction(fraction) && IsExponent(exponent)
  }

  lemma {:induction false} DigitsAre(b: Bytes, p: nat)
    requires p <= |b|
    ensures AllDigits(b[p..Digits(b, p)])
    decreases |b| - p
  {
    if DigitAt(b, p) {
      DigitsAre(b, p + 1);
      assert b[p..Digits(b, p)] == [b[p]] + b[p + 1..Digits(b, p + 1)];
    }
  }

  lemma IntegerIs(b: Bytes, p: nat)
    requires p <= |b| && IntegerEnd(b, p).Some?
    ensures IsInteger(b[p..IntegerEnd(b, p).value])
  {
    hide Digits;
    var e := IntegerEnd(b, p).value;
    if !At(b, p, 48) {
      DigitsAre(b, p + 1);
      assert b[p..e] == [b[p]] + b[p + 1..e];
    }
  }

  lemma FractionIs(b: Bytes, p: nat)
    requires p <= |b| && FractionEnd(b, p).Some?
    ensures IsFraction(b[p..FractionEnd(b, p).value])
  {
    var e := FractionEnd(b, p).value;
    if At(b, p, 46) {
      DigitsAre(b, p + 1);
      assert b[p..e][1..] == b[p + 1..e];
    }
  }

  lemma ExponentIs(b: Bytes, p: nat)
    requires p <= |b| && ExponentEnd(b, p).Some?
    ensures IsExponent(b[p..ExponentEnd(b, p).value])
  {
    var e := ExponentEnd(b, p).value;
    if At(b, p, 101) || At(b, p, 69) {
      var q := AfterSign(b, p + 1);
      DigitsAre(b, q);
      assert b[p..e][q - p..] == b[q..e];
    }
  }

  lemma PartsAreNumber(t: Bytes, sign: Bytes, whole: Bytes, fraction: Bytes, exponent: Bytes)
    requires NumberOf(t, sign, whole, fraction, exponent)
    ensures IsNumber(t)
  {
  }

  lemma FourParts(b: Bytes, p: nat, s: nat, i: nat, f: nat, e: nat)
    requires p <= s <= i <= f <= e <= |b|
    ensures b[p..e] == b[p..s] + b[s..i] + b[i..f] + b[f..e]
  {
    assert b[p..i] == b[p..s] + b[s..i];
    assert b[p..f] == b[p..i] + b[i..f];
    assert b[p..e] == b[p..f] + b[f..e];
  }

  lemma NumberIs(b: Bytes, p: nat)
    requires p <= |b| && NumberEnd(b, p).Some?
    ensures IsNumber(b[p..NumberEnd(b, p).value])
  {
    hide IntegerEnd, FractionEnd, ExponentEnd, IsInteger, IsFraction, IsExponent, IsNumber;
    var s := AfterMinus(b, p);
    var i := IntegerEnd(b, s).value;
    var f := FractionEnd(b, i).value;
    var e := ExponentEnd(b, f).value;
    IntegerIs(b, s);
    FractionIs(b, i);
    ExponentIs(b, f);
    FourParts(b, p, s, i, f, e);
    assert e == NumberEnd(b, p).value;
    PartsAreNumber(b[p..e], b[p..s], b[s..i], b[i..f], b[f..e]);
  }

  // ---------------------------------------------------------------- documents

  /** Nested at most `room` deep, all strings and keys valid UTF-8, all numbers by the grammar. */
  ghost predicate Sound(v: Value, room: int) {
    && room >= 0
    && match v {
      case String(t) => Valid(t)
      case Number(t) => IsNumber(t)
      case Array(items) => forall i :: 0 <= i < |items| ==> Sound(items[i], room - 1)
      case Object(members) => forall k :: k in members ==> Valid(k) && Sound(members[k], room - 1)
      case _ => true
    }
  }

  lemma {:induction false} ValueIsSound(b: Bytes, p: nat, nodes: nat, depth: nat)
    requires Valid(b) && p <= |b| && ParseValue(b, p, nodes, depth).Some?
    ensures Sound(ParseValue(b, p, nodes, depth).value.v, MAX_DEPTH - depth)
    decreases |b| - p, 0
  {
    hide Valid, StringTail, NumberEnd, Literal, IsNumber, ParseMembers, ParseElements, Spaces;
    var q := Spaces(b, p);
    if b[q] == QUOTE {
      StringIsValid(b, q);
    } else if b[q] == OPEN_BRACE {
      var r := Spaces(b, q + 1);
      if !At(b, r, CLOSE_BRACE) { MembersAreSound(b, r, nodes + 1, depth, map[]); }
    } else if b[q] == OPEN_BRACKET {
      var r := Spaces(b, q + 1);
      if !At(b, r, CLOSE_BRACKET) { ElementsAreSound(b, r, nodes + 1, depth, []); }
    } else if b[q] != 110 && b[q] != 116 && b[q] != 102 {
      NumberIs(b, q);
    }
  }

  lemma {:induction false} MembersAreSound(b: Bytes, p: nat, nodes: nat, depth: nat, members: map<Bytes, Value>)
    requires Valid(b) && p <= |b| && depth <= MAX_DEPTH && ParseMembers(b, p, nodes, depth, members).Some?
    requires Sound(Object(members), MAX_DEPTH - depth)
    ensures Sound(ParseMembers(b, p, nodes, depth, members).value.v, MAX_DEPTH - depth)
    decreases |b| - p, 1
  {
    hide Valid, ParseString, ParseValue, Spaces;
    var key := ParseString(b, Spaces(b, p)).value;
    StringIsValid(b, Spaces(b, p));
    var c := Spaces(b, key.pos);
    var child := ParseValue(b, c + 1, nodes, depth + 1).value;
    ValueIsSound(b, c + 1, nodes, depth + 1);
    var e := Spaces(b, child.pos);
    if !At(b, e, CLOSE_BRACE) {
      MembersAreSound(b, e + 1, child.nodes, depth, members[key.text := child.v]);
    }
  }

  lemma {:induction false} ElementsAreSound(b: Bytes, p: nat, nodes: nat, depth: nat, items: seq<Value>)
    requires Valid(b) && p <= |b| && depth <= MAX_DEPTH && ParseElements(b, p, nodes, depth, items).Some?
    requires Sound(Array(items), MAX_DEPTH - depth)
    ensures Sound(ParseElements(b, p, nodes, depth, items).value.v, MAX_DEPTH - depth)
    decreases |b| - p, 1
  {
    hide Valid, ParseValue, Spaces;
    var child := ParseValue(b, p, nodes, depth + 1).value;
    ValueIsSound(b, p, nodes, depth + 1);
    var e := Spaces(b, child.pos);
    if !At(b, e, CLOSE_BRACKET) {
      ElementsAreSound(b, e + 1, child.nodes, depth, items + [child.v]);
    }
  }

  /** Whatever parses is nested at most 32 deep, and every string and key in it is valid UTF-8, escapes decoded. */
  lemma ParsedIsSound(b: Bytes)
    requires Parse(b).Some?
    ensures Sound(Parse(b).value, MAX_DEPTH)
  {
    hide Valid, ParseValue, Sound;
    ValueIsSound(b, 0, 0, 0);
  }
}
