/** UTF-8: the automaton of RFC 3629 section 4, the encoder and the validator of the JSON reader. */
module Utf8 {
  import opened Wire

  // ---------------------------------------------------------------- the grammar of RFC 3629, section 4

  /** Between two characters, inside one with `more` bytes to come of which the next is in
      `lo..hi`, or off the grammar. */
  datatype Place = Between | Inside(more: nat, lo: int, hi: int) | Off

  function Step(q: Place, c: Byte): Place {
    match q
    case Off => Off
    case Inside(more, lo, hi) =>
      if !(lo <= c <= hi) then Off
      else if more <= 1 then Between
      else Inside(more - 1, 0x80, 0xBF)
    case Between =>
      if c < 0x80 then Between
      else if 0xC2 <= c <= 0xDF then Inside(1, 0x80, 0xBF)
      else if c == 0xE0 then Inside(2, 0xA0, 0xBF)
      else if c == 0xED then Inside(2, 0x80, 0x9F)
      else if 0xE1 <= c <= 0xEF then Inside(2, 0x80, 0xBF)
      else if c == 0xF0 then Inside(3, 0x90, 0xBF)
      else if c == 0xF4 then Inside(3, 0x80, 0x8F)
      else if 0xF1 <= c <= 0xF3 then Inside(3, 0x80, 0xBF)
      else Off
  }

  function Run(q: Place, b: Bytes): Place
    decreases |b|
  {
    if b == [] then q else Run(Step(q, b[0]), b[1..])
  }

  predicate Valid(b: Bytes) {
    Run(Between, b) == Between
  }

  lemma {:induction false} RunConcat(q: Place, a: Bytes, b: Bytes)
    ensures Run(q, a + b) == Run(Run(q, a), b)
    decreases |a|
  {
    hide Step;
    if a == [] {
      assert [] + b == b;
    } else {
      assert (a + b)[1..] == a[1..] + b;
      RunConcat(Step(q, a[0]), a[1..], b);
    }
  }

  lemma {:induction false} OffStays(b: Bytes)
    ensures Run(Off, b) == Off
  {
    if b != [] { OffStays(b[1..]); }
  }

  /** An ASCII byte keeps on the grammar only between characters. */
  lemma AsciiBetween(q: Place, c: Byte)
    requires c < 0x80 && (q.Inside? ==> 0x80 <= q.lo)
    ensures Step(q, c) == if q == Between then Between else Off
  {
  }

  /** Places the automaton reaches. */
  predicate Reached(q: Place) {
    q.Inside? ==> 1 <= q.more <= 3 && 0x80 <= q.lo <= q.hi <= 0xBF
  }

  lemma {:induction false} RunReached(q: Place, b: Bytes)
    requires Reached(q)
    ensures Reached(Run(q, b))
    decreases |b|
  {
    if b != [] { RunReached(Step(q, b[0]), b[1..]); }
  }

  // ---------------------------------------------------------------- the encoder

  predicate Scalar(c: int) {
    0 <= c <= 0x10FFFF && !(0xD800 <= c <= 0xDFFF)
  }

  function Tail(c: nat, weight: nat): (b: Byte)
    requires weight > 0
    ensures 0x80 <= b <= 0xBF
  {
    0x80 + (c / weight) % 64
  }

  function Encode(c: int): (b: Bytes)
    requires 0 <= c <= 0x10FFFF
    ensures 1 <= |b| <= 4
  {
    if c <= 127 then [c]
    else if c <= 2047 then [192 + c / 64, Tail(c, 1)]
    else if c <= 65535 then [224 + c / 4096, Tail(c, 64), Tail(c, 1)]
    else [240 + c / 262144, Tail(c, 4096), Tail(c, 64), Tail(c, 1)]
  }

  lemma RunOne(q: Place, c: Byte)
    ensures Run(q, [c]) == Step(q, c)
  {
    hide Step;
    assert [c][1..] == [];
  }

  lemma RunTwo(a: Byte, b: Byte)
    ensures Run(Between, [a, b]) == Step(Step(Between, a), b)
  {
    hide Run, Step;
    assert [a, b] == [a] + [b];
    RunConcat(Between, [a], [b]);
    RunOne(Between, a);
    RunOne(Step(Between, a), b);
  }

  lemma RunThree(a: Byte, b: Byte, c: Byte)
    ensures Run(Between, [a, b, c]) == Step(Step(Step(Between, a), b), c)
  {
    hide Run, Step;
    assert [a, b, c] == [a, b] + [c];
    RunConcat(Between, [a, b], [c]);
    RunTwo(a, b);
    RunOne(Step(Step(Between, a), b), c);
  }

  lemma RunFour(a: Byte, b: Byte, c: Byte, d: Byte)
    ensures Run(Between, [a, b, c, d]) == Step(Step(Step(Step(Between, a), b), c), d)
  {
    hide Run, Step;
    assert [a, b, c, d] == [a, b, c] + [d];
    RunConcat(Between, [a, b, c], [d]);
    RunThree(a, b, c);
    RunOne(Step(Step(Step(Between, a), b), c), d);
  }

  lemma StepsTwo(lead: Byte, a: Byte)
    requires 0xC2 <= lead <= 0xDF && 0x80 <= a <= 0xBF
    ensures Step(Step(Between, lead), a) == Between
  {
  }

  lemma StepsThree(lead: Byte, a: Byte, b: Byte)
    requires 0xE0 <= lead <= 0xEF && 0x80 <= a <= 0xBF && 0x80 <= b <= 0xBF
    ensures Step(Step(Step(Between, lead), a), b)
            == if (lead == 0xE0 && a < 0xA0) || (lead == 0xED && a >= 0xA0) then Off else Between
  {
  }

  lemma StepsFour(lead: Byte, a: Byte, b: Byte, c: Byte)
    requires 0xF0 <= lead <= 0xF4 && 0x80 <= a <= 0xBF && 0x80 <= b <= 0xBF && 0x80 <= c <= 0xBF
    ensures Step(Step(Step(Step(Between, lead), a), b), c)
            == if (lead == 0xF0 && a < 0x90) || (lead == 0xF4 && a >= 0x90) then Off else Between
  {
  }

  lemma EncodeIsValid(c: int)
    requires Scalar(c)
    ensures Valid(Encode(c))
  {
    hide Run, Step;
    if c <= 127 {
      EncodeAscii(c);
    } else if c <= 2047 {
      RunTwo(192 + c / 64, Tail(c, 1));
      StepsTwo(192 + c / 64, Tail(c, 1));
    } else if c <= 65535 {
      EncodeThreeIsValid(c);
    } else {
      EncodeFourIsValid(c);
    }
  }

  lemma EncodeThreeIsValid(c: int)
    requires Scalar(c) && 2047 < c <= 65535
    ensures Valid(Encode(c))
  {
    hide Run, Step;
    RunThree(224 + c / 4096, Tail(c, 64), Tail(c, 1));
    StepsThree(224 + c / 4096, Tail(c, 64), Tail(c, 1));
    assert c / 64 == c / 4096 * 64 + (c / 64) % 64;
  }

  lemma EncodeFourIsValid(c: int)
    requires Scalar(c) && c > 65535
    ensures Valid(Encode(c))
  {
    hide Run, Step;
    RunFour(240 + c / 262144, Tail(c, 4096), Tail(c, 64), Tail(c, 1));
    StepsFour(240 + c / 262144, Tail(c, 4096), Tail(c, 64), Tail(c, 1));
    assert c / 4096 == c / 262144 * 64 + (c / 4096) % 64;
  }

  lemma EncodeAscii(c: Byte)
    requires c <= 127
    ensures Run(Between, [c]) == Between && Encode(c) == [c]
  {
    assert [c][1..] == [];
  }

  // ---------------------------------------------------------------- the characters of a valid string

  /** The low bits of a byte, those below `weight`. */
  function Low(b: Byte, weight: int): int
    requires weight > 0
  {
    b % weight
  }

  function LeadBits(lead: Byte): int {
    if lead < 0x80 then lead else if lead < 0xE0 then Low(lead, 32) else if lead < 0xF0 then Low(lead, 16)
      else Low(lead, 8)
  }

  /** The value the bytes of one character carry: the lead byte's low bits, then six bits each. */
  function Weigh(lead: Byte, tail: Bytes): int {
    if tail == [] then LeadBits(lead) else Weigh(lead, tail[..|tail| - 1]) * 64 + Low(tail[|tail| - 1], 64)
  }

  function TailLength(lead: Byte): (n: nat) {
    if lead < 0xC2 then 0 else if lead < 0xE0 then 1 else if lead < 0xF0 then 2 else if lead <= 0xF4 then 3 else 0
  }

  predicate AreTails(b: Bytes) {
    forall i :: 0 <= i < |b| ==> 0x80 <= b[i] <= 0xBF
  }

  function Smallest(lead: Byte): int {
    if lead < 0x80 then 0 else if lead < 0xE0 then 128 else if lead < 0xF0 then 2048 else 65536
  }

  predicate GoodLead(lead: Byte) {
    lead < 0x80 || 0xC2 <= lead <= 0xF4
  }

  /** With all its tail bytes, a character is on the grammar exactly when its value is a scalar not written too long;
      then encoding the value gives the bytes back. */
  lemma CharacterIs(lead: Byte, tail: Bytes)
    requires GoodLead(lead) && |tail| == TailLength(lead) && AreTails(tail)
    ensures var v := Weigh(lead, tail);
            Run(Between, [lead] + tail) == (if Smallest(lead) <= v && Scalar(v) then Between else Off)
            && (Smallest(lead) <= v && Scalar(v) ==> Encode(v) == [lead] + tail)
  {
    hide Run, Encode, Weigh, Low;
    if |tail| == 0 {
      assert [lead] + tail == [lead] && tail == [];
      EncodeAscii(lead);
      WeighNone(lead);
    } else if |tail| == 1 {
      assert [lead] + tail == [lead, tail[0]];
      TwoIs(lead, tail[0]);
      WeighOne(lead, tail);
    } else if |tail| == 2 {
      assert [lead] + tail == [lead, tail[0], tail[1]];
      ThreeIs(lead, tail[0], tail[1]);
      WeighTwo(lead, tail);
    } else {
      assert [lead] + tail == [lead, tail[0], tail[1], tail[2]];
      FourIs(lead, tail[0], tail[1], tail[2]);
      WeighThree(lead, tail);
    }
  }

  lemma WeighNone(lead: Byte)
    ensures Weigh(lead, []) == LeadBits(lead)
  {
  }

  lemma WeighOne(lead: Byte, tail: Bytes)
    requires |tail| == 1
    ensures Weigh(lead, tail) == LeadBits(lead) * 64 + Low(tail[0], 64)
  {
    hide Low, LeadBits;
    assert tail[..0] == [];
  }

  lemma WeighTwo(lead: Byte, tail: Bytes)
    requires |tail| == 2
    ensures Weigh(lead, tail) == LeadBits(lead) * 4096 + Low(tail[0], 64) * 64 + Low(tail[1], 64)
  {
    hide Low, LeadBits;
    WeighOne(lead, tail[..1]);
  }

  lemma WeighThree(lead: Byte, tail: Bytes)
    requires |tail| == 3
    ensures Weigh(lead, tail) == LeadBits(lead) * 262144 + Low(tail[0], 64) * 4096 + Low(tail[1], 64) * 64
            + Low(tail[2], 64)
  {
    hide Low, LeadBits;
    assert tail[..2][0] == tail[0] && tail[..2][1] == tail[1];
    WeighTwo(lead, tail[..2]);
  }

  lemma LowIs(b: Byte, first: int, size: int)
    requires size > 0 && first <= b < first + size && first % size == 0
    ensures Low(b, size) == b - first
  {
    assert b - first == size * (b / size - first / size) + (b % size);
    assert size * (b / size - first / size) == b - first - b % size;
    SmallMultiple(size, b / size - first / size);
  }

  lemma TwoIs(lead: Byte, a: Byte)
    requires 0xC2 <= lead <= 0xDF && 0x80 <= a <= 0xBF
    ensures var v := Low(lead, 32) * 64 + Low(a, 64);
            Run(Between, [lead, a]) == Between && 128 <= v <= 2047 && Encode(v) == [lead, a]
  {
    hide Run, Step, Low;
    RunTwo(lead, a);
    StepsTwo(lead, a);
    LowIs(lead, 0xC0, 32);
    LowIs(a, 0x80, 64);
  }

  lemma ThreeIs(lead: Byte, a: Byte, b: Byte)
    requires 0xE0 <= lead <= 0xEF && 0x80 <= a <= 0xBF && 0x80 <= b <= 0xBF
    ensures var v := Low(lead, 16) * 4096 + Low(a, 64) * 64 + Low(b, 64);
            && 0 <= v <= 65535
            && Run(Between, [lead, a, b]) == (if 2048 <= v && Scalar(v) then Between else Off)
            && (2048 <= v ==> Encode(v) == [lead, a, b])
  {
    hide Run, Step, Low, Encode;
    RunThree(lead, a, b);
    StepsThree(lead, a, b);
    LowIs(lead, 0xE0, 16);
    LowIs(a, 0x80, 64);
    LowIs(b, 0x80, 64);
    EncodeThree(lead - 0xE0, a - 0x80, b - 0x80);
  }

  lemma EncodeThree(x: int, y: int, z: int)
    requires 0 <= x < 16 && 0 <= y < 64 && 0 <= z < 64
    ensures var v := x * 4096 + y * 64 + z;
            2048 <= v <= 65535 ==> Encode(v) == [224 + x, 128 + y, 128 + z]
  {
    var v := x * 4096 + y * 64 + z;
    assert v / 4096 == x;
    assert v / 64 == x * 64 + y;
  }

  lemma FourIs(lead: Byte, a: Byte, b: Byte, c: Byte)
    requires 0xF0 <= lead <= 0xF4 && 0x80 <= a <= 0xBF && 0x80 <= b <= 0xBF && 0x80 <= c <= 0xBF
    ensures var v := Low(lead, 8) * 262144 + Low(a, 64) * 4096 + Low(b, 64) * 64 + Low(c, 64);
            && 0 <= v
            && Run(Between, [lead, a, b, c]) == (if 65536 <= v && Scalar(v) then Between else Off)
            && (65536 <= v && Scalar(v) ==> Encode(v) == [lead, a, b, c])
  {
    hide Run, Step, Low, Encode;
    RunFour(lead, a, b, c);
    StepsFour(lead, a, b, c);
    LowIs(lead, 0xF0, 8);
    LowIs(a, 0x80, 64);
    LowIs(b, 0x80, 64);
    LowIs(c, 0x80, 64);
    EncodeFour(lead - 0xF0, a - 0x80, b - 0x80, c - 0x80);
  }

  lemma EncodeFour(w: int, x: int, y: int, z: int)
    requires 0 <= w <= 4 && 0 <= x < 64 && 0 <= y < 64 && 0 <= z < 64
    ensures var v := w * 262144 + x * 4096 + y * 64 + z;
            65536 <= v <= 0x10FFFF ==> Encode(v) == [240 + w, 128 + x, 128 + y, 128 + z]
  {
    hide Encode, Tail;
    var v := w * 262144 + x * 4096 + y * 64 + z;
    Quotient(w, x * 4096 + y * 64 + z, 262144);
    Quotient(w * 64 + x, y * 64 + z, 4096);
    Quotient(w * 4096 + x * 64 + y, z, 64);
    LastSix(w * 64, x);
    LastSix(w * 4096 + x * 64, y);
    LastSix(w * 262144 + x * 4096 + y * 64, z);
    if 65536 <= v <= 0x10FFFF { EncodeLong(v); }
  }

  lemma Quotient(q: int, r: int, d: int)
    requires 0 <= r < d
    ensures (q * d + r) / d == q
  {
    var v := q * d + r;
    assert d * (v / d - q) == r - v % d;
    SmallMultiple(d, v / d - q);
  }

  lemma LastSix(high: int, x: int)
    requires high % 64 == 0 && 0 <= x < 64
    ensures (high + x) % 64 == x
  {
  }

  lemma EncodeLong(v: int)
    requires 65536 <= v <= 0x10FFFF
    ensures Encode(v) == [240 + v / 262144, 128 + (v / 4096) % 64, 128 + (v / 64) % 64, 128 + v % 64]
  {
  }

  // ---------------------------------------------------------------- whole strings

  /** An unfinished character needs all its tail bytes. */
  lemma {:induction false} NeedsTails(q: Place, b: Bytes)
    requires q.Inside? && Reached(q) && Run(q, b) == Between
    ensures |b| >= q.more && AreTails(b[..q.more])
    decreases |b|
  {
    if q.lo <= b[0] <= q.hi && q.more > 1 {
      NeedsTails(Step(q, b[0]), b[1..]);
      assert b[..q.more] == [b[0]] + b[1..][..q.more - 1];
    } else if !(q.lo <= b[0] <= q.hi) {
      OffStays(b[1..]);
    }
  }

  lemma LeadStep(lead: Byte)
    ensures GoodLead(lead) ==> (if TailLength(lead) == 0 then Step(Between, lead) == Between
                                else Step(Between, lead).Inside? && Step(Between, lead).more == TailLength(lead))
                                  && Reached(Step(Between, lead))
    ensures !GoodLead(lead) ==> Step(Between, lead) == Off
  {
  }

  /** A valid string starts with a good lead byte and all its tail bytes. */
  lemma StartsWhole(b: Bytes)
    requires b != [] && Valid(b)
    ensures GoodLead(b[0]) && |b| > TailLength(b[0]) && AreTails(b[1..TailLength(b[0]) + 1])
  {
    hide Step;
    LeadStep(b[0]);
    if !GoodLead(b[0]) {
      OffStays(b[1..]);
    } else if TailLength(b[0]) > 0 {
      var n := TailLength(b[0]);
      NeedsTails(Step(Between, b[0]), b[1..]);
      assert b[1..n + 1] == b[1..][..n];
    }
  }

  function First(b: Bytes): (c: int)
    requires b != [] && |b| > TailLength(b[0])
  {
    Weigh(b[0], b[1..TailLength(b[0]) + 1])
  }

  /** Whole first characters split off: the rest decides. */
  lemma SplitFirst(b: Bytes)
    requires b != [] && GoodLead(b[0]) && |b| > TailLength(b[0]) && AreTails(b[1..TailLength(b[0]) + 1])
    ensures var n := TailLength(b[0]) + 1;
            && (Valid(b) <==> Smallest(b[0]) <= First(b) && Scalar(First(b)) && Valid(b[n..]))
            && (Valid(b) ==> b == Encode(First(b)) + b[n..])
  {
    hide Run, Encode, Weigh, AreTails;
    var n := TailLength(b[0]) + 1;
    var head := [b[0]] + b[1..n];
    assert b == head + b[n..];
    CharacterIs(b[0], b[1..n]);
    RunConcat(Between, head, b[n..]);
    OffStays(b[n..]);
  }

  function EncodeAll(cs: seq<int>): Bytes
    requires forall i :: 0 <= i < |cs| ==> Scalar(cs[i])
  {
    if cs == [] then [] else assert Scalar(cs[0]); Encode(cs[0]) + EncodeAll(cs[1..])
  }

  lemma {:induction false} EncodeAllIsValid(cs: seq<int>)
    requires forall i :: 0 <= i < |cs| ==> Scalar(cs[i])
    ensures Valid(EncodeAll(cs))
  {
    hide Encode;
    if cs != [] {
      EncodeIsValid(cs[0]);
      EncodeAllIsValid(cs[1..]);
      RunConcat(Between, Encode(cs[0]), EncodeAll(cs[1..]));
    }
  }

  lemma {:induction false} ValidIsEncoded(b: Bytes) returns (cs: seq<int>)
    requires Valid(b)
    ensures forall i :: 0 <= i < |cs| ==> Scalar(cs[i])
    ensures b == EncodeAll(cs)
    decreases |b|
  {
    hide Encode, Valid;
    if b == [] {
      cs := [];
    } else {
      StartsWhole(b);
      SplitFirst(b);
      var rest := ValidIsEncoded(b[TailLength(b[0]) + 1..]);
      cs := [First(b)] + rest;
      assert cs[1..] == rest;
    }
  }

  /** The grammar's strings are exactly the encodings of lists of scalar values. */
  lemma ValidExactlyEncodings(b: Bytes)
    ensures Valid(b) <==> exists cs: seq<int> :: (forall i :: 0 <= i < |cs| ==> Scalar(cs[i])) && b == EncodeAll(cs)
  {
    hide Valid, EncodeAll;
    if Valid(b) {
      var cs := ValidIsEncoded(b);
    }
    forall cs: seq<int> | (forall i :: 0 <= i < |cs| ==> Scalar(cs[i])) && b == EncodeAll(cs) ensures Valid(b) {
      EncodeAllIsValid(cs);
    }
  }

  // ---------------------------------------------------------------- the validator

  lemma StopsAt(s: Bytes, i: nat, remaining: nat, k: nat)
    requires i < |s| && GoodLead(s[i]) && remaining == TailLength(s[i]) && k < remaining
    requires i + 1 + k >= |s| || !(0x80 <= s[i + 1 + k] <= 0xBF)
    ensures !Valid(s[i..])
  {
    hide Valid;
    var b := s[i..];
    ValidStartsWhole(b);
    if |b| > remaining { assert b[1..remaining + 1][k] == s[i + 1 + k]; }
  }

  lemma ValidStartsWhole(b: Bytes)
    requires b != []
    ensures Valid(b) ==> GoodLead(b[0]) && |b| > TailLength(b[0]) && AreTails(b[1..TailLength(b[0]) + 1])
  {
    if Valid(b) { StartsWhole(b); }
  }

  lemma WeighMore(lead: Byte, tail: Bytes, next: Byte)
    ensures Weigh(lead, tail + [next]) == Weigh(lead, tail) * 64 + Low(next, 64)
  {
    assert (tail + [next])[..|tail|] == tail;
  }

  lemma AsciiSplits(s: Bytes, i: nat)
    requires i < |s| && s[i] < 128
    ensures Valid(s[i..]) <==> Valid(s[i + 1..])
  {
    hide Run;
    var b := s[i..];
    assert b[1..] == s[i + 1..] && b[1..1] == [];
    WeighNone(b[0]);
    SplitFirst(b);
  }

  lemma BadLead(s: Bytes, i: nat)
    requires i < |s| && !GoodLead(s[i])
    ensures !Valid(s[i..])
  {
    hide Valid;
    ValidStartsWhole(s[i..]);
  }

  lemma WholeSplits(s: Bytes, start: nat, i: nat)
    requires start < i <= |s| && GoodLead(s[start]) && i == start + 1 + TailLength(s[start])
             && AreTails(s[start + 1..i])
    ensures var c := Weigh(s[start], s[start + 1..i]);
            Valid(s[start..]) <==> Smallest(s[start]) <= c && Scalar(c) && Valid(s[i..])
  {
    hide Valid, Weigh, AreTails;
    var b := s[start..];
    assert b[1..TailLength(b[0]) + 1] == s[start + 1..i] && b[TailLength(b[0]) + 1..] == s[i..];
    SplitFirst(b);
  }

  lemma WeighNonNegative(lead: Byte, tail: Bytes)
    ensures Weigh(lead, tail) >= 0
  {
    if tail != [] { WeighNonNegative(lead, tail[..|tail| - 1]); }
  }

  method ValidUtf8(s: Bytes) returns (ok: bool)
    ensures ok <==> Valid(s)
  {
    hide Valid, Weigh, Low;
    var i := 0;
    assert s[0..] == s;
    while i < |s|
      invariant 0 <= i <= |s|
      invariant Valid(s) <==> Valid(s[i..])
      decreases |s| - i
    {
      var start := i;
      var lead := s[i];
      i := i + 1;
      if lead < 128 {
        AsciiSplits(s, start);
        continue;
      }
      var remaining, minimum, c;
      if 194 <= lead <= 223 { remaining, minimum, c := 1, 128, Low(lead, 32); }
      else if 224 <= lead <= 239 { remaining, minimum, c := 2, 2048, Low(lead, 16); }
      else if 240 <= lead <= 244 { remaining, minimum, c := 3, 65536, Low(lead, 8); }
      else {
        BadLead(s, start);
        return false;
      }
      if remaining > |s| - i {
        StopsAt(s, start, remaining, |s| - i);
        return false;
      }
      WeighNone(lead);
      assert s[start + 1..i] == [];
      while remaining > 0
        invariant 0 <= remaining == start + 1 + TailLength(lead) - i && start < i <= |s| - remaining
        invariant c == Weigh(lead, s[start + 1..i]) && AreTails(s[start + 1..i])
      {
        remaining := remaining - 1;
        var next := s[i];
        if !(128 <= next < 192) {
          StopsAt(s, start, TailLength(lead), i - start - 1);
          return false;
        }
        WeighMore(lead, s[start + 1..i], next);
        assert s[start + 1..i + 1] == s[start + 1..i] + [next];
        i := i + 1;
        c := c * 64 + Low(next, 64);
      }
      WholeSplits(s, start, i);
      WeighNonNegative(lead, s[start + 1..i]);
      if c < minimum || c > 0x10ffff || 0xd800 <= c <= 0xdfff { return false; }
    }
    EmptyIsValid();
    assert s[i..] == [];
    return true;
  }

  lemma EmptyIsValid()
    ensures Valid([])
  {
  }

  method AppendUtf8(before: Bytes, c: int) returns (out: Bytes)
    requires 0 <= c <= 0x10FFFF
    ensures out == before + Encode(c)
  {
    out := before;
    if c <= 127 {
      out := out + [c];
    } else if c <= 2047 {
      out := out + [192 + c / 64];
      out := out + [Tail(c, 1)];
    } else if c <= 65535 {
      out := out + [224 + c / 4096];
      out := out + [Tail(c, 64)];
      out := out + [Tail(c, 1)];
    } else {
      out := out + [240 + c / 262144];
      out := out + [Tail(c, 4096)];
      out := out + [Tail(c, 64)];
      out := out + [Tail(c, 1)];
    }
  }
}
