/** Fixed-width integers, byte strings and the big-endian readers shared by every component. */
module Wire {

  type Byte = x: int | 0 <= x < 0x100
  type U16 = x: int | 0 <= x < 0x1_0000
  type U32 = x: int | 0 <= x < 0x1_0000_0000
  type Bytes = seq<Byte>

  datatype Option<+T> = None | Some(value: T)

  /** Signed distance from `b` to `a` on the circle of 16-bit numbers. */
  function SequenceDelta(a: U16, b: U16): (d: int)
    ensures -0x8000 <= d < 0x8000
    ensures (b + d) % 0x1_0000 == a
  {
    var d := (a - b) % 0x1_0000;
    if d < 0x8000 then d else d - 0x1_0000
  }

  function Be16(hi: Byte, lo: Byte): U16 {
    hi * 0x100 + lo
  }

  function Be32(a: Byte, b: Byte, c: Byte, d: Byte): U32 {
    a * 0x100_0000 + b * 0x1_0000 + c * 0x100 + d
  }

  function PutBe16(v: U16): (r: Bytes)
    ensures |r| == 2 && Be16(r[0], r[1]) == v
  {
    [v / 0x100, v % 0x100]
  }

  lemma FourDigits(v: U32)
    ensures v / 0x100_0000 * 0x100_0000 + v / 0x1_0000 % 0x100 * 0x1_0000 + v / 0x100 % 0x100 * 0x100 + v % 0x100 == v
    ensures 0 <= v / 0x100_0000 < 0x100
  {
    assert v == v / 0x100 * 0x100 + v % 0x100;
    assert v / 0x100 == v / 0x1_0000 * 0x100 + v / 0x100 % 0x100;
    assert v / 0x1_0000 == v / 0x100_0000 * 0x100 + v / 0x1_0000 % 0x100;
  }

  function PutBe32(v: U32): (r: Bytes)
    ensures |r| == 4 && Be32(r[0], r[1], r[2], r[3]) == v
  {
    FourDigits(v);
    [v / 0x100_0000, v / 0x1_0000 % 0x100, v / 0x100 % 0x100, v % 0x100]
  }

  lemma PutAfterBe32(a: Byte, b: Byte, c: Byte, d: Byte)
    ensures PutBe32(Be32(a, b, c, d)) == [a, b, c, d]
  {
    hide PutBe32, Be32;
    SameDigits(PutBe32(Be32(a, b, c, d)), a, b, c, d);
  }

  /** A number has one list of digits. */
  lemma SameDigits(r: Bytes, a: Byte, b: Byte, c: Byte, d: Byte)
    requires |r| == 4 && Be32(r[0], r[1], r[2], r[3]) == Be32(a, b, c, d)
    ensures r == [a, b, c, d]
  {
    LastDigit(Shifted(Shifted(r[0], r[1]), r[2]), r[3], Shifted(Shifted(a, b), c), d);
    LastDigit(Shifted(r[0], r[1]), r[2], Shifted(a, b), c);
    LastDigit(r[0], r[1], a, b);
  }

  function Shifted(x: int, digit: int): int {
    x * 0x100 + digit
  }

  lemma LastDigit(x: int, a: Byte, y: int, b: Byte)
    requires Shifted(x, a) == Shifted(y, b)
    ensures x == y && a == b
  {
  }

  function Be24(a: Byte, b: Byte, c: Byte): int {
    a * 0x1_0000 + b * 0x100 + c
  }

  function PutBe24(v: int): (r: Bytes)
    ensures |r| == 3
  {
    [(v / 0x1_0000) % 0x100, (v / 0x100) % 0x100, v % 0x100]
  }

  /** The last digit apart, and what is left of it. */
  lemma SplitDigit(v: int)
    ensures v == v / 0x100 * 0x100 + v % 0x100
  {
  }

  lemma TopDigit(v: int)
    requires 0 <= v < 0x100_0000
    ensures v / 0x100 / 0x100 == v / 0x1_0000 == (v / 0x1_0000) % 0x100
  {
  }

  lemma Put24Back(v: int)
    requires 0 <= v < 0x100_0000
    ensures Be24(PutBe24(v)[0], PutBe24(v)[1], PutBe24(v)[2]) == v
  {
    SplitDigit(v);
    SplitDigit(v / 0x100);
    TopDigit(v);
  }

  lemma SmallMultiple(w: int, d: int)
    requires -w < w * d < w
    ensures d == 0
  {
    assert d >= 1 ==> w * d >= w;
    assert d <= -1 ==> w * d <= -w;
  }

  function Concat(parts: seq<Bytes>): Bytes {
    if parts == [] then [] else parts[0] + Concat(parts[1..])
  }

  lemma {:induction false} ConcatSnoc(parts: seq<Bytes>, p: Bytes)
    ensures Concat(parts + [p]) == Concat(parts) + p
  {
    if parts == [] {
      assert [p][1..] == [];
      assert Concat([p]) == p + Concat([]);
    } else {
      assert (parts + [p])[1..] == parts[1..] + [p];
      ConcatSnoc(parts[1..], p);
    }
  }

  /** Division as C++ performs it, towards zero. */
  function TruncDiv(a: int, b: int): int
    requires b > 0
  {
    if a >= 0 then a / b else -((-a) / b)
  }

  function Zeros(n: nat): (r: Bytes)
    ensures |r| == n
    ensures forall i :: 0 <= i < n ==> r[i] == 0
  {
    seq(n, _ => 0)
  }
}
