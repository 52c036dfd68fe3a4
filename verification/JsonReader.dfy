/** The reader as it runs: a position and a node count that its methods advance. A failed read is `None`, and
    the reader is not used any further. */
module JsonReading {
  import opened Wire
  import opened Utf8
  import M = JsonModel

  lemma {:induction false} BadDigit(b: Bytes, p: nat, k: nat, all: nat)
    requires p + all <= |b| && k <= all <= 4 && M.HexRun(b, p, k).None?
    ensures M.HexRun(b, p, all).None?
    decreases all
  {
    if k < all { BadDigit(b, p, k, all - 1); }
  }

  class Reader {
    const input: Bytes
    var position: nat
    var nodes: nat

    ghost predicate Valid()
      reads this
    {
      position <= |input|
    }

    constructor (input: Bytes)
      ensures Valid() && this.input == input && position == 0 && nodes == 0
    {
      this.input, position, nodes := input, 0, 0;
    }

    method Spaces()
      requires Valid()
      modifies this`position
      ensures Valid() && position == M.Spaces(input, old(position))
    {
      while position < |input| && M.IsSpace(input[position])
        invariant Valid() && M.Spaces(input, old(position)) == M.Spaces(input, position)
        decreases |input| - position
      {
        position := position + 1;
      }
    }

    method Take(c: Byte) returns (taken: bool)
      requires Valid()
      modifies this`position
      ensures Valid() && taken == M.At(input, old(position), c) && position == if taken then old(position) + 1
              else old(position)
    {
      taken := position < |input| && input[position] == c;
      if taken { position := position + 1; }
    }

    method Literal(word: Bytes) returns (ok: bool)
      requires Valid()
      modifies this`position
      ensures Valid() && ok == M.Literal(input, old(position), word)
      ensures ok ==> position == old(position) + |word|
    {
      ok := position + |word| <= |input| && input[position..position + |word|] == word;
      if ok { position := position + |word|; }
    }

    method Hex() returns (r: Option<int>)
      requires Valid()
      modifies this`position
      ensures Valid() && r == M.Hex(input, old(position))
      ensures r.Some? ==> position == old(position) + 4
    {
      if |input| - position < 4 { return None; }
      ghost var p := position;
      var n := 0;
      for i := 0 to 4
        invariant Valid() && position == p + i && M.HexRun(input, p, i) == Some(n)
      {
        var digit := M.HexDigit(input[position]);
        position := position + 1;
        if digit < 0 {
          BadDigit(input, p, i + 1, 4);
          return None;
        }
        n := n * 16 + digit;
      }
      return Some(n);
    }

    /** The escape after a backslash and a `u`. */
    method Unicode() returns (r: Option<int>)
      requires Valid()
      modifies this`position
      ensures Valid() && (r.Some? <==> M.Unicode(input, old(position)).Some?)
      ensures r.Some? ==> M.Unicode(input, old(position)) == Some(M.CodePoint(r.value, position))
    {
      hide M.Hex;
      var high := Hex();
      if high.None? { return None; }
      if 0xD800 <= high.value <= 0xDBFF {
        var backslash := Take(M.BACKSLASH);
        if !backslash { return None; }
        var u := Take(117);
        if !u { return None; }
        var low := Hex();
        if low.None? || low.value < 0xDC00 || low.value > 0xDFFF { return None; }
        return Some(0x10000 + (high.value - 0xD800) * 0x400 + (low.value - 0xDC00));
      }
      if 0xDC00 <= high.value <= 0xDFFF { return None; }
      return high;
    }

    /** Agreement with the reader's functions: fails with them, or stands where they stand. */
    ghost predicate Agrees(r: Option<Bytes>, m: Option<M.Text>)
      reads this
    {
      (r.Some? <==> m.Some?) && (r.Some? ==> m == Some(M.Text(r.value, position)))
    }

    method String() returns (r: Option<Bytes>)
      requires Valid()
      modifies this`position
      ensures Valid() && Agrees(r, M.ParseString(input, old(position)))
    {
      hide M.Unicode, Encode, M.Unescaped;
      var quoted := Take(M.QUOTE);
      if !quoted { return None; }
      ghost var start := position;
      var out: Bytes := [];
      while position < |input|
        invariant Valid()
        invariant M.StringTail(input, start, []) == M.StringTail(input, position, out)
        decreases |input| - position
      {
        var c := input[position];
        position := position + 1;
        if c == M.QUOTE { return Some(out); }
        if c < 32 { return None; }
        if c != M.BACKSLASH {
          out := out + [c];
          continue;
        }
        if position == |input| { return None; }
        var escape := input[position];
        position := position + 1;
        if escape == 117 {
          var cp := Unicode();
          if cp.None? { return None; }
          out := AppendUtf8(out, cp.value);
        } else {
          var plain := M.Unescaped(escape);
          if plain.None? { return None; }
          out := out + [plain.value];
        }
      }
      return None;
    }

    predicate Digit()
      reads this
    {
      M.DigitAt(input, position)
    }

    method SkipDigits()
      requires Valid()
      modifies this`position
      ensures Valid() && position == M.Digits(input, old(position))
    {
      while Digit()
        invariant Valid() && M.Digits(input, old(position)) == M.Digits(input, position)
        decreases |input| - position
      {
        position := position + 1;
      }
    }

    method IntegerPart() returns (ok: bool)
      requires Valid()
      modifies this`position
      ensures Valid() && (ok <==> M.IntegerEnd(input, old(position)).Some?)
      ensures ok ==> M.IntegerEnd(input, old(position)) == Some(position)
    {
      hide M.Digits;
      var zero := Take(48);
      if zero { return !Digit(); }
      if !Digit() { return false; }
      position := position + 1;
      SkipDigits();
      return true;
    }

    method FractionPart() returns (ok: bool)
      requires Valid()
      modifies this`position
      ensures Valid() && (ok <==> M.FractionEnd(input, old(position)).Some?)
      ensures ok ==> M.FractionEnd(input, old(position)) == Some(position)
    {
      hide M.Digits;
      var dot := Take(46);
      if !dot { return true; }
      if !Digit() { return false; }
      SkipDigits();
      return true;
    }

    method ExponentPart() returns (ok: bool)
      requires Valid()
      modifies this`position
      ensures Valid() && (ok <==> M.ExponentEnd(input, old(position)).Some?)
      ensures ok ==> M.ExponentEnd(input, old(position)) == Some(position)
    {
      hide M.Digits;
      var e := Take(101);
      if !e { e := Take(69); }
      if !e { return true; }
      var plus := Take(43);
      if !plus { var minus := Take(45); }
      if !Digit() { return false; }
      SkipDigits();
      return true;
    }

    method Number() returns (r: Option<Bytes>)
      requires Valid()
      modifies this`position
      ensures Valid() && (r.Some? <==> M.NumberEnd(input, old(position)).Some?)
      ensures r.Some? ==>
                M.NumberEnd(input, old(position)) == Some(position) && r == Some(input[old(position)..position])
    {
      hide M.IntegerEnd, M.FractionEnd, M.ExponentEnd;
      var begin := position;
      var minus := Take(45);
      var whole := IntegerPart();
      if !whole { return None; }
      var fraction := FractionPart();
      if !fraction { return None; }
      var exponent := ExponentPart();
      if !exponent { return None; }
      return Some(input[begin..position]);
    }

    ghost predicate Stands(r: Option<M.Value>, m: Option<M.Node>)
      reads this
    {
      (r.Some? <==> m.Some?) && (r.Some? ==> m == Some(M.Node(r.value, position, nodes)))
    }

    method Value(depth: nat) returns (r: Option<M.Value>)
      requires Valid()
      modifies this
      ensures Valid() && Stands(r, M.ParseValue(input, old(position), old(nodes), depth))
      decreases |input| - position, 1
    {
      hide M.StringTail, M.NumberEnd, M.ParseMembers, M.ParseElements, M.Spaces, M.Literal;
      if depth > M.MAX_DEPTH { return None; }
      nodes := nodes + 1;
      if nodes > M.MAX_NODES { return None; }
      Spaces();
      if position == |input| { return None; }
      if input[position] == M.QUOTE {
        var text := String();
        if text.None? { return None; }
        return Some(M.String(text.value));
      }
      var c := input[position];
      if c == M.OPEN_BRACE || c == M.OPEN_BRACKET {
        position := position + 1;
        Spaces();
        var closed := Take(if c == M.OPEN_BRACE then M.CLOSE_BRACE else M.CLOSE_BRACKET);
        if closed { return Some(if c == M.OPEN_BRACE then M.Object(map[]) else M.Array([])); }
        if c == M.OPEN_BRACE { r := Members(depth); } else { r := Elements(depth); }
        return r;
      }
      if c == 110 {
        var isNull := Literal(M.NULL_WORD);
        return if isNull then Some(M.Null) else None;
      }
      if c == 116 {
        var isTrue := Literal(M.TRUE_WORD);
        return if isTrue then Some(M.Boolean(true)) else None;
      }
      if c == 102 {
        var isFalse := Literal(M.FALSE_WORD);
        return if isFalse then Some(M.Boolean(false)) else None;
      }
      var number := Number();
      if number.None? { return None; }
      return Some(M.Number(number.value));
    }

    /** The loop over the members of an object that is not empty. */
    method Members(depth: nat) returns (r: Option<M.Value>)
      requires Valid()
      modifies this
      ensures Valid() && Stands(r, M.ParseMembers(input, old(position), old(nodes), depth, map[]))
      decreases |input| - position, 2
    {
      hide M.ParseString, M.ParseValue, M.Spaces;
      var members: map<Bytes, M.Value> := map[];
      while true
        invariant Valid() && position >= old(position)
        invariant M.ParseMembers(input, old(position), old(nodes), depth, map[])
                  == M.ParseMembers(input, position, nodes, depth, members)
        decreases |input| - position
      {
        Spaces();
        var key := String();
        if key.None? { return None; }
        Spaces();
        var colon := Take(M.COLON);
        if !colon { return None; }
        var child := Value(depth + 1);
        if child.None? { return None; }
        if key.value in members { return None; }
        members := members[key.value := child.value];
        Spaces();
        var closed := Take(M.CLOSE_BRACE);
        if closed { return Some(M.Object(members)); }
        var more := Take(M.COMMA);
        if !more { return None; }
      }
    }

    /** The loop over the elements of an array that is not empty. */
    method Elements(depth: nat) returns (r: Option<M.Value>)
      requires Valid()
      modifies this
      ensures Valid() && Stands(r, M.ParseElements(input, old(position), old(nodes), depth, []))
      decreases |input| - position, 2
    {
      hide M.ParseValue, M.Spaces;
      var items: seq<M.Value> := [];
      while true
        invariant Valid() && position >= old(position)
        invariant M.ParseElements(input, old(position), old(nodes), depth, [])
                  == M.ParseElements(input, position, nodes, depth, items)
        decreases |input| - position
      {
        var child := Value(depth + 1);
        if child.None? { return None; }
        items := items + [child.value];
        Spaces();
        var closed := Take(M.CLOSE_BRACKET);
        if closed { return Some(M.Array(items)); }
        var more := Take(M.COMMA);
        if !more { return None; }
      }
    }

    method Read() returns (r: Option<M.Value>)
      requires Valid() && position == 0 && nodes == 0
      modifies this
      ensures r == M.Parse(input)
    {
      hide M.ParseValue, M.Spaces;
      if |input| > M.MAX_INPUT { return None; }
      var utf8 := ValidUtf8(input);
      if !utf8 { return None; }
      r := Value(0);
      if r.None? { return None; }
      Spaces();
      if position != |input| { return None; }
    }
  }

  method Quote(s: Bytes) returns (r: Option<Bytes>)
    ensures r == M.Quote(s)
  {
    hide M.QuoteByte;
    var utf8 := ValidUtf8(s);
    if !utf8 { return None; }
    var out := [M.QUOTE];
    assert s[..0] == [];
    for i := 0 to |s|
      invariant out == [M.QUOTE] + M.QuoteAll(s[..i])
    {
      assert s[..i + 1][..i] == s[..i];
      out := out + M.QuoteByte(s[i]);
    }
    assert s[..|s|] == s;
    return Some(out + [M.QUOTE]);
  }
}
