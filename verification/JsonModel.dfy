/** The JSON reader and `quote` as functions of the input (RFC 8259). */
module JsonModel {
  import opened Wire
  import opened Utf8

  const MAX_INPUT: int := 1024 * 1024
  const MAX_DEPTH: int := 32
  const MAX_NODES: int := 16384

  const QUOTE: Byte := 34
  const BACKSLASH: Byte := 92
  const OPEN_BRACE: Byte := 123
  const CLOSE_BRACE: Byte := 125
  const OPEN_BRACKET: Byte := 91
  const CLOSE_BRACKET: Byte := 93
  const COLON: Byte := 58
  const COMMA: Byte := 44

  datatype Value =
    | Null
    | Boolean(holds: bool)
    | Number(text: Bytes)
    | String(text: Bytes)
    | Array(items: seq<Value>)
    | Object(members: map<Bytes, Value>)

  // ---------------------------------------------------------------- lexical helpers

  predicate At(b: Bytes, p: nat, c: Byte) {
    p < |b| && b[p] == c
  }

  predicate IsSpace(c: Byte) {
    c == 32 || c == 13 || c == 10 || c == 9
  }

  function Spaces(b: Bytes, p: nat): (q: nat)
    requires p <= |b|
    ensures p <= q <= |b|
    decreases |b| - p
  {
    if p < |b| && IsSpace(b[p]) then Spaces(b, p + 1) else p
  }

  function HexDigit(c: Byte): (d: int)
    ensures -1 <= d < 16
  {
    if 48 <= c <= 57 then c - 48
    else if 97 <= c <= 102 then c - 97 + 10
    else if 65 <= c <= 70 then c - 65 + 10
    else -1
  }

  /** The value of `k` hexadecimal digits at `p`. */
  function HexRun(b: Bytes, p: nat, k: nat): (n: Option<int>)
    requires p + k <= |b| && k <= 4
    ensures n.Some? ==>
              0 <= n.value
              < if k == 0 then 1 else if k == 1 then 16 else if k == 2 then 256 else if k == 3 then 4096 else 65536
  {
    if k == 0 then Some(0)
    else match HexRun(b, p, k - 1)
      case None => None
      case Some(n) => if HexDigit(b[p + k - 1]) < 0 then None else Some(n * 16 + HexDigit(b[p + k - 1]))
  }

  /** Four hexadecimal digits at `p`. */
  function Hex(b: Bytes, p: nat): (n: Option<int>)
    requires p <= |b|
    ensures n.Some? ==> p + 4 <= |b| && 0 <= n.value < 0x1_0000
  {
    if |b| - p < 4 then None else HexRun(b, p, 4)
  }

  predicate Literal(b: Bytes, p: nat, word: Bytes)
    requires p <= |b|
  {
    p + |word| <= |b| && b[p..p + |word|] == word
  }

  const NULL_WORD: Bytes := [110, 117, 108, 108]
  const TRUE_WORD: Bytes := [116, 114, 117, 101]
  const FALSE_WORD: Bytes := [102, 97, 108, 115, 101]

  // ---------------------------------------------------------------- strings

  /** What a backslash followed by `c` stands for, `u` aside. */
  function Unescaped(c: Byte): Option<Byte> {
    if c == QUOTE || c == BACKSLASH || c == 47 then Some(c)
    else if c == 98 then Some(8)
    else if c == 102 then Some(12)
    else if c == 110 then Some(10)
    else if c == 114 then Some(13)
    else if c == 116 then Some(9)
    else None
  }

  datatype CodePoint = CodePoint(c: int, pos: nat)

  /** The digits after a backslash and a `u`: one scalar, from two escapes when the first is a high surrogate. */
  function Unicode(b: Bytes, p: nat): (r: Option<CodePoint>)
    requires p <= |b|
    ensures r.Some? ==> p < r.value.pos <= |b| && Scalar(r.value.c)
  {
    match Hex(b, p)
    case None => None
    case Some(high) =>
      if 0xD800 <= high <= 0xDBFF then
        if !At(b, p + 4, BACKSLASH) || !At(b, p + 5, 117) then None
        else match Hex(b, p + 6)
          case None => None
          case Some(low) =>
            if low < 0xDC00 || low > 0xDFFF then None
            else Some(CodePoint(0x10000 + (high - 0xD800) * 0x400 + (low - 0xDC00), p + 10))
      else if 0xDC00 <= high <= 0xDFFF then None
      else Some(CodePoint(high, p + 4))
  }

  datatype Text = Text(text: Bytes, pos: nat)

  /** The rest of a string after its opening quote, `out` being what it holds so far. */
  function StringTail(b: Bytes, p: nat, out: Bytes): (r: Option<Text>)
    requires p <= |b|
    ensures r.Some? ==> p < r.value.pos <= |b|
    decreases |b| - p
  {
    if p == |b| then None
    else if b[p] == QUOTE then Some(Text(out, p + 1))
    else if b[p] < 32 then None
    else if b[p] != BACKSLASH then StringTail(b, p + 1, out + [b[p]])
    else if p + 1 == |b| then None
    else if b[p + 1] == 117 then
      match Unicode(b, p + 2)
      case None => None
      case Some(cp) => StringTail(b, cp.pos, out + Encode(cp.c))
    else match Unescaped(b[p + 1])
      case None => None
      case Some(c) => StringTail(b, p + 2, out + [c])
  }

  function ParseString(b: Bytes, p: nat): (r: Option<Text>)
    requires p <= |b|
    ensures r.Some? ==> p < r.value.pos <= |b|
  {
    if At(b, p, QUOTE) then StringTail(b, p + 1, []) else None
  }

  // ---------------------------------------------------------------- numbers

  predicate DigitAt(b: Bytes, p: nat) {
    p < |b| && 48 <= b[p] <= 57
  }

  function Digits(b: Bytes, p: nat): (q: nat)
    requires p <= |b|
    ensures p <= q <= |b|
    decreases |b| - p
  {
    if DigitAt(b, p) then Digits(b, p + 1) else p
  }

  function IntegerEnd(b: Bytes, p: nat): (r: Option<nat>)
    requires p <= |b|
    ensures r.Some? ==> p < r.value <= |b|
  {
    if At(b, p, 48) then if DigitAt(b, p + 1) then None else Some(p + 1)
    else if DigitAt(b, p) then Some(Digits(b, p + 1))
    else None
  }

  function FractionEnd(b: Bytes, p: nat): (r: Option<nat>)
    requires p <= |b|
    ensures r.Some? ==> p <= r.value <= |b|
  {
    if !At(b, p, 46) then Some(p)
    else if DigitAt(b, p + 1) then Some(Digits(b, p + 1))
    else None
  }

  function AfterSign(b: Bytes, p: nat): (q: nat)
    requires p <= |b|
    ensures p <= q <= |b|
  {
    if At(b, p, 43) || At(b, p, 45) then p + 1 else p
  }

  function ExponentEnd(b: Bytes, p: nat): (r: Option<nat>)
    requires p <= |b|
    ensures r.Some? ==> p <= r.value <= |b|
  {
    if !At(b, p, 101) && !At(b, p, 69) then Some(p)
    else if DigitAt(b, AfterSign(b, p + 1)) then Some(Digits(b, AfterSign(b, p + 1)))
    else None
  }

  function AfterMinus(b: Bytes, p: nat): (q: nat)
    requires p <= |b|
    ensures p <= q <= |b|
  {
    if At(b, p, 45) then p + 1 else p
  }

  function NumberEnd(b: Bytes, p: nat): (r: Option<nat>)
    requires p <= |b|
    ensures r.Some? ==> p < r.value <= |b|
  {
    match IntegerEnd(b, AfterMinus(b, p))
    case None => None
    case Some(i) => match FractionEnd(b, i)
      case None => None
      case Some(f) => ExponentEnd(b, f)
  }

  // ---------------------------------------------------------------- values

  datatype Node = Node(v: Value, pos: nat, nodes: nat)

  function Leaf(v: Value, pos: nat, nodes: nat): Option<Node> {
    Some(Node(v, pos, nodes))
  }

  function ParseValue(b: Bytes, p: nat, nodes: nat, depth: nat): (r: Option<Node>)
    requires p <= |b|
    ensures r.Some? ==> p < r.value.pos <= |b|
    decreases |b| - p, 0
  {
    if depth > MAX_DEPTH || nodes + 1 > MAX_NODES then None
    else
      var q := Spaces(b, p);
      if q == |b| then None
      else if b[q] == QUOTE then
        match StringTail(b, q + 1, [])
        case None => None
        case Some(t) => Leaf(String(t.text), t.pos, nodes + 1)
      else if b[q] == OPEN_BRACE then
        var r := Spaces(b, q + 1);
        if At(b, r, CLOSE_BRACE) then Leaf(Object(map[]), r + 1, nodes + 1)
          else ParseMembers(b, r, nodes + 1, depth, map[])
      else if b[q] == OPEN_BRACKET then
        var r := Spaces(b, q + 1);
        if At(b, r, CLOSE_BRACKET) then Leaf(Array([]), r + 1, nodes + 1) else ParseElements(b, r, nodes + 1, depth, [])
      else if b[q] == 110 then if Literal(b, q, NULL_WORD) then Leaf(Null, q + 4, nodes + 1) else None
      else if b[q] == 116 then if Literal(b, q, TRUE_WORD) then Leaf(Boolean(true), q + 4, nodes + 1) else None
      else if b[q] == 102 then if Literal(b, q, FALSE_WORD) then Leaf(Boolean(false), q + 5, nodes + 1) else None
      else match NumberEnd(b, q)
        case None => None
        case Some(e) => Leaf(Number(b[q..e]), e, nodes + 1)
  }

  /** The members of an object from `p` on, the ones in `members` being read; a repeated key fails. */
  function ParseMembers(b: Bytes, p: nat, nodes: nat, depth: nat, members: map<Bytes, Value>): (r: Option<Node>)
    requires p <= |b|
    ensures r.Some? ==> p < r.value.pos <= |b|
    decreases |b| - p, 1
  {
    match ParseString(b, Spaces(b, p))
    case None => None
    case Some(key) =>
      var c := Spaces(b, key.pos);
      if !At(b, c, COLON) then None
      else match ParseValue(b, c + 1, nodes, depth + 1)
        case None => None
        case Some(child) =>
          if key.text in members then None
          else
            var e := Spaces(b, child.pos);
            var more := members[key.text := child.v];
            if At(b, e, CLOSE_BRACE) then Leaf(Object(more), e + 1, child.nodes)
            else if At(b, e, COMMA) then ParseMembers(b, e + 1, child.nodes, depth, more)
            else None
  }

  function ParseElements(b: Bytes, p: nat, nodes: nat, depth: nat, items: seq<Value>): (r: Option<Node>)
    requires p <= |b|
    ensures r.Some? ==> p < r.value.pos <= |b|
    decreases |b| - p, 1
  {
    match ParseValue(b, p, nodes, depth + 1)
    case None => None
    case Some(child) =>
      var e := Spaces(b, child.pos);
      var more := items + [child.v];
      if At(b, e, CLOSE_BRACKET) then Leaf(Array(more), e + 1, child.nodes)
      else if At(b, e, COMMA) then ParseElements(b, e + 1, child.nodes, depth, more)
      else None
  }

  function Parse(b: Bytes): Option<Value> {
    if |b| > MAX_INPUT || !Valid(b) then None
    else match ParseValue(b, 0, 0, 0)
      case None => None
      case Some(n) => if Spaces(b, n.pos) == |b| then Some(n.v) else None
  }

  // ---------------------------------------------------------------- quoting

  function LowerHex(d: int): (c: Byte)
    requires 0 <= d < 16
    ensures HexDigit(c) == d
  {
    if d < 10 then 48 + d else 97 + d - 10
  }

  function QuoteByte(c: Byte): Bytes {
    if c == QUOTE || c == BACKSLASH then [BACKSLASH, c]
    else if c < 32 then [BACKSLASH, 117, 48, 48, LowerHex(c / 16), LowerHex(c % 16)]
    else [c]
  }

  function QuoteAll(s: Bytes): Bytes {
    if s == [] then [] else QuoteAll(s[..|s| - 1]) + QuoteByte(s[|s| - 1])
  }

  function Quote(s: Bytes): Option<Bytes> {
    if Valid(s) then Some([QUOTE] + QuoteAll(s) + [QUOTE]) else None
  }
}
