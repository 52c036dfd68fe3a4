/** Whole documents, in any spelling of their strings and with any white space: the reader reads back what is written,
    exactly within its limits. */
module JsonDocuments {
  import opened Wire
  import opened Utf8
  import opened JsonModel
  import opened JsonStrings
  import opened JsonSpellings

  /** A document as it is written: strings in some spelling, object members in some order, and white space wherever
      section 2 of RFC 8259 allows it. The gap is that of an empty array or object. */
  datatype Doc =
    | DocNull
    | DocBool(holds: bool)
    | DocNumber(text: Bytes)
    | DocString(chars: seq<Spelling>)
    | DocArray(gap: Bytes, items: seq<Item>)
    | DocObject(gap: Bytes, members: seq<Member>)

  /** A value with the white space around it. */
  datatype Item = Item(before: Bytes, doc: Doc, after: Bytes)

  /** A key with the white space around it, and its value. */
  datatype Member = Member(before: Bytes, key: seq<Spelling>, after: Bytes, item: Item)

  /** Section 2: space, horizontal tab, line feed, carriage return. */
  predicate White(c: Byte) {
    c in [0x20, 0x09, 0x0A, 0x0D]
  }

  predicate AllWhite(w: Bytes) {
    forall i :: 0 <= i < |w| ==> White(w[i])
  }

  // ---------------------------------------------------------------- what may be written

  /** Strings and keys are written in the spellings and in UTF-8, numbers follow the grammar. */
  ghost predicate Proper(d: Doc)
    decreases d, 0
  {
    match d
    case DocNumber(text) => IsNumber(text)
    case DocString(chars) => Written(chars)
    case DocArray(gap, items) => AllWhite(gap) && ProperItems(items)
    case DocObject(gap, members) => AllWhite(gap) && ProperMembers(members)
    case _ => true
  }

  ghost predicate Written(ss: seq<Spelling>) {
    AllSpellings(ss) && Valid(SpellAll(ss))
  }

  ghost predicate ProperItem(item: Item)
    decreases item, 1
  {
    AllWhite(item.before) && AllWhite(item.after) && Proper(item.doc)
  }

  ghost predicate ProperItems(items: seq<Item>)
    decreases items, 1
  {
    items != [] ==> ProperItem(items[0]) && ProperItems(items[1..])
  }

  ghost predicate ProperMembers(members: seq<Member>)
    decreases members, 1
  {
    members != [] ==>
      && AllWhite(members[0].before) && Written(members[0].key) && AllWhite(members[0].after)
      && ProperItem(members[0].item) && ProperMembers(members[1..])
  }

  /** No object in it has two members of the same key, however the keys are spelled. */
  ghost predicate Unique(d: Doc)
    requires Proper(d)
    decreases d, 0
  {
    match d
    case DocArray(_, items) => UniqueItems(items)
    case DocObject(_, members) => UniqueMembers(members, {})
    case _ => true
  }

  ghost predicate UniqueItems(items: seq<Item>)
    requires ProperItems(items)
    decreases items, 1
  {
    items != [] ==>
      assert ProperItem(items[0]);
      Unique(items[0].doc) && UniqueItems(items[1..])
  }

  /** The keys are none of `keys`, and differ from each other. */
  ghost predicate UniqueMembers(members: seq<Member>, keys: set<Bytes>)
    requires ProperMembers(members)
    decreases members, 1
  {
    hide Valid, SpellAll, AllWhite;
    members != [] ==>
      assert ProperItem(members[0].item) && Written(members[0].key);
      var key := StoodAll(members[0].key);
      key !in keys && Unique(members[0].item.doc) && UniqueMembers(members[1..], keys + {key})
  }

  // ---------------------------------------------------------------- writing

  function Quoted(ss: seq<Spelling>): Bytes
    requires AllSpellings(ss)
  {
    [QUOTE] + SpellAll(ss) + [QUOTE]
  }

  ghost function Print(d: Doc): Bytes
    requires Proper(d)
    decreases d, 0
  {
    match d
    case DocNull => NULL_WORD
    case DocBool(holds) => if holds then TRUE_WORD else FALSE_WORD
    case DocNumber(text) => text
    case DocString(chars) => Quoted(chars)
    case DocArray(gap, items) => [OPEN_BRACKET] + if items == [] then gap + [CLOSE_BRACKET] else PrintItems(items)
    case DocObject(gap, members) => [OPEN_BRACE] + if members == [] then gap + [CLOSE_BRACE] else PrintMembers(members)
  }

  ghost function PrintItem(item: Item): Bytes
    requires ProperItem(item)
    decreases item, 1
  {
    item.before + Print(item.doc) + item.after
  }

  ghost function PrintItems(items: seq<Item>): Bytes
    requires items != [] && ProperItems(items)
    decreases items, 1
  {
    PrintItem(items[0]) + if |items| == 1 then [CLOSE_BRACKET] else [COMMA] + PrintItems(items[1..])
  }

  /** A key, its colon, and the value. */
  ghost function PrintKey(m: Member): Bytes
    requires AllSpellings(m.key)
  {
    m.before + Quoted(m.key) + m.after + [COLON]
  }

  ghost function PrintMembers(members: seq<Member>): Bytes
    requires members != [] && ProperMembers(members)
    decreases members, 1
  {
    PrintKey(members[0]) + PrintItem(members[0].item)
    + if |members| == 1 then [CLOSE_BRACE] else [COMMA] + PrintMembers(members[1..])
  }

  // ---------------------------------------------------------------- meaning

  ghost function Meaning(d: Doc): Value
    requires Proper(d)
    decreases d, 0
  {
    match d
    case DocNull => Null
    case DocBool(holds) => Boolean(holds)
    case DocNumber(text) => Number(text)
    case DocString(chars) => String(StoodAll(chars))
    case DocArray(_, items) => Array(Meanings(items))
    case DocObject(_, members) => Object(Table(members, map[]))
  }

  ghost function Meanings(items: seq<Item>): seq<Value>
    requires ProperItems(items)
    decreases items, 1
  {
    if items == [] then []
    else
      assert ProperItem(items[0]);
      [Meaning(items[0].doc)] + Meanings(items[1..])
  }

  ghost function Table(members: seq<Member>, before: map<Bytes, Value>): map<Bytes, Value>
    requires ProperMembers(members)
    decreases members, 1
  {
    hide Valid, SpellAll, AllWhite;
    if members == [] then before
    else
      assert ProperItem(members[0].item) && Written(members[0].key);
      Table(members[1..], before[StoodAll(members[0].key) := Meaning(members[0].item.doc)])
  }

  /** How many values a document holds, and how deep they nest. */
  function Nodes(d: Doc): nat
    decreases d, 0
  {
    match d
    case DocArray(_, items) => 1 + NodesOf(items)
    case DocObject(_, members) => 1 + NodesIn(members)
    case _ => 1
  }

  function NodesOf(items: seq<Item>): nat
    decreases items, 1
  {
    if items == [] then 0 else Nodes(items[0].doc) + NodesOf(items[1..])
  }

  function NodesIn(members: seq<Member>): nat
    decreases members, 1
  {
    if members == [] then 0 else Nodes(members[0].item.doc) + NodesIn(members[1..])
  }

  function Most(a: nat, b: nat): nat {
    if a > b then a else b
  }

  function Nesting(d: Doc): nat
    decreases d, 0
  {
    match d
    case DocArray(_, items) => NestingOf(items)
    case DocObject(_, members) => NestingIn(members)
    case _ => 0
  }

  function NestingOf(items: seq<Item>): nat
    decreases items, 1
  {
    if items == [] then 0 else Most(1 + Nesting(items[0].doc), NestingOf(items[1..]))
  }

  function NestingIn(members: seq<Member>): nat
    decreases members, 1
  {
    if members == [] then 0 else Most(1 + Nesting(members[0].item.doc), NestingIn(members[1..]))
  }

  predicate Fits(depth: nat, nesting: nat, nodes: nat, more: nat) {
    depth + nesting <= MAX_DEPTH && nodes + more <= MAX_NODES
  }

  // ---------------------------------------------------------------- numbers read back

  /** What may follow a value. */
  predicate EndsAt(b: Bytes, p: nat) {
    p >= |b| || White(b[p]) || b[p] == COMMA || b[p] == CLOSE_BRACKET || b[p] == CLOSE_BRACE
  }

  lemma {:induction false} DigitsStop(b: Bytes, p: nat, t: Bytes)
    requires Stands(b, p, t) && AllDigits(t) && !DigitAt(b, p + |t|)
    ensures Digits(b, p) == p + |t|
    decreases |t|
  {
    if t != [] {
      StandsAt(b, p, t, 0);
      StandsParts(b, p, [t[0]], t[1..]);
      assert [t[0]] + t[1..] == t;
      DigitsStop(b, p + 1, t[1..]);
    }
  }

  lemma IntegerReads(b: Bytes, p: nat, t: Bytes)
    requires Stands(b, p, t) && IsInteger(t) && !DigitAt(b, p + |t|)
    ensures IntegerEnd(b, p) == Some(p + |t|) && DigitAt(b, p)
  {
    hide Digits;
    StandsAt(b, p, t, 0);
    StandsParts(b, p, [t[0]], t[1..]);
    assert [t[0]] + t[1..] == t;
    if t[0] != 48 { DigitsStop(b, p + 1, t[1..]); }
  }

  lemma FractionReads(b: Bytes, p: nat, t: Bytes)
    requires Stands(b, p, t) && IsFraction(t) && !DigitAt(b, p + |t|) && !At(b, p + |t|, 46)
    ensures FractionEnd(b, p) == Some(p + |t|)
    ensures !DigitAt(b, p)
  {
    hide Digits;
    if t != [] {
      StandsAt(b, p, t, 0);
      StandsAt(b, p, t, 1);
      StandsParts(b, p, [t[0]], t[1..]);
      assert [t[0]] + t[1..] == t;
      DigitsStop(b, p + 1, t[1..]);
      assert DigitAt(b, p + 1);
    }
  }

  lemma ExponentReads(b: Bytes, p: nat, t: Bytes)
    requires Stands(b, p, t) && IsExponent(t) && EndsAt(b, p + |t|)
    ensures ExponentEnd(b, p) == Some(p + |t|)
    ensures !DigitAt(b, p) && !At(b, p, 46)
  {
    hide Digits;
    if t != [] {
      StandsAt(b, p, t, 0);
      StandsAt(b, p, t, 1);
      if AllDigits(t[1..]) {
        TailStops(b, p, t, 1);
      } else {
        StandsAt(b, p, t, 2);
        TailStops(b, p, t, 2);
      }
    }
  }

  /** The digits of an exponent end it. */
  lemma TailStops(b: Bytes, p: nat, t: Bytes, k: nat)
    requires Stands(b, p, t) && k < |t| && AllDigits(t[k..]) && EndsAt(b, p + |t|)
    ensures p + k < |b| && b[p + k] == t[k] && DigitAt(b, p + k) && Digits(b, p + k) == p + |t|
  {
    hide Digits;
    StandsAt(b, p, t, k);
    StandsParts(b, p, t[..k], t[k..]);
    assert t[..k] + t[k..] == t && t[k..][0] == t[k];
    DigitsStop(b, p + k, t[k..]);
  }

  lemma NumberReads(b: Bytes, p: nat, t: Bytes)
    requires Stands(b, p, t) && IsNumber(t) && EndsAt(b, p + |t|)
    ensures NumberEnd(b, p) == Some(p + |t|)
    ensures p < |b| && (b[p] == 45 || 48 <= b[p] <= 57)
  {
    hide IsInteger, IsFraction, IsExponent, IntegerEnd, FractionEnd, ExponentEnd, Stands, EndsAt;
    var sign, whole, fraction, exponent :| NumberOf(t, sign, whole, fraction, exponent);
    StandsParts(b, p, sign + whole + fraction, exponent);
    StandsParts(b, p, sign + whole, fraction);
    StandsParts(b, p, sign, whole);
    var w := p + |sign|;
    var f := w + |whole|;
    var e := f + |fraction|;
    ExponentReads(b, e, exponent);
    FractionReads(b, f, fraction);
    IntegerReads(b, w, whole);
    SignReads(b, p, sign);
  }

  lemma SignReads(b: Bytes, p: nat, sign: Bytes)
    requires Stands(b, p, sign) && (sign == [] || sign == [45]) && DigitAt(b, p + |sign|)
    ensures p < |b| && (b[p] == 45 || 48 <= b[p] <= 57)
    ensures AfterMinus(b, p) == p + |sign|
  {
    if sign != [] { StandsAt(b, p, sign, 0); }
  }

  // ---------------------------------------------------------------- white space

  lemma WhiteIsSpace(c: Byte)
    ensures White(c) <==> IsSpace(c)
  {
  }

  lemma NoSpaces(b: Bytes, p: nat)
    requires p <= |b| && (p == |b| || !IsSpace(b[p]))
    ensures Spaces(b, p) == p
  {
  }

  lemma {:induction false} SpacesSkip(b: Bytes, p: nat, w: Bytes)
    requires Stands(b, p, w) && AllWhite(w) && (p + |w| == |b| || !White(b[p + |w|]))
    ensures Spaces(b, p) == p + |w| && Spaces(b, p + |w|) == p + |w|
    decreases |w|
  {
    if w == [] {
      if p < |b| { WhiteIsSpace(b[p]); }
      NoSpaces(b, p);
    } else {
      StandsAt(b, p, w, 0);
      StandsParts(b, p, [w[0]], w[1..]);
      assert [w[0]] + w[1..] == w;
      WhiteIsSpace(w[0]);
      SpacesSkip(b, p + 1, w[1..]);
    }
  }

  lemma {:induction false} SpacesReach(b: Bytes, p: nat)
    requires p <= |b|
    ensures Spaces(b, Spaces(b, p)) == Spaces(b, p)
    decreases |b| - p
  {
    if p < |b| && IsSpace(b[p]) { SpacesReach(b, p + 1); }
  }

  // ---------------------------------------------------------------- values read back

  /** The first byte of a value is no space and closes nothing. */
  lemma StartsWell(d: Doc, b: Bytes, p: nat)
    requires Proper(d) && Stands(b, p, Print(d))
    ensures Print(d) != [] && p < |b| && b[p] == Print(d)[0]
    ensures d.DocNumber? ==> b[p] == 45 || 48 <= b[p] <= 57
    ensures !White(b[p]) && b[p] != CLOSE_BRACKET && Spaces(b, p) == p
  {
    hide SpellAll, PrintItems, PrintMembers, Stands, IsNumber, Spaces;
    if d.DocNumber? { NumberStarts(d.text); }
    StandsAt(b, p, Print(d), 0);
    WhiteIsSpace(b[p]);
    NoSpaces(b, p);
  }

  lemma NumberStarts(t: Bytes)
    requires IsNumber(t)
    ensures t != [] && (t[0] == 45 || 48 <= t[0] <= 57)
  {
    var sign, whole, fraction, exponent :| NumberOf(t, sign, whole, fraction, exponent);
    if sign == [] { assert t[0] == whole[0]; } else { assert t[0] == sign[0]; }
  }

  lemma WordStands(b: Bytes, p: nat, word: Bytes)
    requires Stands(b, p, word)
    ensures Literal(b, p, word)
  {
  }

  function Outcome(fits: bool, v: Value, pos: nat, nodes: nat): Option<Node> {
    if fits then Leaf(v, pos, nodes) else None
  }

  /** Reading a value depends only on where it begins. */
  lemma FromStart(b: Bytes, p: nat, nodes: nat, depth: nat)
    requires p <= |b|
    ensures ParseValue(b, p, nodes, depth) == ParseValue(b, Spaces(b, p), nodes, depth)
  {
    hide Spaces, StringTail, NumberEnd, Literal, ParseMembers, ParseElements;
    SpacesReach(b, p);
  }

  lemma LeafReads(d: Doc, b: Bytes, p: nat, nodes: nat, depth: nat)
    requires !d.DocArray? && !d.DocObject? && Proper(d) && Stands(b, p, Print(d)) && EndsAt(b, p + |Print(d)|)
    ensures ParseValue(b, p, nodes, depth) == Outcome(Fits(depth, 0, nodes, 1), Meaning(d), p + |Print(d)|, nodes + 1)
  {
    hide Stands, SpellAll, StringTail, NumberEnd, Spaces, Literal, IsNumber, EndsAt, Written;
    StartsWell(d, b, p);
    match d
    case DocNull => WordStands(b, p, NULL_WORD);
    case DocBool(holds) => WordStands(b, p, if holds then TRUE_WORD else FALSE_WORD);
    case DocNumber(text) =>
      NumberReads(b, p, text);
      NumberSlice(b, p, text);
    case DocString(chars) =>
      WrittenIs(chars);
      QuotedReads(b, p, chars);
    case DocArray(_, _) =>
    case DocObject(_, _) =>
  }

  lemma WrittenIs(ss: seq<Spelling>)
    requires Written(ss)
    ensures AllSpellings(ss) && Valid(SpellAll(ss))
  {
  }

  lemma NumberSlice(b: Bytes, p: nat, text: Bytes)
    requires Stands(b, p, text)
    ensures p + |text| <= |b| && b[p..p + |text|] == text
  {
  }

  lemma QuotedReads(b: Bytes, p: nat, ss: seq<Spelling>)
    requires AllSpellings(ss) && Stands(b, p, Quoted(ss))
    ensures p < |b| && b[p] == QUOTE && !White(b[p])
    ensures StringTail(b, p + 1, []) == Some(Text(StoodAll(ss), p + |Quoted(ss)|))
  {
    hide StringTail, SpellAll, Stands, StoodAll;
    StandsAt(b, p, Quoted(ss), 0);
    assert Quoted(ss) == [QUOTE] + (SpellAll(ss) + [QUOTE]);
    StandsParts(b, p, [QUOTE], SpellAll(ss) + [QUOTE]);
    SpelledReads(b, p + 1, ss, []);
    assert [] + StoodAll(ss) == StoodAll(ss);
  }

  lemma ByteStands(b: Bytes, p: nat, c: Byte)
    requires Stands(b, p, [c])
    ensures At(b, p, c) && p < |b|
  {
    StandsAt(b, p, [c], 0);
  }

  /** Behind white space stands something else: a value ends there, and the space is skipped. */
  lemma SpaceBehind(b: Bytes, p: nat, w: Bytes)
    requires Stands(b, p, w) && AllWhite(w) && p + |w| < |b|
    requires b[p + |w|] == COMMA || b[p + |w|] == CLOSE_BRACKET || b[p + |w|] == CLOSE_BRACE
    ensures EndsAt(b, p) && Spaces(b, p) == p + |w|
  {
    hide Stands;
    SpacesSkip(b, p, w);
    if w != [] { StandsAt(b, p, w, 0); }
  }

  /** The pieces of a value with white space, up to the separator behind it. */
  lemma ItemStands(item: Item, b: Bytes, p: nat, rest: Bytes)
    requires ProperItem(item) && rest != [] && rest[0] in [COMMA, CLOSE_BRACKET, CLOSE_BRACE]
    requires Stands(b, p, PrintItem(item) + rest)
    ensures var v := p + |item.before|;
            var e := v + |Print(item.doc)|;
            var f := p + |PrintItem(item)|;
            && v <= |b| && Spaces(b, p) == v && Stands(b, v, Print(item.doc)) && EndsAt(b, e) && e <= f < |b|
            && Spaces(b, e) == f && b[f] == rest[0] && Stands(b, f, rest)
  {
    hide Stands, Print, Spaces, EndsAt, AllWhite, Proper;
    var v := p + |item.before|;
    var e := v + |Print(item.doc)|;
    var f := p + |PrintItem(item)|;
    StandsParts(b, p, PrintItem(item), rest);
    StandsParts(b, p, item.before + Print(item.doc), item.after);
    StandsParts(b, p, item.before, Print(item.doc));
    StandsAt(b, f, rest, 0);
    StartsWell(item.doc, b, v);
    SpacesSkip(b, p, item.before);
    SpaceBehind(b, e, item.after);
  }

  lemma ItemsStand(items: seq<Item>, b: Bytes, p: nat)
    requires items != [] && ProperItems(items) && Stands(b, p, PrintItems(items))
    ensures ProperItem(items[0]) && ProperItems(items[1..])
    ensures var item := items[0];
            var v := p + |item.before|;
            var e := v + |Print(item.doc)|;
            var f := p + |PrintItem(item)|;
            && v <= |b| && Spaces(b, p) == v && Stands(b, v, Print(item.doc)) && EndsAt(b, e) && e <= f < |b|
            && Spaces(b, e) == f
            && (if |items| == 1 then At(b, f, CLOSE_BRACKET) && |PrintItems(items)| == f + 1 - p
                else At(b, f, COMMA) && !At(b, f, CLOSE_BRACKET) && Stands(b, f + 1, PrintItems(items[1..]))
                     && |PrintItems(items)| == f + 1 - p + |PrintItems(items[1..])|)
  {
    hide Stands, PrintItem, ProperItem, Spaces, EndsAt;
    if |items| == 1 {
      ItemStands(items[0], b, p, [CLOSE_BRACKET]);
    } else {
      var rest := [COMMA] + PrintItems(items[1..]);
      ItemStands(items[0], b, p, rest);
      StandsParts(b, p + |PrintItem(items[0])|, [COMMA], PrintItems(items[1..]));
    }
  }

  lemma OneItem(items: seq<Item>)
    requires items != [] && ProperItems(items)
    ensures ProperItem(items[0]) && Proper(items[0].doc) && ProperItems(items[1..])
    ensures Meanings(items) == [Meaning(items[0].doc)] + Meanings(items[1..])
    ensures NodesOf(items) == Nodes(items[0].doc) + NodesOf(items[1..])
    ensures NestingOf(items) == Most(1 + Nesting(items[0].doc), NestingOf(items[1..]))
    ensures UniqueItems(items) <==> Unique(items[0].doc) && UniqueItems(items[1..])
    ensures |items| == 1 ==>
              Meanings(items[1..]) == [] && NodesOf(items[1..]) == 0 && NestingOf(items[1..]) == 0
                && UniqueItems(items[1..])
  {
    hide Meaning, Nodes, Nesting, Proper, Unique;
  }

  /** One turn of the reader in an array, once it knows what the value and its separator are. */
  lemma ElementStep(b: Bytes, p: nat, nodes: nat, depth: nat, before: seq<Value>)
    requires p <= |b|
    ensures var child := ParseValue(b, p, nodes, depth + 1);
            ParseElements(b, p, nodes, depth, before)
            == if child.None? then None
               else
                 var e := Spaces(b, child.value.pos);
                 var more := before + [child.value.v];
                 if At(b, e, CLOSE_BRACKET) then Leaf(Array(more), e + 1, child.value.nodes)
                 else if At(b, e, COMMA) then ParseElements(b, e + 1, child.value.nodes, depth, more)
                 else None
  {
    hide Spaces, ParseValue;
  }

  /** `p` stands before the white space of the first item, or behind it. */
  lemma {:induction false} ItemsRead(items: seq<Item>, b: Bytes, s: nat, p: nat, nodes: nat, depth: nat,
                                     before: seq<Value>)
    requires items != [] && ProperItems(items) && Stands(b, s, PrintItems(items)) && p <= |b|
    requires p == s || p == s + |items[0].before|
    ensures ParseElements(b, p, nodes, depth, before)
            == Outcome(Fits(depth, NestingOf(items), nodes, NodesOf(items))
              && UniqueItems(items), Array(before + Meanings(items)),
                       s + |PrintItems(items)|, nodes + NodesOf(items))
    decreases items, 1
  {
    hide Stands, PrintItems, PrintItem, ParseValue, ParseElements, Meanings, NodesOf, NestingOf, Meaning, Nodes,
      Nesting,
      Print, Proper, ProperItem, ProperItems, Spaces, EndsAt, Unique, UniqueItems;
    OneItem(items);
    ItemsStand(items, b, s);
    var v, f := s + |items[0].before|, s + |PrintItem(items[0])|;
    SpacesReach(b, s);
    FromStart(b, p, nodes, depth + 1);
    ValueReads(items[0].doc, b, v, nodes, depth + 1);
    ElementStep(b, p, nodes, depth, before);
    var next := nodes + Nodes(items[0].doc);
    var more := before + [Meaning(items[0].doc)];
    assert before + ([Meaning(items[0].doc)] + Meanings(items[1..])) == more + Meanings(items[1..]);
    if |items| == 1 {
      assert more + [] == more;
    } else if ParseValue(b, p, nodes, depth + 1).Some? {
      ItemsRead(items[1..], b, f + 1, f + 1, next, depth, more);
    }
  }

  // ---------------------------------------------------------------- members

  lemma KeyStands(m: Member, b: Bytes, p: nat)
    requires AllWhite(m.before) && AllSpellings(m.key) && AllWhite(m.after) && Stands(b, p, PrintKey(m))
    ensures var k := p + |m.before|;
            var c := p + |PrintKey(m)| - 1;
            && k <= |b| && Spaces(b, p) == k && Stands(b, k, Quoted(m.key)) && k + |Quoted(m.key)| <= c < |b|
            && Spaces(b, k + |Quoted(m.key)|) == c && At(b, c, COLON)
  {
    hide Stands, Quoted, Spaces, AllWhite, StringTail;
    var k := p + |m.before|;
    var e, c := k + |Quoted(m.key)|, p + |PrintKey(m)| - 1;
    StandsParts(b, p, m.before + Quoted(m.key) + m.after, [COLON]);
    StandsParts(b, p, m.before + Quoted(m.key), m.after);
    StandsParts(b, p, m.before, Quoted(m.key));
    ByteStands(b, c, COLON);
    QuotedReads(b, k, m.key);
    SpacesSkip(b, p, m.before);
    SpacesSkip(b, e, m.after);
  }

  lemma MembersStand(members: seq<Member>, b: Bytes, p: nat)
    requires members != [] && ProperMembers(members) && Stands(b, p, PrintMembers(members))
    ensures ProperItem(members[0].item) && AllSpellings(members[0].key) && ProperMembers(members[1..])
    ensures var m := members[0];
            var k, q := p + |m.before|, p + |PrintKey(m)|;
            var v := q + |m.item.before|;
            var e := v + |Print(m.item.doc)|;
            var f := q + |PrintItem(m.item)|;
            && k <= |b| && Spaces(b, p) == k && Stands(b, k, Quoted(m.key)) && k + |Quoted(m.key)| < q <= |b|
            && Spaces(b, k + |Quoted(m.key)|) == q - 1 && At(b, q - 1, COLON)
            && v <= |b| && Spaces(b, q) == v && Stands(b, v, Print(m.item.doc)) && EndsAt(b, e) && e <= f < |b|
            && Spaces(b, e) == f
            && (if |members| == 1 then At(b, f, CLOSE_BRACE) && |PrintMembers(members)| == f + 1 - p
                else At(b, f, COMMA) && !At(b, f, CLOSE_BRACE) && Stands(b, f + 1, PrintMembers(members[1..]))
                     && |PrintMembers(members)| == f + 1 - p + |PrintMembers(members[1..])|)
  {
    hide Stands, PrintItem, PrintKey, Written, Quoted, ProperItem, Spaces, EndsAt, AllWhite;
    var m := members[0];
    WrittenIs(m.key);
    var last := if |members| == 1 then [CLOSE_BRACE] else [COMMA] + PrintMembers(members[1..]);
    assert PrintMembers(members) == PrintKey(m) + (PrintItem(m.item) + last);
    StandsParts(b, p, PrintKey(m), PrintItem(m.item) + last);
    KeyStands(m, b, p);
    ItemStands(m.item, b, p + |PrintKey(m)|, last);
    if |members| > 1 { StandsParts(b, p + |PrintKey(m)| + |PrintItem(m.item)|, [COMMA], PrintMembers(members[1..])); }
  }

  lemma OneMember(members: seq<Member>, before: map<Bytes, Value>)
    requires members != [] && ProperMembers(members)
    ensures AllSpellings(members[0].key) && Proper(members[0].item.doc) && ProperMembers(members[1..])
    ensures Table(members, before)
            == Table(members[1..], before[StoodAll(members[0].key) := Meaning(members[0].item.doc)])
    ensures NodesIn(members) == Nodes(members[0].item.doc) + NodesIn(members[1..])
    ensures NestingIn(members) == Most(1 + Nesting(members[0].item.doc), NestingIn(members[1..]))
    ensures var key := StoodAll(members[0].key);
            UniqueMembers(members, before.Keys)
            <==> key !in before && Unique(members[0].item.doc) && UniqueMembers(members[1..], before.Keys + {key})
    ensures |members| == 1 ==>
              && UniqueMembers(members[1..], before.Keys + {StoodAll(members[0].key)})
              && NodesIn(members[1..]) == 0 && NestingIn(members[1..]) == 0
              && Table(members, before) == before[StoodAll(members[0].key) := Meaning(members[0].item.doc)]
  {
    hide Meaning, Nodes, Nesting, Proper, Valid, Unique, SpellAll, AllWhite;
  }

  /** The reader at a member whose key and colon stand where they should. */
  lemma MemberStep(b: Bytes, p: nat, k: nat, c: nat, nodes: nat, depth: nat, before: map<Bytes, Value>, key: Text)
    requires p <= k < c < |b| && Spaces(b, p) == k && ParseString(b, k) == Some(key) && key.pos <= |b|
    requires Spaces(b, key.pos) == c && At(b, c, COLON)
    ensures var child := ParseValue(b, c + 1, nodes, depth + 1);
            var r := ParseMembers(b, p, nodes, depth, before);
            if child.None? || key.text in before then r.None?
            else
              var e := Spaces(b, child.value.pos);
              var more := before[key.text := child.value.v];
              r == if At(b, e, CLOSE_BRACE) then Leaf(Object(more), e + 1, child.value.nodes)
                   else if At(b, e, COMMA) then ParseMembers(b, e + 1, child.value.nodes, depth, more)
                   else None
  {
    hide Spaces, ParseString, ParseValue;
  }

  lemma KeyReads(b: Bytes, k: nat, ss: seq<Spelling>)
    requires AllSpellings(ss) && Stands(b, k, Quoted(ss))
    ensures k < |b| && ParseString(b, k) == Some(Text(StoodAll(ss), k + |Quoted(ss)|)) && k + |Quoted(ss)| <= |b|
  {
    hide Stands, StringTail, Quoted, StoodAll;
    QuotedReads(b, k, ss);
    StandsWithin(b, k, Quoted(ss));
  }

  lemma StandsWithin(b: Bytes, p: nat, text: Bytes)
    requires Stands(b, p, text)
    ensures p + |text| <= |b|
  {
  }

  lemma {:induction false} MembersRead(members: seq<Member>, b: Bytes, s: nat, p: nat, nodes: nat, depth: nat,
                                       before: map<Bytes, Value>)
    requires members != [] && ProperMembers(members) && Stands(b, s, PrintMembers(members))
    requires p <= |b| && (p == s || p == s + |members[0].before|)
    ensures ParseMembers(b, p, nodes, depth, before)
            == Outcome(Fits(depth, NestingIn(members), nodes, NodesIn(members)) && UniqueMembers(members, before.Keys),
                       Object(Table(members, before)),
                       s + |PrintMembers(members)|, nodes + NodesIn(members))
    decreases members, 1
  {
    hide Stands, PrintMembers, PrintItem, PrintKey, ParseMembers, ParseValue, ParseString, Table, NodesIn, NestingIn,
      Meaning, Nodes, Nesting, Print, Proper, ProperItem, ProperMembers, Spaces, EndsAt, Quoted, StringTail,
      StoodAll, AllSpellings, Unique, UniqueMembers;
    var m := members[0];
    OneMember(members, before);
    MembersStand(members, b, s);
    var k, q := s + |m.before|, s + |PrintKey(m)|;
    var v, f := q + |m.item.before|, q + |PrintItem(m.item)|;
    SpacesReach(b, s);
    KeyReads(b, k, m.key);
    MemberStep(b, p, k, q - 1, nodes, depth, before, Text(StoodAll(m.key), k + |Quoted(m.key)|));
    FromStart(b, q, nodes, depth + 1);
    ValueReads(m.item.doc, b, v, nodes, depth + 1);
    var more := before[StoodAll(m.key) := Meaning(m.item.doc)];
    assert more.Keys == before.Keys + {StoodAll(m.key)};
    if |members| > 1 && ParseValue(b, q, nodes, depth + 1).Some? && StoodAll(m.key) !in before {
      MembersRead(members[1..], b, f + 1, f + 1, nodes + Nodes(m.item.doc), depth, more);
    }
  }

  // ---------------------------------------------------------------- documents read back

  lemma {:induction false} ValueReads(d: Doc, b: Bytes, p: nat, nodes: nat, depth: nat)
    requires Proper(d) && Stands(b, p, Print(d)) && EndsAt(b, p + |Print(d)|)
    ensures ParseValue(b, p, nodes, depth)
            == Outcome(Fits(depth, Nesting(d), nodes, Nodes(d)) && Unique(d), Meaning(d), p + |Print(d)|,
                       nodes + Nodes(d))
    decreases d, 0
  {
    hide Stands, EndsAt, Spaces;
    if d.DocArray? {
      ArrayReads(d, b, p, nodes, depth);
    } else if d.DocObject? {
      ObjectReads(d, b, p, nodes, depth);
    } else {
      LeafReads(d, b, p, nodes, depth);
    }
  }

  lemma OpensArray(b: Bytes, p: nat, q: nat, nodes: nat, depth: nat)
    requires At(b, p, OPEN_BRACKET) && Spaces(b, p) == p && Spaces(b, p + 1) == q
    ensures ParseValue(b, p, nodes, depth)
            == if !Fits(depth, 0, nodes, 1) then None
               else if At(b, q, CLOSE_BRACKET) then Leaf(Array([]), q + 1, nodes + 1)
               else ParseElements(b, q, nodes + 1, depth, [])
  {
    hide Spaces, ParseElements;
  }

  lemma OpensObject(b: Bytes, p: nat, q: nat, nodes: nat, depth: nat)
    requires At(b, p, OPEN_BRACE) && Spaces(b, p) == p && Spaces(b, p + 1) == q
    ensures ParseValue(b, p, nodes, depth)
            == if !Fits(depth, 0, nodes, 1) then None
               else if At(b, q, CLOSE_BRACE) then Leaf(Object(map[]), q + 1, nodes + 1)
               else ParseMembers(b, q, nodes + 1, depth, map[])
  {
    hide Spaces, ParseMembers;
  }

  /** Nothing but white space between the brackets. */
  lemma EmptyStands(b: Bytes, p: nat, open: Byte, gap: Bytes, close: Byte)
    requires AllWhite(gap) && !White(close) && Stands(b, p, [open] + (gap + [close]))
    ensures At(b, p, open) && Spaces(b, p + 1) == p + 1 + |gap| && At(b, p + 1 + |gap|, close)
  {
    hide Stands, Spaces;
    StandsParts(b, p, [open], gap + [close]);
    StandsParts(b, p + 1, gap, [close]);
    ByteStands(b, p, open);
    ByteStands(b, p + 1 + |gap|, close);
    SpacesSkip(b, p + 1, gap);
  }

  lemma {:induction false} ArrayReads(d: Doc, b: Bytes, p: nat, nodes: nat, depth: nat)
    requires d.DocArray? && Proper(d) && Stands(b, p, Print(d))
    ensures ParseValue(b, p, nodes, depth)
            == Outcome(Fits(depth, Nesting(d), nodes, Nodes(d)) && Unique(d), Meaning(d), p + |Print(d)|,
                       nodes + Nodes(d))
    decreases d.items, 2
  {
    hide Stands, Spaces, PrintItems, ParseElements, ParseValue, Meanings, NodesOf, NestingOf, ProperItems, AllWhite,
      UniqueItems;
    StartsWell(d, b, p);
    if d.items == [] {
      EmptyStands(b, p, OPEN_BRACKET, d.gap, CLOSE_BRACKET);
      OpensArray(b, p, p + 1 + |d.gap|, nodes, depth);
      NoItems();
    } else {
      StandsParts(b, p, [OPEN_BRACKET], PrintItems(d.items));
      ItemsStand(d.items, b, p + 1);
      OneItem(d.items);
      var v := p + 1 + |d.items[0].before|;
      StartsWell(d.items[0].doc, b, v);
      OpensArray(b, p, v, nodes, depth);
      if Fits(depth, 0, nodes, 1) { ItemsRead(d.items, b, p + 1, v, nodes + 1, depth, []); }
      assert [] + Meanings(d.items) == Meanings(d.items);
    }
  }

  lemma NoItems()
    ensures Meanings([]) == [] && NodesOf([]) == 0 && NestingOf([]) == 0
    ensures Table([], map[]) == map[] && NodesIn([]) == 0 && NestingIn([]) == 0
    ensures ProperItems([]) && ProperMembers([]) && UniqueItems([]) && UniqueMembers([], {})
  {
  }

  lemma {:induction false} ObjectReads(d: Doc, b: Bytes, p: nat, nodes: nat, depth: nat)
    requires d.DocObject? && Proper(d) && Stands(b, p, Print(d))
    ensures ParseValue(b, p, nodes, depth)
            == Outcome(Fits(depth, Nesting(d), nodes, Nodes(d)) && Unique(d), Meaning(d), p + |Print(d)|,
                       nodes + Nodes(d))
    decreases d.members, 2
  {
    hide Stands, Spaces, PrintMembers, PrintKey, PrintItem, Print, ParseMembers, ParseValue, Table, NodesIn, NestingIn,
      ProperMembers, Quoted, AllWhite, StringTail, EndsAt, UniqueMembers, Unique;
    StartsWell(d, b, p);
    PrintedObject(d);
    if d.members == [] {
      EmptyStands(b, p, OPEN_BRACE, d.gap, CLOSE_BRACE);
      OpensObject(b, p, p + 1 + |d.gap|, nodes, depth);
      NoItems();
    } else {
      StandsParts(b, p, [OPEN_BRACE], PrintMembers(d.members));
      MembersStand(d.members, b, p + 1);
      var k := p + 1 + |d.members[0].before|;
      QuotedReads(b, k, d.members[0].key);
      OpensObject(b, p, k, nodes, depth);
      var none: map<Bytes, Value> := map[];
      assert none.Keys == {};
      if Fits(depth, 0, nodes, 1) { MembersRead(d.members, b, p + 1, k, nodes + 1, depth, none); }
    }
  }

  lemma PrintedObject(d: Doc)
    requires d.DocObject? && Proper(d)
    ensures ProperMembers(d.members) && AllWhite(d.gap) && (Unique(d) <==> UniqueMembers(d.members, {}))
    ensures Print(d) == [OPEN_BRACE] + if d.members == [] then d.gap + [CLOSE_BRACE] else PrintMembers(d.members)
  {
    hide PrintMembers, ProperMembers, UniqueMembers;
  }

  // ---------------------------------------------------------------- a printed document is UTF-8

  lemma BothValid(a: Bytes, b: Bytes)
    requires Valid(a) && Valid(b)
    ensures Valid(a + b)
  {
    RunConcat(Between, a, b);
  }

  lemma {:induction false} AsciiValid(b: Bytes)
    requires forall i :: 0 <= i < |b| ==> b[i] < 0x80
    ensures Valid(b)
  {
    if b != [] { AsciiValid(b[1..]); }
  }

  lemma NumberIsAscii(t: Bytes)
    requires IsNumber(t)
    ensures Valid(t)
  {
    hide Valid;
    var sign, whole, fraction, exponent :| NumberOf(t, sign, whole, fraction, exponent);
    AsciiValid(sign);
    AsciiValid(whole);
    forall i | 0 <= i < |fraction| ensures fraction[i] < 0x80 {
      if i > 0 { assert fraction[i] == fraction[1..][i - 1]; }
    }
    AsciiValid(fraction);
    forall i | 0 <= i < |exponent| ensures exponent[i] < 0x80 {
      if i > 0 { assert exponent[i] == exponent[1..][i - 1]; }
      if i > 1 { assert exponent[i] == exponent[2..][i - 2]; }
    }
    AsciiValid(exponent);
    BothValid(sign, whole);
    BothValid(sign + whole, fraction);
    BothValid(sign + whole + fraction, exponent);
  }

  lemma WhiteIsValid(w: Bytes)
    requires AllWhite(w)
    ensures Valid(w)
  {
    AsciiValid(w);
  }

  lemma QuotedIsValid(ss: seq<Spelling>)
    requires Written(ss)
    ensures AllSpellings(ss) && Valid(Quoted(ss))
  {
    hide Valid, SpellAll;
    AsciiValid([QUOTE]);
    BothValid([QUOTE], SpellAll(ss));
    BothValid([QUOTE] + SpellAll(ss), [QUOTE]);
  }

  lemma {:induction false} PrintIsValid(d: Doc)
    requires Proper(d)
    ensures Valid(Print(d))
    decreases d, 0
  {
    hide Valid, PrintItems, PrintMembers, IsNumber, SpellAll, AllWhite, Written, ProperItems, ProperMembers;
    AsciiValid([OPEN_BRACKET]);
    AsciiValid([OPEN_BRACE]);
    AsciiValid([CLOSE_BRACKET]);
    AsciiValid([CLOSE_BRACE]);
    match d
    case DocNull => AsciiValid(NULL_WORD);
    case DocBool(holds) => AsciiValid(if holds then TRUE_WORD else FALSE_WORD);
    case DocNumber(text) => NumberIsAscii(text);
    case DocString(chars) => QuotedIsValid(chars);
    case DocArray(gap, items) =>
      if items != [] {
        ItemsAreValid(items);
        BothValid([OPEN_BRACKET], PrintItems(items));
      } else {
        WhiteIsValid(gap);
        BothValid(gap, [CLOSE_BRACKET]);
        BothValid([OPEN_BRACKET], gap + [CLOSE_BRACKET]);
      }
    case DocObject(gap, members) =>
      if members != [] {
        MembersAreValid(members);
        BothValid([OPEN_BRACE], PrintMembers(members));
      } else {
        WhiteIsValid(gap);
        BothValid(gap, [CLOSE_BRACE]);
        BothValid([OPEN_BRACE], gap + [CLOSE_BRACE]);
      }
  }

  lemma {:induction false} ItemIsValid(item: Item)
    requires ProperItem(item)
    ensures Valid(PrintItem(item))
    decreases item, 1
  {
    hide Valid, Print, AllWhite;
    WhiteIsValid(item.before);
    WhiteIsValid(item.after);
    PrintIsValid(item.doc);
    BothValid(item.before, Print(item.doc));
    BothValid(item.before + Print(item.doc), item.after);
  }

  lemma {:induction false} ItemsAreValid(items: seq<Item>)
    requires items != [] && ProperItems(items)
    ensures Valid(PrintItems(items))
    decreases items, 1
  {
    hide Valid, PrintItem, ProperItem;
    ItemIsValid(items[0]);
    AsciiValid([CLOSE_BRACKET]);
    AsciiValid([COMMA]);
    if |items| == 1 {
      BothValid(PrintItem(items[0]), [CLOSE_BRACKET]);
    } else {
      ItemsAreValid(items[1..]);
      BothValid([COMMA], PrintItems(items[1..]));
      BothValid(PrintItem(items[0]), [COMMA] + PrintItems(items[1..]));
    }
  }

  lemma KeyIsValid(m: Member)
    requires AllWhite(m.before) && Written(m.key) && AllWhite(m.after)
    ensures AllSpellings(m.key) && Valid(PrintKey(m))
  {
    hide Valid, AllWhite, Written, Quoted;
    QuotedIsValid(m.key);
    WhiteIsValid(m.before);
    WhiteIsValid(m.after);
    AsciiValid([COLON]);
    BothValid(m.before, Quoted(m.key));
    BothValid(m.before + Quoted(m.key), m.after);
    BothValid(m.before + Quoted(m.key) + m.after, [COLON]);
  }

  lemma {:induction false} MembersAreValid(members: seq<Member>)
    requires members != [] && ProperMembers(members)
    ensures Valid(PrintMembers(members))
    decreases members, 1
  {
    hide Valid, PrintItem, PrintKey, Written, AllWhite, ProperItem;
    var m := members[0];
    KeyIsValid(m);
    ItemIsValid(m.item);
    AsciiValid([CLOSE_BRACE]);
    AsciiValid([COMMA]);
    BothValid(PrintKey(m), PrintItem(m.item));
    if |members| == 1 {
      BothValid(PrintKey(m) + PrintItem(m.item), [CLOSE_BRACE]);
    } else {
      MembersAreValid(members[1..]);
      BothValid([COMMA], PrintMembers(members[1..]));
      BothValid(PrintKey(m) + PrintItem(m.item), [COMMA] + PrintMembers(members[1..]));
    }
  }

  /** The end of the text: a value ends there or at the white space that ends the text. */
  lemma LastStands(item: Item)
    requires ProperItem(item)
    ensures var b := PrintItem(item);
            var v := |item.before|;
            var e := v + |Print(item.doc)|;
            && v <= |b| && Spaces(b, 0) == v && Stands(b, v, Print(item.doc)) && EndsAt(b, e) && e <= |b|
            && Spaces(b, e) == |b|
  {
    hide Stands, Print, Spaces, AllWhite, Proper;
    var b, v := PrintItem(item), |item.before|;
    var e := v + |Print(item.doc)|;
    WholeStands(b);
    StandsParts(b, 0, item.before + Print(item.doc), item.after);
    StandsParts(b, 0, item.before, Print(item.doc));
    StartsWell(item.doc, b, v);
    SpacesSkip(b, 0, item.before);
    SpacesSkip(b, e, item.after);
    if item.after != [] {
      StandsAt(b, e, item.after, 0);
      WhiteAt(item.after, 0);
    }
  }

  lemma WholeStands(b: Bytes)
    ensures Stands(b, 0, b)
  {
    assert b[0..|b|] == b;
  }

  lemma WhiteAt(w: Bytes, i: nat)
    requires AllWhite(w) && i < |w|
    ensures White(w[i])
  {
  }

  /** Every proper document, whatever its spellings and white space, reads back as its own value if it is at most 1 MiB,
      16384 values and 32 levels and repeats no key, and is refused otherwise. */
  lemma DocumentReadsBack(item: Item)
    requires ProperItem(item)
    ensures Proper(item.doc)
    ensures var b, d := PrintItem(item), item.doc;
            Parse(b) == if |b| <= MAX_INPUT && Nesting(d) <= MAX_DEPTH && Nodes(d) <= MAX_NODES && Unique(d)
                        then Some(Meaning(d)) else None
  {
    hide Print, PrintItem, Valid, ParseValue, Meaning, Nodes, Nesting, Proper, ProperItem, Spaces, Stands, EndsAt;
    var b, v := PrintItem(item), |item.before|;
    ItemIsValid(item);
    LastStands(item);
    ItemDoc(item);
    FromStart(b, 0, 0, 0);
    ValueReads(item.doc, b, v, 0, 0);
  }

  lemma ItemDoc(item: Item)
    requires ProperItem(item)
    ensures Proper(item.doc)
  {
  }

  // ---------------------------------------------------------------- nothing else is read

  lemma {:induction false} SpacesBack(b: Bytes, p: nat)
    requires p <= |b|
    ensures AllWhite(b[p..Spaces(b, p)])
    decreases |b| - p
  {
    if p < |b| && IsSpace(b[p]) {
      WhiteIsSpace(b[p]);
      SpacesBack(b, p + 1);
      assert b[p..Spaces(b, p)] == [b[p]] + b[p + 1..Spaces(b, p + 1)];
    }
  }

  /** What lies between two ASCII bytes of valid text is valid. */
  lemma BetweenValid(b: Bytes, p: nat, q: nat)
    requires Valid(b) && p <= q < |b| && (p == 0 || b[p - 1] < 0x80) && b[q] < 0x80
    ensures Valid(b[p..q])
  {
    hide Run, Step;
    AsciiStands(b, q);
    if p > 0 { AsciiStands(b, p - 1); } else { EmptyRuns(); assert b[..0] == []; }
    assert b[..q] == b[..p] + b[p..q];
    RunConcat(Between, b[..p], b[p..q]);
    BetweenIsValid(b[p..q]);
  }

  lemma InQuotes(b: Bytes, p: nat, e: nat, middle: Bytes)
    requires p < e <= |b| && b[p] == QUOTE && b[p + 1..e] == middle + [QUOTE]
    ensures p + 1 <= e - 1 && b[p + 1..e - 1] == middle && b[e - 1] == QUOTE
    ensures b[p..e] == [QUOTE] + middle + [QUOTE]
  {
    assert |b[p + 1..e]| == |middle| + 1;
    assert b[p + 1..e - 1] == b[p + 1..e][..|middle|];
    assert b[p..e] == [b[p]] + b[p + 1..e];
  }

  /** A string that is read is written in the spellings. */
  lemma StringBack(b: Bytes, p: nat) returns (ss: seq<Spelling>)
    requires Valid(b) && p <= |b| && ParseString(b, p).Some?
    ensures Written(ss) && ParseString(b, p).value.text == StoodAll(ss)
    ensures b[p..ParseString(b, p).value.pos] == Quoted(ss)
  {
    hide Valid, SpellAll, StoodAll, StringTail;
    ss := OnlySpellings(b, p + 1, []);
    var e := ParseString(b, p).value.pos;
    assert [] + StoodAll(ss) == StoodAll(ss);
    InQuotes(b, p, e, SpellAll(ss));
    BetweenValid(b, p + 1, e - 1);
  }

  /** The text from `p` to `q` is the document, which means the value of the node and fits. */
  ghost predicate Wrote(b: Bytes, p: nat, d: Doc, n: Node, nodes: nat, depth: nat) {
    && Proper(d) && p <= n.pos <= |b| && b[p..n.pos] == Print(d) && n.v == Meaning(d) && Unique(d)
    && n.nodes == nodes + Nodes(d) && Fits(depth, Nesting(d), nodes, Nodes(d))
  }

  lemma LeafBack(b: Bytes, p: nat, nodes: nat, depth: nat) returns (d: Doc)
    requires Valid(b) && p <= |b| && ParseValue(b, p, nodes, depth).Some?
    requires var q := Spaces(b, p); b[q] != OPEN_BRACE && b[q] != OPEN_BRACKET
    ensures Wrote(b, Spaces(b, p), d, ParseValue(b, p, nodes, depth).value, nodes, depth)
  {
    hide Valid, StringTail, NumberEnd, IsNumber, Spaces, SpellAll, Written, StoodAll;
    var q, n := Spaces(b, p), ParseValue(b, p, nodes, depth).value;
    if b[q] == QUOTE {
      var ss := StringBack(b, q);
      WrittenIs(ss);
      d := DocString(ss);
    } else if b[q] == 110 {
      d := DocNull;
    } else if b[q] == 116 {
      d := DocBool(true);
    } else if b[q] == 102 {
      d := DocBool(false);
    } else {
      NumberIs(b, q);
      d := DocNumber(b[q..n.pos]);
    }
  }

  /** A value, and the white space on both its sides. */
  lemma ItemBack(b: Bytes, p: nat, d: Doc, n: Node, nodes: nat, depth: nat) returns (item: Item)
    requires p <= |b| && Wrote(b, Spaces(b, p), d, n, nodes, depth)
    ensures item.doc == d && ProperItem(item) && b[p..Spaces(b, n.pos)] == PrintItem(item)
  {
    hide Spaces, AllWhite, Print, Proper, Unique, Meaning;
    var v, f := Spaces(b, p), Spaces(b, n.pos);
    SpacesBack(b, p);
    SpacesBack(b, n.pos);
    item := Item(b[p..v], d, b[n.pos..f]);
    assert b[p..f] == b[p..v] + b[v..n.pos] + b[n.pos..f];
  }

  lemma ElementsFrom(b: Bytes, p: nat, nodes: nat, depth: nat, before: seq<Value>)
    requires p <= |b|
    ensures ParseElements(b, Spaces(b, p), nodes, depth, before) == ParseElements(b, p, nodes, depth, before)
  {
    hide Spaces, ParseValue, ParseElements;
    FromStart(b, p, nodes, depth + 1);
    ElementStep(b, p, nodes, depth, before);
    ElementStep(b, Spaces(b, p), nodes, depth, before);
  }

  lemma MembersFrom(b: Bytes, p: nat, nodes: nat, depth: nat, before: map<Bytes, Value>)
    requires p <= |b|
    ensures ParseMembers(b, Spaces(b, p), nodes, depth, before) == ParseMembers(b, p, nodes, depth, before)
  {
    hide Spaces, ParseValue, ParseString;
    SpacesReach(b, p);
  }

  /** The items read, and what they come to. */
  ghost predicate WroteItems(b: Bytes, p: nat, items: seq<Item>, n: Node, nodes: nat, depth: nat, before: seq<Value>) {
    && items != [] && ProperItems(items) && p <= n.pos <= |b| && b[p..n.pos] == PrintItems(items)
    && n.v == Array(before + Meanings(items)) && UniqueItems(items)
    && n.nodes == nodes + NodesOf(items) && Fits(depth, NestingOf(items), nodes, NodesOf(items))
  }

  /** Behind an item the array ends, or goes on with `rest`. */
  ghost predicate ItemsGoOn(b: Bytes, e: nat, rest: seq<Item>, c: Node, n: Node, depth: nat, more: seq<Value>) {
    if rest == [] then At(b, e, CLOSE_BRACKET) && n == Node(Array(more), e + 1, c.nodes)
    else At(b, e, COMMA) && WroteItems(b, e + 1, rest, n, c.nodes, depth, more)
  }

  /** One item before the bracket, or before a comma and further items. */
  lemma {:induction false} WroteOne(b: Bytes, p: nat, item: Item, rest: seq<Item>, c: Node, n: Node, nodes: nat,
                                    depth: nat, before: seq<Value>)
    requires p <= |b| && Wrote(b, Spaces(b, p), item.doc, c, nodes, depth + 1) && ProperItem(item)
    requires c.pos <= |b| && b[p..Spaces(b, c.pos)] == PrintItem(item)
    requires ItemsGoOn(b, Spaces(b, c.pos), rest, c, n, depth, before + [c.v])
    ensures WroteItems(b, p, [item] + rest, n, nodes, depth, before)
  {
    hide Spaces, Print, PrintItem, Proper, ProperItem, Unique, Meaning, Meanings, Nodes, Nesting, NodesOf, NestingOf,
      ProperItems, PrintItems, UniqueItems;
    var items := [item] + rest;
    var e := Spaces(b, c.pos);
    assert items[1..] == rest && items[0] == item;
    NoItems();
    JoinItems(item, rest);
    OneItem(items);
    assert before + ([c.v] + Meanings(rest)) == (before + [c.v]) + Meanings(rest);
    assert b[p..n.pos] == b[p..e] + ([b[e]] + b[e + 1..n.pos]);
    if rest == [] { assert b[e + 1..n.pos] == []; }
  }

  lemma JoinItems(item: Item, rest: seq<Item>)
    requires ProperItem(item) && ProperItems(rest)
    ensures ProperItems([item] + rest)
    ensures PrintItems([item] + rest)
            == PrintItem(item) + if rest == [] then [CLOSE_BRACKET] else [COMMA] + PrintItems(rest)
  {
    hide PrintItem, ProperItem;
    var items := [item] + rest;
    assert items[1..] == rest && items[0] == item;
  }

  /** The members read, and what they come to. */
  ghost predicate WroteMembers(b: Bytes, p: nat, members: seq<Member>, n: Node, nodes: nat, depth: nat,
                               before: map<Bytes, Value>) {
    && members != [] && ProperMembers(members) && p <= n.pos <= |b| && b[p..n.pos] == PrintMembers(members)
    && n.v == Object(Table(members, before)) && UniqueMembers(members, before.Keys)
    && n.nodes == nodes + NodesIn(members) && Fits(depth, NestingIn(members), nodes, NodesIn(members))
  }

  /** Behind a member the object ends, or goes on with `rest`. */
  ghost predicate MembersGoOn(b: Bytes, e: nat, rest: seq<Member>, c: Node, n: Node, depth: nat, more: map<Bytes,
                              Value>) {
    if rest == [] then At(b, e, CLOSE_BRACE) && n == Node(Object(more), e + 1, c.nodes)
    else At(b, e, COMMA) && WroteMembers(b, e + 1, rest, n, c.nodes, depth, more)
  }

  ghost predicate ProperKey(m: Member) {
    AllWhite(m.before) && Written(m.key) && AllWhite(m.after)
  }

  lemma JoinMembers(m: Member, rest: seq<Member>)
    requires ProperKey(m) && ProperItem(m.item) && ProperMembers(rest)
    ensures ProperMembers([m] + rest) && AllSpellings(m.key)
    ensures PrintMembers([m] + rest)
            == PrintKey(m) + PrintItem(m.item) + if rest == [] then [CLOSE_BRACE] else [COMMA] + PrintMembers(rest)
  {
    hide PrintItem, PrintKey, ProperItem, Valid, SpellAll, AllWhite;
    var members := [m] + rest;
    assert members[1..] == rest && members[0] == m;
  }

  lemma {:induction false} WroteMember(b: Bytes, p: nat, q: nat, m: Member, rest: seq<Member>, c: Node, n: Node,
                                       nodes: nat, depth: nat,
                    before: map<Bytes, Value>)
    requires p <= q <= |b| && ProperKey(m) && AllSpellings(m.key) && b[p..q] == PrintKey(m)
    requires Wrote(b, Spaces(b, q), m.item.doc, c, nodes, depth + 1) && ProperItem(m.item) && StoodAll(m.key) !in before
    requires q <= c.pos <= |b| && b[q..Spaces(b, c.pos)] == PrintItem(m.item)
    requires MembersGoOn(b, Spaces(b, c.pos), rest, c, n, depth, before[StoodAll(m.key) := c.v])
    ensures WroteMembers(b, p, [m] + rest, n, nodes, depth, before)
  {
    hide Spaces, Print, PrintItem, PrintKey, Proper, ProperItem, Unique, Meaning, Table, Nodes, Nesting, NodesIn,
      NestingIn, ProperMembers, PrintMembers, UniqueMembers, ProperKey, StoodAll, AllSpellings;
    var members := [m] + rest;
    var e, more := Spaces(b, c.pos), before[StoodAll(m.key) := c.v];
    assert members[1..] == rest && members[0] == m;
    assert more.Keys == before.Keys + {StoodAll(m.key)};
    NoMembers(more);
    JoinMembers(m, rest);
    OneMember(members, before);
    assert b[p..n.pos] == b[p..q] + b[q..e] + ([b[e]] + b[e + 1..n.pos]);
    if rest == [] { assert b[e + 1..n.pos] == []; }
  }

  lemma NoMembers(before: map<Bytes, Value>)
    ensures ProperMembers([]) && Table([], before) == before && NodesIn([]) == 0 && NestingIn([]) == 0
    ensures UniqueMembers([], before.Keys)
  {
  }

  lemma {:induction false} ElementsBack(b: Bytes, p: nat, nodes: nat, depth: nat, before: seq<Value>)
    returns (items: seq<Item>)
    requires Valid(b) && p <= |b| && ParseElements(b, p, nodes, depth, before).Some?
    ensures WroteItems(b, p, items, ParseElements(b, p, nodes, depth, before).value, nodes, depth, before)
    decreases |b| - p, 1
  {
    hide Valid, Spaces, ParseValue, ParseElements, Wrote, WroteItems, ProperItem, PrintItem;
    ElementStep(b, p, nodes, depth, before);
    var c := ParseValue(b, p, nodes, depth + 1).value;
    var d := ValueBack(b, p, nodes, depth + 1);
    var item := ItemBack(b, p, d, c, nodes, depth + 1);
    var e := Spaces(b, c.pos);
    var rest := [];
    if !At(b, e, CLOSE_BRACKET) { rest := ElementsBack(b, e + 1, c.nodes, depth, before + [c.v]); }
    SomeItems(b, e + 1, rest, ParseElements(b, p, nodes, depth, before).value, c.nodes, depth, before + [c.v]);
    WroteOne(b, p, item, rest, c, ParseElements(b, p, nodes, depth, before).value, nodes, depth, before);
    items := [item] + rest;
  }

  lemma SomeItems(b: Bytes, p: nat, items: seq<Item>, n: Node, nodes: nat, depth: nat, before: seq<Value>)
    ensures WroteItems(b, p, items, n, nodes, depth, before) ==> items != []
  {
    hide PrintItems, ProperItems, Meanings, UniqueItems;
  }

  lemma KeyBack(b: Bytes, p: nat) returns (m: Member)
    requires Valid(b) && p <= |b| && ParseString(b, Spaces(b, p)).Some?
    requires At(b, Spaces(b, ParseString(b, Spaces(b, p)).value.pos), COLON)
    ensures var key := ParseString(b, Spaces(b, p)).value;
            && ProperKey(m) && AllSpellings(m.key) && StoodAll(m.key) == key.text
            && p <= Spaces(b, key.pos) && b[p..Spaces(b, key.pos) + 1] == PrintKey(m)
  {
    hide Valid, Spaces, ParseString, Written, Quoted, AllWhite, StoodAll;
    var k := Spaces(b, p);
    var key := ParseString(b, k).value;
    var c := Spaces(b, key.pos);
    SpacesBack(b, p);
    SpacesBack(b, key.pos);
    var ss := StringBack(b, k);
    WrittenIs(ss);
    m := Member(b[p..k], ss, b[key.pos..c], Item([], DocNull, []));
    assert b[p..c + 1] == b[p..k] + b[k..key.pos] + b[key.pos..c] + [b[c]];
  }

  lemma MemberReadOf(b: Bytes, p: nat, nodes: nat, depth: nat, before: map<Bytes, Value>)
    requires p <= |b| && ParseMembers(b, p, nodes, depth, before).Some?
    ensures ParseString(b, Spaces(b, p)).Some?
    ensures var key := ParseString(b, Spaces(b, p)).value;
            var c := Spaces(b, key.pos);
            && At(b, c, COLON) && ParseValue(b, c + 1, nodes, depth + 1).Some? && key.text !in before
            && var child := ParseValue(b, c + 1, nodes, depth + 1).value;
               var e, more := Spaces(b, child.pos), before[key.text := child.v];
               if At(b, e, CLOSE_BRACE)
               then ParseMembers(b, p, nodes, depth, before) == Some(Node(Object(more), e + 1, child.nodes))
               else At(b, e, COMMA)
                    && ParseMembers(b, p, nodes, depth, before) == ParseMembers(b, e + 1, child.nodes, depth, more)
  {
    hide Spaces, ParseString, ParseValue;
  }

  lemma {:induction false} MembersBack(b: Bytes, p: nat, nodes: nat, depth: nat, before: map<Bytes, Value>)
    returns (members: seq<Member>)
    requires Valid(b) && p <= |b| && ParseMembers(b, p, nodes, depth, before).Some?
    ensures WroteMembers(b, p, members, ParseMembers(b, p, nodes, depth, before).value, nodes, depth, before)
    decreases |b| - p, 1
  {
    hide Valid, Spaces, ParseString, ParseValue, ParseMembers, Wrote, WroteMembers, ProperItem, PrintItem, ProperKey,
      StoodAll, AllSpellings;
    MemberReadOf(b, p, nodes, depth, before);
    var key := ParseString(b, Spaces(b, p)).value;
    var q := Spaces(b, key.pos) + 1;
    var m := KeyBack(b, p);
    var c := ParseValue(b, q, nodes, depth + 1).value;
    var d := ValueBack(b, q, nodes, depth + 1);
    var item := ItemBack(b, q, d, c, nodes, depth + 1);
    var whole := Member(m.before, m.key, m.after, item);
    SameKey(m, whole);
    var e, more := Spaces(b, c.pos), before[key.text := c.v];
    var rest := [];
    if !At(b, e, CLOSE_BRACE) { rest := MembersBack(b, e + 1, c.nodes, depth, more); }
    SomeMembers(b, e + 1, rest, ParseMembers(b, p, nodes, depth, before).value, c.nodes, depth, more);
    WroteMember(b, p, q, whole, rest, c, ParseMembers(b, p, nodes, depth, before).value, nodes, depth, before);
    members := [whole] + rest;
  }

  lemma SameKey(m: Member, w: Member)
    requires ProperKey(m) && AllSpellings(m.key) && w.before == m.before && w.key == m.key && w.after == m.after
    ensures ProperKey(w) && PrintKey(w) == PrintKey(m)
  {
    hide AllSpellings, Valid, AllWhite, SpellAll;
  }

  lemma SomeMembers(b: Bytes, p: nat, members: seq<Member>, n: Node, nodes: nat, depth: nat, before: map<Bytes, Value>)
    ensures WroteMembers(b, p, members, n, nodes, depth, before) ==> members != []
  {
    hide PrintMembers, ProperMembers, Table, UniqueMembers;
  }

  // ---------------------------------------------------------------- the values that are read

  lemma {:induction false} ValueBack(b: Bytes, p: nat, nodes: nat, depth: nat) returns (d: Doc)
    requires Valid(b) && p <= |b| && ParseValue(b, p, nodes, depth).Some?
    ensures Wrote(b, Spaces(b, p), d, ParseValue(b, p, nodes, depth).value, nodes, depth)
    decreases |b| - p, 0
  {
    hide Valid, Wrote, ParseMembers, ParseElements, Spaces, WroteItems, WroteMembers, NumberEnd, StringTail;
    var q := Spaces(b, p);
    if b[q] == OPEN_BRACKET {
      var r := Spaces(b, q + 1);
      if At(b, r, CLOSE_BRACKET) {
        d := EmptyArrayBack(b, q, nodes, depth);
      } else {
        ElementsFrom(b, q + 1, nodes + 1, depth, []);
        var items := ElementsBack(b, q + 1, nodes + 1, depth, []);
        d := DocArray([], items);
        ArrayWrote(b, q, items, ParseValue(b, p, nodes, depth).value, nodes, depth);
      }
    } else if b[q] == OPEN_BRACE {
      var r := Spaces(b, q + 1);
      if At(b, r, CLOSE_BRACE) {
        d := EmptyObjectBack(b, q, nodes, depth);
      } else {
        MembersFrom(b, q + 1, nodes + 1, depth, map[]);
        var members := MembersBack(b, q + 1, nodes + 1, depth, map[]);
        d := DocObject([], members);
        ObjectWrote(b, q, members, ParseValue(b, p, nodes, depth).value, nodes, depth);
      }
    } else {
      d := LeafBack(b, p, nodes, depth);
    }
  }

  lemma EmptyArrayBack(b: Bytes, q: nat, nodes: nat, depth: nat) returns (d: Doc)
    requires At(b, q, OPEN_BRACKET) && At(b, Spaces(b, q + 1), CLOSE_BRACKET) && Fits(depth, 0, nodes, 1)
    ensures Wrote(b, q, d, Node(Array([]), Spaces(b, q + 1) + 1, nodes + 1), nodes, depth)
  {
    hide Spaces, AllWhite;
    var r := Spaces(b, q + 1);
    SpacesBack(b, q + 1);
    d := DocArray(b[q + 1..r], []);
    assert b[q..r + 1] == [b[q]] + (b[q + 1..r] + [b[r]]);
    NoItems();
    assert [] + Meanings([]) == [];
  }

  lemma EmptyObjectBack(b: Bytes, q: nat, nodes: nat, depth: nat) returns (d: Doc)
    requires At(b, q, OPEN_BRACE) && At(b, Spaces(b, q + 1), CLOSE_BRACE) && Fits(depth, 0, nodes, 1)
    ensures Wrote(b, q, d, Node(Object(map[]), Spaces(b, q + 1) + 1, nodes + 1), nodes, depth)
  {
    hide Spaces, AllWhite;
    var r := Spaces(b, q + 1);
    SpacesBack(b, q + 1);
    d := DocObject(b[q + 1..r], []);
    assert b[q..r + 1] == [b[q]] + (b[q + 1..r] + [b[r]]);
    NoItems();
    assert Proper(d);
    assert Print(d) == [OPEN_BRACE] + (d.gap + [CLOSE_BRACE]);
    assert Meaning(d) == Object(map[]);
    assert Unique(d) && Nodes(d) == 1 && Nesting(d) == 0;
  }

  lemma ArrayWrote(b: Bytes, q: nat, items: seq<Item>, n: Node, nodes: nat, depth: nat)
    requires At(b, q, OPEN_BRACKET) && WroteItems(b, q + 1, items, n, nodes + 1, depth, [])
    ensures Wrote(b, q, DocArray([], items), n, nodes, depth)
  {
    hide PrintItems, ProperItems, Meanings, NodesOf, NestingOf, UniqueItems;
    assert b[q..n.pos] == [b[q]] + b[q + 1..n.pos];
    assert [] + Meanings(items) == Meanings(items);
  }

  lemma ObjectWrote(b: Bytes, q: nat, members: seq<Member>, n: Node, nodes: nat, depth: nat)
    requires At(b, q, OPEN_BRACE) && WroteMembers(b, q + 1, members, n, nodes + 1, depth, map[])
    ensures Wrote(b, q, DocObject([], members), n, nodes, depth)
  {
    hide PrintMembers, ProperMembers, Table, NodesIn, NestingIn, UniqueMembers;
    var none: map<Bytes, Value> := map[];
    assert none.Keys == {};
    assert b[q..n.pos] == [b[q]] + b[q + 1..n.pos];
  }

  /** `b` is the text of the document, within the limits and with no key repeated. */
  ghost predicate IsText(b: Bytes, item: Item) {
    && ProperItem(item) && Proper(item.doc) && b == PrintItem(item)
    && |b| <= MAX_INPUT && Nesting(item.doc) <= MAX_DEPTH && Nodes(item.doc) <= MAX_NODES && Unique(item.doc)
  }

  /** The reader accepts exactly the texts of such documents, and gives what they mean. */
  lemma ReadsTheLanguage(b: Bytes, v: Value)
    ensures Parse(b) == Some(v) <==> exists item :: IsText(b, item) && v == Meaning(item.doc)
  {
    hide Print, PrintItem, Valid, ParseValue, Meaning, Nodes, Nesting, Proper, ProperItem, Spaces, Unique;
    if item :| IsText(b, item) && v == Meaning(item.doc) {
      DocumentReadsBack(item);
    }
    if Parse(b) == Some(v) {
      var n := ParseValue(b, 0, 0, 0).value;
      var d := ValueBack(b, 0, 0, 0);
      var item := ItemBack(b, 0, d, n, 0, 0);
      assert b[0..|b|] == b;
      assert IsText(b, item) && v == Meaning(item.doc);
    }
  }
}
