/** The H.264 elementary-stream formats: Annex-B byte streams and four-byte length prefixes. */
module AnnexB {
  import opened Wire

  const MAX_ACCESS_UNIT_BYTES: nat := 4 * 1024 * 1024
  const MAX_NALUS: nat := 1024

  type Nal = seq<Byte>

  function NalType(n: Nal): int
    requires n != []
  {
    n[0] % 32
  }

  predicate ValidNalu(n: Nal) {
    n != [] && n[0] < 128 && 0 < NalType(n) < 24
  }

  predicate HasType(ns: seq<Nal>, t: int) {
    exists i :: 0 <= i < |ns| && ns[i] != [] && NalType(ns[i]) == t
  }

  lemma HasTypeSnoc(ns: seq<Nal>, n: Nal, t: int)
    ensures HasType(ns + [n], t) <==> HasType(ns, t) || (n != [] && NalType(n) == t)
  {
    var all := ns + [n];
    assert all[|ns|] == n;
    if HasType(ns, t) {
      var i :| 0 <= i < |ns| && ns[i] != [] && NalType(ns[i]) == t;
      assert all[i] == ns[i];
    }
  }

  // ---------------------------------------------------------------- Annex-B reader

  /** Length of the start code at the head of `s`: 3, 4, or 0 when there is none. */
  function StartCode(s: Bytes): (k: nat)
    ensures k <= |s|
  {
    if |s| >= 3 && s[0] == 0 && s[1] == 0 && s[2] == 1 then 3
    else if |s| >= 4 && s[0] == 0 && s[1] == 0 && s[2] == 0 && s[3] == 1 then 4
    else 0
  }

  /** Distance to the next start code in `s`, or to its end. */
  function Scan(s: Bytes): (n: nat)
    ensures n <= |s|
  {
    if s == [] || StartCode(s) != 0 then 0 else 1 + Scan(s[1..])
  }

  function TrimZeros(s: Bytes): (t: Bytes)
    ensures |t| <= |s|
  {
    if s == [] || s[|s| - 1] != 0 then s else TrimZeros(s[..|s| - 1])
  }

  /** Zero bytes before the first start code. */
  function SkipZeros(s: Bytes): (n: nat)
    ensures n <= |s|
  {
    if s != [] && StartCode(s) == 0 && s[0] == 0 then 1 + SkipZeros(s[1..]) else 0
  }

  /** The NAL units of a stream that begins with a start code; None when it is malformed. */
  function SplitUnits(s: Bytes): (r: Option<seq<Nal>>)
    decreases |s|
  {
    if s == [] then Some([])
    else if StartCode(s) == 0 then None
    else
      var body := s[StartCode(s)..];
      var next := Scan(body);
      var n := TrimZeros(body[..next]);
      if !ValidNalu(n) then None
      else After([n], SplitUnits(body[next..]))
  }

  /** `first` followed by what the rest of the buffer holds, when that is well formed. */
  function After(first: seq<Nal>, rest: Option<seq<Nal>>): Option<seq<Nal>> {
    match rest
    case None => None
    case Some(ns) => Some(first + ns)
  }

  lemma AfterAfter(a: seq<Nal>, n: Nal, rest: Option<seq<Nal>>)
    ensures After(a, After([n], rest)) == After(a + [n], rest)
    ensures After([], rest) == rest
    ensures After(a, Some([])) == Some(a)
  {
    assert a + [] == a;
    if rest.Some? {
      assert a + ([n] + rest.value) == a + [n] + rest.value;
      assert [] + rest.value == rest.value;
    }
  }

  function Split(b: Bytes): (r: Option<seq<Nal>>) {
    if b == [] || |b| > MAX_ACCESS_UNIT_BYTES then None
    else
      var s := b[SkipZeros(b)..];
      if StartCode(s) == 0 then None
      else match SplitUnits(s)
        case None => None
        case Some(ns) => if |ns| <= MAX_NALUS then Some(ns) else None
  }

  method SkipLeadingZeros(b: Bytes) returns (p: nat)
    ensures p == SkipZeros(b)
  {
    p := 0;
    while p < |b| && StartCode(b[p..]) == 0 && b[p] == 0
      invariant p <= |b|
      invariant p + SkipZeros(b[p..]) == SkipZeros(b)
    {
      assert b[p..][1..] == b[p + 1..];
      p := p + 1;
    }
  }

  method FindStartCode(b: Bytes, begin: nat) returns (next: nat)
    requires begin <= |b|
    ensures next == begin + Scan(b[begin..])
  {
    next := begin;
    while next < |b| && StartCode(b[next..]) == 0
      invariant begin <= next <= |b|
      invariant next + Scan(b[next..]) == begin + Scan(b[begin..])
    {
      assert b[next..][1..] == b[next + 1..];
      next := next + 1;
    }
  }

  method TrimTrailingZeros(b: Bytes, begin: nat, next: nat) returns (end: nat)
    requires begin <= next <= |b|
    ensures begin <= end <= next && b[begin..end] == TrimZeros(b[begin..next])
  {
    end := next;
    while end > begin && b[end - 1] == 0
      invariant begin <= end <= next
      invariant TrimZeros(b[begin..end]) == TrimZeros(b[begin..next])
    {
      assert b[begin..end][..end - begin - 1] == b[begin..end - 1];
      end := end - 1;
    }
  }

  /** A byte stream a decoder can start at, judged from the bytes alone. */
  predicate ConfiguredIdr(b: Bytes) {
    match Split(b)
    case None => false
    case Some(ns) => HasType(ns, 7) && HasType(ns, 8) && HasType(ns, 5)
  }

  /** The unit at position `p` of the buffer, found by index. */
  lemma UnitStep(b: Bytes, p: nat, begin: nat, next: nat, end: nat)
    requires p < |b| && StartCode(b[p..]) != 0 && begin == p + StartCode(b[p..])
    requires next == begin + Scan(b[begin..])
    requires begin <= end <= next && b[begin..end] == TrimZeros(b[begin..next])
    ensures SplitUnits(b[p..]) ==
            if ValidNalu(b[begin..end]) then After([b[begin..end]], SplitUnits(b[next..])) else None
  {
    hide Scan, TrimZeros, ValidNalu, After, StartCode;
    var s := b[p..];
    var body := s[StartCode(s)..];
    assert b[begin..] == body;
    assert b[begin..next] == body[..next - begin];
    assert body[next - begin..] == b[next..];
  }

  lemma NoUnit(s: Bytes)
    ensures s == [] ==> SplitUnits(s) == Some([])
    ensures s != [] && StartCode(s) == 0 ==> SplitUnits(s) == None
  {
  }

  /** The reader as it runs: index loops over the buffer, appending each unit it finds. */
  method SplitAnnexB(b: Bytes) returns (r: Option<seq<Nal>>)
    ensures r == Split(b)
  {
    hide SplitUnits, ValidNalu, Scan, TrimZeros, StartCode;
    if b == [] || |b| > MAX_ACCESS_UNIT_BYTES { return None; }
    var p := SkipLeadingZeros(b);
    if StartCode(b[p..]) == 0 { return None; }
    var nalus: seq<Nal> := [];
    ghost var all := SplitUnits(b[p..]);
    AfterAfter([], [], all);
    while p < |b|
      invariant 0 <= p <= |b| && |nalus| <= MAX_NALUS
      invariant all == After(nalus, SplitUnits(b[p..]))
      decreases |b| - p
    {
      NoUnit(b[p..]);
      var prefix := StartCode(b[p..]);
      if prefix == 0 { return None; }
      var begin := p + prefix;
      var next := FindStartCode(b, begin);
      var end := TrimTrailingZeros(b, begin, next);
      var n := b[begin..end];
      UnitStep(b, p, begin, next, end);
      if !ValidNalu(n) { return None; }
      AfterAfter(nalus, n, SplitUnits(b[next..]));
      if |nalus| == MAX_NALUS { return None; }
      nalus := nalus + [n];
      p := next;
    }
    NoUnit(b[p..]);
    AfterAfter(nalus, [], all);
    return Some(nalus);
  }

  // ---------------------------------------------------------------- Annex-B printer

  /** One unit behind a four-byte start code. */
  function Unit(n: Nal): Bytes {
    [0, 0, 0, 1] + n
  }

  function Print(ns: seq<Nal>): Bytes {
    if ns == [] then [] else Unit(ns[0]) + Print(ns[1..])
  }

  method AppendAnnexB(out: Bytes, n: Nal) returns (r: Bytes)
    ensures r == out + Unit(n)
  {
    r := out + [0, 0, 0, 1];
    r := r + n;
    assert out + [0, 0, 0, 1] + n == out + ([0, 0, 0, 1] + n);
  }

  lemma {:induction false} PrintAppend(xs: seq<Nal>, ys: seq<Nal>)
    ensures Print(xs + ys) == Print(xs) + Print(ys)
  {
    if xs == [] {
      assert xs + ys == ys;
    } else {
      assert (xs + ys)[1..] == xs[1..] + ys;
      PrintAppend(xs[1..], ys);
    }
  }

  lemma PrintOne(n: Nal)
    ensures Print([n]) == Unit(n)
  {
    assert [n][1..] == [];
    assert Print([n]) == Unit(n) + Print([]);
  }

  // ---------------------------------------------------------------- length prefixes

  function LengthUnit(n: Nal): Bytes
    requires |n| < 0x1_0000_0000
  {
    PutBe32(|n|) + n
  }

  function SplitLengthUnits(s: Bytes): (r: Option<seq<Nal>>)
    decreases |s|
  {
    if s == [] then Some([])
    else if |s| < 4 then None
    else
      var n := Be32(s[0], s[1], s[2], s[3]);
      if n == 0 || n > |s| - 4 || !ValidNalu(s[4..4 + n]) then None
      else After([s[4..4 + n]], SplitLengthUnits(s[4 + n..]))
  }

  function SplitLengths(b: Bytes): (r: Option<seq<Nal>>) {
    if b == [] || |b| > MAX_ACCESS_UNIT_BYTES then None
    else match SplitLengthUnits(b)
      case None => None
      case Some(ns) => if |ns| <= MAX_NALUS then Some(ns) else None
  }

  /** The unit at position `p` of the buffer, read by index. */
  lemma LengthStep(b: Bytes, p: nat)
    requires p + 4 <= |b|
    ensures var n := Be32(b[p], b[p + 1], b[p + 2], b[p + 3]);
            SplitLengthUnits(b[p..]) ==
            if n == 0 || n > |b| - (p + 4) || !ValidNalu(b[p + 4..p + 4 + n]) then None
            else After([b[p + 4..p + 4 + n]], SplitLengthUnits(b[p + 4 + n..]))
  {
    hide ValidNalu, Be32;
    var s, n := b[p..], Be32(b[p], b[p + 1], b[p + 2], b[p + 3]);
    if n <= |b| - (p + 4) {
      assert s[4..4 + n] == b[p + 4..p + 4 + n];
      assert s[4 + n..] == b[p + 4 + n..];
    }
  }

  lemma LengthUnitsOfNothing(b: Bytes)
    ensures SplitLengthUnits(b[|b|..]) == Some([])
    ensures 0 < |b| < 4 ==> SplitLengthUnits(b).None?
  {
  }

  method SplitLengthPrefixed4(b: Bytes) returns (r: Option<seq<Nal>>)
    ensures r == SplitLengths(b)
  {
    hide SplitLengthUnits, ValidNalu, Be32;
    if b == [] || |b| > MAX_ACCESS_UNIT_BYTES { return None; }
    var p := 0;
    var nalus: seq<Nal> := [];
    ghost var all := SplitLengthUnits(b);
    assert b[0..] == b;
    AfterAfter([], [], all);
    while p < |b|
      invariant 0 <= p <= |b| && |nalus| <= MAX_NALUS
      invariant p > 0 ==> nalus != []
      invariant all == After(nalus, SplitLengthUnits(b[p..]))
      decreases |b| - p
    {
      LengthUnitsOfNothing(b[p..]);
      if |b| - p < 4 { return None; }
      LengthStep(b, p);
      var n := Be32(b[p], b[p + 1], b[p + 2], b[p + 3]);
      p := p + 4;
      if n == 0 || n > |b| - p { return None; }
      var unit := b[p..p + n];
      AfterAfter(nalus, unit, SplitLengthUnits(b[p + n..]));
      if |nalus| == MAX_NALUS || !ValidNalu(unit) { return None; }
      nalus := nalus + [unit];
      p := p + n;
    }
    LengthUnitsOfNothing(b);
    AfterAfter(nalus, [], all);
    return Some(nalus);
  }

  function PrintLengths(ns: seq<Nal>): Bytes
    requires forall n :: n in ns ==> |n| < 0x1_0000_0000
  {
    if ns == [] then [] else LengthUnit(ns[0]) + PrintLengths(ns[1..])
  }

  /** The container conversion used before decoding; `out` stays empty when the stream is malformed. */
  method AnnexBToLengthPrefixed4(input: Bytes) returns (ok: bool, out: Bytes)
    ensures ok <==> Split(input).Some?
    ensures ok ==>
              (forall n :: n in Split(input).value ==> |n| < 0x1_0000_0000) && out == PrintLengths(Split(input).value)
    ensures !ok ==> out == []
  {
    hide Split, PutBe32;
    ok, out := false, [];
    var nalus := SplitAnnexB(input);
    if nalus.None? { return; }
    var ns := nalus.value;
    SplitFits(input);
    assert ns[..0] == [];
    for i := 0 to |ns|
      invariant out == PrintLengths(ns[..i])
    {
      var size := |ns[i]|;
      PrintLengthsSnoc(ns[..i], ns[i]);
      assert ns[..i + 1] == ns[..i] + [ns[i]];
      out := out + PutBe32(size);
      out := out + ns[i];
    }
    assert ns[..|ns|] == ns;
    ok := true;
  }

  lemma {:induction false} PrintLengthsSnoc(ns: seq<Nal>, n: Nal)
    requires |n| < 0x1_0000_0000 && forall m :: m in ns ==> |m| < 0x1_0000_0000
    ensures PrintLengths(ns + [n]) == PrintLengths(ns) + PutBe32(|n|) + n
  {
    hide PutBe32;
    if ns != [] {
      assert (ns + [n])[1..] == ns[1..] + [n];
      PrintLengthsSnoc(ns[1..], n);
    }
  }

  lemma {:induction false} SplitUnitsFit(s: Bytes)
    requires SplitUnits(s).Some?
    ensures forall n :: n in SplitUnits(s).value ==> |n| <= |s|
    decreases |s|
  {
    hide ValidNalu;
    if s != [] {
      var body := s[StartCode(s)..];
      SplitUnitsFit(body[Scan(body)..]);
    }
  }

  lemma SplitFits(b: Bytes)
    requires Split(b).Some?
    ensures forall n :: n in Split(b).value ==> |n| <= |b| < 0x1_0000_0000
  {
    SplitUnitsFit(b[SkipZeros(b)..]);
  }
}
