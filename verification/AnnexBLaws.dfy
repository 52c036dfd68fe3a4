/** Split reads exactly the byte-stream language of Annex B of ITU-T H.264, and inverts both printers. */
module AnnexBLaws {
  import opened Wire
  import opened AnnexB

  /** One `byte_stream_nal_unit`: a three-byte start code, the unit, and zero bytes after it.
      A four-byte start code is one of these zero bytes followed by a three-byte one. */
  datatype Piece = Piece(nal: Nal, zeros: nat)

  ghost predicate StartCodeFree(n: Nal) {
    forall i :: 0 <= i && i + 2 < |n| ==> !(n[i] == 0 && n[i + 1] == 0 && n[i + 2] == 1)
  }

  /** What a unit needs to survive a byte stream. */
  ghost predicate Clean(n: Nal) {
    ValidNalu(n) && StartCodeFree(n) && n[|n| - 1] != 0
  }

  ghost predicate AllClean(ns: seq<Nal>) {
    forall i :: 0 <= i < |ns| ==> Clean(ns[i])
  }

  ghost function Body(ps: seq<Piece>): Bytes {
    if ps == [] then [] else [0, 0, 1] + (ps[0].nal + Zeros(ps[0].zeros) + Body(ps[1..]))
  }

  ghost function Nals(ps: seq<Piece>): (ns: seq<Nal>)
    ensures |ns| == |ps| && forall i :: 0 <= i < |ps| ==> ns[i] == ps[i].nal
  {
    seq(|ps|, i requires 0 <= i < |ps| => ps[i].nal)
  }

  /** `b` is leading zeros followed by the pieces `ps`. */
  ghost predicate IsStream(b: Bytes, lead: nat, ps: seq<Piece>) {
    b == Zeros(lead) + Body(ps)
  }

  ghost function ZeroByte(present: bool): Bytes {
    if present then [0] else []
  }

  lemma {:induction false} TrimUnit(n: Nal, k: nat)
    requires n != [] && n[|n| - 1] != 0
    ensures TrimZeros(n + Zeros(k)) == n
  {
    if k == 0 {
      assert n + Zeros(0) == n;
    } else {
      assert (n + Zeros(k))[..|n| + k - 1] == n + Zeros(k - 1);
      TrimUnit(n, k - 1);
    }
  }

  lemma {:induction false} TrimmedIs(s: Bytes) returns (k: nat)
    ensures s == TrimZeros(s) + Zeros(k)
    ensures TrimZeros(s) != [] ==> TrimZeros(s)[|TrimZeros(s)| - 1] != 0
  {
    if s == [] || s[|s| - 1] != 0 {
      k := 0;
    } else {
      k := TrimmedIs(s[..|s| - 1]);
      assert s == s[..|s| - 1] + [0];
      assert Zeros(k) + [0] == Zeros(k + 1);
      k := k + 1;
    }
  }

  /** Where the reader stops after a clean unit: before the zero byte that the next start code absorbs. */
  function Stop(n: Nal, zeros: nat, last: bool): nat {
    if last || zeros == 0 then |n| + zeros else |n| + zeros - 1
  }

  lemma NoCodeInside(n: Nal, zeros: nat, tail: Bytes, i: nat)
    requires Clean(n)
    requires tail == [] || [0, 0, 1] <= tail
    requires i < Stop(n, zeros, tail == [])
    ensures StartCode((n + Zeros(zeros) + tail)[i..]) == 0
  {
    var s := n + Zeros(zeros) + tail;
    var h := s[i..];
    if i < |n| && |h| >= 2 && h[0] == 0 && h[1] == 0 {
      assert h[0] == n[i];
      assert i + 1 < |n| && h[1] == n[i + 1];
      if |h| >= 4 && h[2] == 0 {
        assert i + 2 < |n| && h[2] == n[i + 2];
        assert i + 3 < |n| && h[3] == n[i + 3];
      } else if |h| >= 3 {
        assert i + 2 < |n| && h[2] == n[i + 2];
      }
    }
  }

  /** The scan stops at the first position that holds a start code. */
  lemma {:induction false} ScanIs(s: Bytes, k: nat)
    requires k <= |s|
    requires forall i :: 0 <= i < k ==> StartCode(s[i..]) == 0
    requires k < |s| ==> StartCode(s[k..]) != 0
    ensures Scan(s) == k
  {
    assert s[0..] == s;
    if k > 0 {
      forall i | 0 <= i < k - 1 ensures StartCode(s[1..][i..]) == 0 {
        assert s[1..][i..] == s[i + 1..];
      }
      assert s[1..][k - 1..] == s[k..];
      ScanIs(s[1..], k - 1);
    }
  }

  lemma {:induction false} ScannedHasNoCode(s: Bytes, i: nat)
    requires i < Scan(s)
    ensures StartCode(s[i..]) == 0
  {
    if i == 0 {
      assert s[0..] == s;
    } else {
      assert s[1..][i - 1..] == s[i..];
      ScannedHasNoCode(s[1..], i - 1);
    }
  }

  lemma ScanUnit(n: Nal, zeros: nat, tail: Bytes)
    requires Clean(n)
    requires tail == [] || [0, 0, 1] <= tail
    ensures Scan(n + Zeros(zeros) + tail) == Stop(n, zeros, tail == [])
  {
    var s := n + Zeros(zeros) + tail;
    var k := Stop(n, zeros, tail == []);
    forall i | 0 <= i < k ensures StartCode(s[i..]) == 0 {
      NoCodeInside(n, zeros, tail, i);
    }
    if tail != [] {
      assert s[|n| + zeros..] == tail;
      if zeros > 0 {
        assert s[k..] == [0] + tail;
      }
    }
    ScanIs(s, k);
  }

  lemma NalsOfCons(p: Piece, rest: seq<Piece>)
    ensures Nals([p] + rest) == [p.nal] + Nals(rest)
    ensures AllClean(Nals([p] + rest)) <==> Clean(p.nal) && AllClean(Nals(rest))
  {
    var ns := Nals([p] + rest);
    assert ns == [p.nal] + Nals(rest);
    assert forall i :: 0 <= i < |rest| ==> ns[i + 1] == Nals(rest)[i];
    if AllClean(ns) {
      assert Clean(ns[0]);
      forall i | 0 <= i < |rest| ensures Clean(Nals(rest)[i]) {
        assert Clean(ns[i + 1]);
      }
    }
  }

  lemma CodeInFront(rest: Bytes)
    ensures [0, 0, 1] <= [0, 0, 1] + rest
  {
  }

  lemma BodyOf(ps: seq<Piece>)
    requires ps != []
    ensures Body(ps) == [0, 0, 1] + (ps[0].nal + Zeros(ps[0].zeros) + Body(ps[1..]))
    ensures [0, 0, 1] <= Body(ps) && ps == [ps[0]] + ps[1..]
  {
    hide Zeros;
    CodeInFront(ps[0].nal + Zeros(ps[0].zeros) + Body(ps[1..]));
  }

  lemma EnterCode(zero: bool, body: Bytes)
    ensures var s := ZeroByte(zero) + ([0, 0, 1] + body);
            StartCode(s) == (if zero then 4 else 3) && s[StartCode(s)..] == body
  {
  }

  lemma CutPiece(n: Nal, kept: nat, more: bool, tail: Bytes)
    ensures var body := n + Zeros(if more then kept + 1 else kept) + tail;
            body[..|n| + kept] == n + Zeros(kept) && body[|n| + kept..] == ZeroByte(more) + tail
  {
    if more {
      assert Zeros(kept + 1) == Zeros(kept) + [0];
    }
  }

  lemma SplitUnitsStep(s: Bytes, body: Bytes, next: nat, n: Nal)
    requires StartCode(s) != 0 && body == s[StartCode(s)..]
    requires next == Scan(body) && n == TrimZeros(body[..next]) && ValidNalu(n)
    ensures SplitUnits(s) == After([n], SplitUnits(body[next..]))
  {
  }

  /** One turn of the reader on a piece it has just entered. */
  lemma SplitPiece(zero: bool, n: Nal, k: nat, more: bool, tail: Bytes)
    requires Clean(n) && (tail == [] || [0, 0, 1] <= tail)
    requires more == (tail != [] && k > 0)
    ensures SplitUnits(ZeroByte(zero) + ([0, 0, 1] + (n + Zeros(k) + tail)))
            == After([n], SplitUnits(ZeroByte(more) + tail))
  {
    hide SplitUnits, Scan, TrimZeros, StartCodeFree, StartCode, ZeroByte;
    var kept := if more then k - 1 else k;
    var body := n + Zeros(k) + tail;
    EnterCode(zero, body);
    ScanUnit(n, k, tail);
    CutPiece(n, kept, more, tail);
    TrimUnit(n, kept);
    SplitUnitsStep(ZeroByte(zero) + ([0, 0, 1] + body), body, |n| + kept, n);
  }

  /** A stream of clean pieces, possibly behind one more zero byte, reads back as its units. */
  lemma {:induction false} SplitUnitsOfBody(ps: seq<Piece>, zero: bool)
    requires AllClean(Nals(ps)) && (zero ==> ps != [])
    ensures SplitUnits(ZeroByte(zero) + Body(ps)) == Some(Nals(ps))
    decreases |ps|
  {
    if ps == [] {
    } else {
      hide SplitUnits, AllClean;
      var p, rest := ps[0], ps[1..];
      BodyOf(ps);
      NalsOfCons(p, rest);
      if rest != [] {
        BodyOf(rest);
      }
      var more := rest != [] && p.zeros > 0;
      SplitPiece(zero, p.nal, p.zeros, more, Body(rest));
      SplitUnitsOfBody(rest, more);
    }
  }

  lemma ZerosSplit(lead: nat)
    requires lead >= 1
    ensures Zeros(lead) == [0] + Zeros(lead - 1) == Zeros(lead - 1) + [0]
  {
  }

  lemma LeadTail(lead: nat, body: Bytes)
    requires lead >= 1
    ensures var s := Zeros(lead) + body;
            s[0] == 0 && s[1..] == Zeros(lead - 1) + body && s[lead - 1..] == [0] + body
  {
    ZerosSplit(lead);
    hide Zeros;
    assert ([0] + Zeros(lead - 1)) + body == [0] + (Zeros(lead - 1) + body);
    assert (Zeros(lead - 1) + [0]) + body == Zeros(lead - 1) + ([0] + body);
  }

  /** A start code stands at the head exactly when at most one zero is in front. */
  lemma LeadCode(lead: nat, body: Bytes)
    requires [0, 0, 1] <= body
    ensures Zeros(lead) + body != [] && (StartCode(Zeros(lead) + body) == 0 <==> lead >= 2)
  {
    var s := Zeros(lead) + body;
    if lead == 0 {
      assert s == body;
    } else if lead == 1 {
      assert s == [0] + body;
    } else {
      assert s[0] == 0 && s[1] == 0 && s[2] == 0;
      assert s[3] == 0;
    }
  }

  lemma {:induction false} SkipLead(lead: nat, body: Bytes)
    requires [0, 0, 1] <= body
    ensures SkipZeros(Zeros(lead) + body) == if lead == 0 then 0 else lead - 1
  {
    hide Zeros, StartCode;
    LeadCode(lead, body);
    if lead >= 1 { LeadTail(lead, body); }
    if lead >= 2 { SkipLead(lead - 1, body); }
  }

  lemma ScannedPrefixIsFree(body: Bytes, n: Nal)
    requires n <= body && |n| <= Scan(body)
    ensures StartCodeFree(n)
  {
    hide Scan;
    forall i | 0 <= i && i + 2 < |n| ensures !(n[i] == 0 && n[i + 1] == 0 && n[i + 2] == 1) {
      ScannedHasNoCode(body, i);
      assert body[i..][0] == n[i] && body[i..][1] == n[i + 1] && body[i..][2] == n[i + 2];
    }
  }

  /** A unit, its zero bytes and the pieces behind them form a body again. */
  lemma JoinPiece(n: Nal, k: nat, more: bool, rest: seq<Piece>) returns (p: Piece)
    ensures p.nal == n
    ensures [0, 0, 1] + (n + Zeros(k) + (ZeroByte(more) + Body(rest))) == Body([p] + rest)
  {
    p := Piece(n, if more then k + 1 else k);
    assert ([p] + rest)[1..] == rest;
    assert Zeros(k) + ZeroByte(more) == Zeros(p.zeros);
    assert n + Zeros(k) + (ZeroByte(more) + Body(rest)) == n + (Zeros(k) + ZeroByte(more)) + Body(rest);
  }

  lemma LeaveCode(s: Bytes)
    requires StartCode(s) != 0
    ensures s == ZeroByte(StartCode(s) == 4) + ([0, 0, 1] + s[StartCode(s)..])
  {
  }

  lemma Cut(s: Bytes, k: nat)
    requires k <= |s|
    ensures s == s[..k] + s[k..]
  {
  }

  /** One turn of the reader: `s` is a start code, the scanned bytes `head` and the rest `tail`. */
  lemma SplitStep(s: Bytes) returns (zero: bool, head: Bytes, tail: Bytes, n: Nal)
    requires s != [] && SplitUnits(s).Some?
    ensures s == ZeroByte(zero) + ([0, 0, 1] + (head + tail)) && |tail| < |s|
    ensures n == TrimZeros(head) && ValidNalu(n) && |head| == Scan(head + tail)
    ensures SplitUnits(tail).Some? && SplitUnits(s).value == [n] + SplitUnits(tail).value
  {
    hide Scan, TrimZeros, ValidNalu, StartCode, ZeroByte;
    LeaveCode(s);
    var body := s[StartCode(s)..];
    Cut(body, Scan(body));
    zero, head, tail := StartCode(s) == 4, body[..Scan(body)], body[Scan(body)..];
    n := TrimZeros(head);
  }

  lemma {:induction false} UnitsOfSplit(s: Bytes) returns (ps: seq<Piece>, zero: bool)
    requires SplitUnits(s).Some?
    ensures Nals(ps) == SplitUnits(s).value && AllClean(Nals(ps))
    ensures s == ZeroByte(zero) + Body(ps) && (zero ==> ps != [])
    decreases |s|
  {
    if s == [] {
      ps, zero := [], false;
    } else {
      hide SplitUnits, Scan, TrimZeros, Body, AllClean, StartCodeFree, ValidNalu, ZeroByte;
      var code, head, tail, n := SplitStep(s);
      var rest, more := UnitsOfSplit(tail);
      var k := TrimmedIs(head);
      assert n <= head + tail;
      ScannedPrefixIsFree(head + tail, n);
      var p := JoinPiece(n, k, more, rest);
      NalsOfCons(p, rest);
      ps, zero := [p] + rest, code;
    }
  }

  /** `b` is an Annex-B stream of the units `ns`. */
  ghost predicate StreamOf(b: Bytes, ns: seq<Nal>) {
    exists lead: nat, ps :: Nals(ps) == ns && IsStream(b, lead, ps)
  }

  lemma StreamOfSplit(b: Bytes)
    requires Split(b).Some?
    ensures StreamOf(b, Split(b).value) && AllClean(Split(b).value)
  {
    hide SplitUnits, Body;
    var lead := SkipZeros(b);
    SkipZerosAreZero(b);
    var ps, zero := UnitsOfSplit(b[lead..]);
    assert b == b[..lead] + b[lead..];
    assert Zeros(lead) + [0] == Zeros(lead + 1);
    assert IsStream(b, if zero then lead + 1 else lead, ps);
  }

  /** Split returns `ns` exactly on the Annex-B streams of the clean units `ns`: at least one and at most
      MAX_NALUS of them, any number of zero bytes before, between and after, within the size cap. */
  lemma SplitReadsTheLanguage(b: Bytes, ns: seq<Nal>)
    ensures Split(b) == Some(ns) <==>
            |b| <= MAX_ACCESS_UNIT_BYTES && 1 <= |ns| <= MAX_NALUS && AllClean(ns) && StreamOf(b, ns)
  {
    if Split(b) == Some(ns) {
      StreamOfSplit(b);
      SplitNotEmpty(b);
    }
    if |b| <= MAX_ACCESS_UNIT_BYTES && 1 <= |ns| <= MAX_NALUS && AllClean(ns) && StreamOf(b, ns) {
      var lead: nat, ps :| Nals(ps) == ns && IsStream(b, lead, ps);
      StreamSplits(b, lead, ps);
    }
  }

  lemma SplitNotEmpty(b: Bytes)
    requires Split(b).Some?
    ensures Split(b).value != []
  {
  }

  lemma {:induction false} SkipZerosAreZero(b: Bytes)
    ensures b[..SkipZeros(b)] == Zeros(SkipZeros(b))
  {
    if b != [] && StartCode(b) == 0 && b[0] == 0 {
      SkipZerosAreZero(b[1..]);
      assert b[..SkipZeros(b)] == [0] + b[1..][..SkipZeros(b[1..])];
    }
  }

  lemma StreamSplits(b: Bytes, lead: nat, ps: seq<Piece>)
    requires IsStream(b, lead, ps) && |b| <= MAX_ACCESS_UNIT_BYTES
    requires 1 <= |ps| <= MAX_NALUS && AllClean(Nals(ps))
    ensures Split(b) == Some(Nals(ps))
  {
    hide Body, Zeros, StartCode, SplitUnits, AllClean, SkipZeros, Split;
    BodyOf(ps);
    SkipLead(lead, Body(ps));
    SplitUnitsOfBody(ps, lead > 0);
    AfterLead(lead, Body(ps));
    SplitIs(b, ZeroByte(lead > 0) + Body(ps), Nals(ps));
  }

  lemma AfterLead(lead: nat, body: Bytes)
    ensures (Zeros(lead) + body)[if lead == 0 then 0 else lead - 1..] == ZeroByte(lead > 0) + body
  {
    if lead > 0 {
      LeadTail(lead, body);
    } else {
      assert Zeros(0) + body == body;
    }
  }

  lemma SplitIs(b: Bytes, s: Bytes, ns: seq<Nal>)
    requires |b| <= MAX_ACCESS_UNIT_BYTES && s == b[SkipZeros(b)..] && ns != []
    requires SplitUnits(s) == Some(ns) && |ns| <= MAX_NALUS
    ensures Split(b) == Some(ns)
  {
    hide SkipZeros;
  }

  // ---------------------------------------------------------------- printers

  ghost function PrintedPieces(ns: seq<Nal>): (ps: seq<Piece>)
    ensures |ps| == |ns| && forall i :: 0 <= i < |ns| ==> ps[i] == Piece(ns[i], if i == |ns| - 1 then 0 else 1)
  {
    seq(|ns|, i requires 0 <= i < |ns| => Piece(ns[i], if i == |ns| - 1 then 0 else 1))
  }

  lemma {:induction false} PrintIsStream(ns: seq<Nal>)
    requires ns != []
    ensures Print(ns) == Zeros(1) + Body(PrintedPieces(ns))
  {
    var ps := PrintedPieces(ns);
    assert ps[1..] == PrintedPieces(ns[1..]);
    if |ns| > 1 {
      PrintIsStream(ns[1..]);
      assert Print(ns[1..]) == Zeros(1) + Body(ps[1..]);
    } else {
      assert Print(ns[1..]) == [];
    }
  }

  /** Printing clean units and splitting the result gives the same list back. */
  lemma PrintThenSplit(ns: seq<Nal>)
    requires 1 <= |ns| <= MAX_NALUS && AllClean(ns) && |Print(ns)| <= MAX_ACCESS_UNIT_BYTES
    ensures Split(Print(ns)) == Some(ns)
  {
    PrintIsStream(ns);
    assert Nals(PrintedPieces(ns)) == ns;
    StreamSplits(Print(ns), 1, PrintedPieces(ns));
  }

  /** Whatever Split returns is a list of clean units. */
  lemma SplitIsClean(b: Bytes)
    requires Split(b).Some?
    ensures 1 <= |Split(b).value| <= MAX_NALUS && AllClean(Split(b).value)
  {
    SplitReadsTheLanguage(b, Split(b).value);
  }

  // ---------------------------------------------------------------- random access

  ghost predicate AllValid(ns: seq<Nal>) {
    forall i :: 0 <= i < |ns| ==> ValidNalu(ns[i])
  }

  /** An IDR picture together with the parameter sets it needs. */
  ghost predicate IdrUnits(ns: seq<Nal>) {
    AllValid(ns) && HasType(ns, 5) && HasType(ns, 7) && HasType(ns, 8)
  }

  /** The delivered bytes are the printing of a unit list a decoder can start at. */
  ghost predicate CarriesIdr(data: Bytes) {
    exists ns :: data == Print(ns) && IdrUnits(ns)
  }

  /** A three-byte start code at position `p`. */
  ghost predicate CodeAt(s: Bytes, p: nat) {
    p + 3 <= |s| && s[p] == 0 && s[p + 1] == 0 && s[p + 2] == 1
  }

  /** Some unit begins with byte `x`. */
  ghost predicate Begins(ns: seq<Nal>, x: Byte) {
    exists i :: 0 <= i < |ns| && ns[i] != [] && ns[i][0] == x
  }

  lemma BeginsCons(n: Nal, ns: seq<Nal>, x: Byte)
    ensures Begins([n] + ns, x) <==> Begins(ns, x) || (n != [] && n[0] == x)
  {
    var all := [n] + ns;
    assert all[0] == n;
    if i :| 0 <= i < |ns| && ns[i] != [] && ns[i][0] == x { assert all[i + 1] == ns[i]; }
    if i :| 0 <= i < |all| && all[i] != [] && all[i][0] == x {
      if i > 0 { assert ns[i - 1] == all[i]; }
    }
  }

  /** A start code of a piece is the one in front, or lies in the body behind it. */
  lemma CodeOfPiece(zero: bool, body: Bytes, p: nat)
    requires CodeAt(ZeroByte(zero) + ([0, 0, 1] + body), p)
    ensures var s, z := ZeroByte(zero) + ([0, 0, 1] + body), if zero then 1 else 0;
            || (p == z && forall x :: p + 3 == x < |s| ==> s[x] == body[0])
            || (p >= z + 3 && CodeAt(body, p - z - 3) && forall x :: p + 3 == x < |s| ==> s[x] == body[x - z - 3])
  {
  }

  lemma CodeBehind(head: Bytes, tail: Bytes, q: nat)
    requires CodeAt(head + tail, q) && |head| == Scan(head + tail)
    ensures q >= |head| && CodeAt(tail, q - |head|)
    ensures forall x :: q + 3 == x < |head + tail| ==> (head + tail)[x] == tail[x - |head|]
  {
    hide Scan;
    if q < |head| { ScannedHasNoCode(head + tail, q); }
  }

  /** The reader takes every start code for one: a unit begins right behind it. */
  lemma {:induction false} CodesAreSeen(s: Bytes, p: nat)
    requires SplitUnits(s).Some? && CodeAt(s, p)
    ensures p + 3 < |s| && Begins(SplitUnits(s).value, s[p + 3])
    decreases |s|
  {
    hide SplitUnits, Scan, TrimZeros, ValidNalu, Begins, CodeAt;
    CodeIsWithin(s, p);
    var zero, head, tail, n := SplitStep(s);
    var k := TrimmedIs(head);
    ValidIsNonempty(n);
    CodeOfPiece(zero, head + tail, p);
    var z := if zero then 1 else 0;
    if p == z {
      assert head[0] == n[0];
      BeginsCons(n, SplitUnits(tail).value, n[0]);
    } else {
      var q := p - z - 3;
      CodeBehind(head, tail, q);
      CodesAreSeen(tail, q - |head|);
      BeginsCons(n, SplitUnits(tail).value, s[p + 3]);
    }
  }

  lemma CodeIsWithin(s: Bytes, p: nat)
    requires CodeAt(s, p)
    ensures s != []
  {
  }

  lemma {:induction false} SkippedHasNoCode(b: Bytes, i: nat)
    requires i < SkipZeros(b)
    ensures StartCode(b[i..]) == 0
  {
    if i == 0 {
      assert b[0..] == b;
    } else {
      assert b[1..][i - 1..] == b[i..];
      SkippedHasNoCode(b[1..], i - 1);
    }
  }

  lemma StreamCodesAreSeen(b: Bytes, p: nat)
    requires Split(b).Some? && CodeAt(b, p)
    ensures p + 3 < |b| && Begins(Split(b).value, b[p + 3])
  {
    hide SplitUnits, Begins;
    var lead := SkipZeros(b);
    if p < lead { SkippedHasNoCode(b, p); }
    assert CodeAt(b[lead..], p - lead);
    CodesAreSeen(b[lead..], p - lead);
  }

  lemma CodeShifts(head: Bytes, rest: Bytes, q: nat)
    requires CodeAt(rest, q) && q + 3 < |rest|
    ensures CodeAt(head + rest, |head| + q) && |head| + q + 3 < |head + rest|
    ensures (head + rest)[|head| + q + 3] == rest[q + 3]
  {
  }

  lemma FirstCode(n: Nal, rest: Bytes)
    requires n != []
    ensures CodeAt(Unit(n) + rest, 1) && 4 < |Unit(n) + rest| && (Unit(n) + rest)[4] == n[0]
  {
  }

  /** A printed unit stands behind a start code. */
  lemma {:induction false} PrintedCode(ns: seq<Nal>, i: nat) returns (p: nat)
    requires i < |ns| && ns[i] != []
    ensures CodeAt(Print(ns), p) && p + 3 < |Print(ns)| && Print(ns)[p + 3] == ns[i][0]
  {
    hide CodeAt, Unit;
    if i == 0 {
      p := 1;
      FirstCode(ns[0], Print(ns[1..]));
    } else {
      var q := PrintedCode(ns[1..], i - 1);
      p := |Unit(ns[0])| + q;
      CodeShifts(Unit(ns[0]), Print(ns[1..]), q);
    }
  }

  lemma PrintedTypeIsSeen(ns: seq<Nal>, t: int)
    requires Split(Print(ns)).Some? && HasType(ns, t)
    ensures HasType(Split(Print(ns)).value, t)
  {
    hide Print, Split;
    var i :| 0 <= i < |ns| && ns[i] != [] && NalType(ns[i]) == t;
    var p := PrintedCode(ns, i);
    StreamCodesAreSeen(Print(ns), p);
  }

  /** Bytes that carry an IDR with its parameter sets are a stream a decoder can start at, judged from the bytes alone,
      exactly when they are a byte stream within the limits at all: a start code inside a unit may cut it, but no
      unit is lost. */
  lemma CarriedIsConfigured(data: Bytes)
    requires CarriesIdr(data)
    ensures ConfiguredIdr(data) <==> Split(data).Some?
  {
    hide Print, Split, HasType;
    var ns :| data == Print(ns) && IdrUnits(ns);
    if Split(data).Some? {
      PrintedTypeIsSeen(ns, 5);
      PrintedTypeIsSeen(ns, 7);
      PrintedTypeIsSeen(ns, 8);
    }
  }

  /** Printed clean units are a stream a decoder can start at exactly when an IDR slice and both kinds of parameter
      set, of types 5, 7 and 8, are among them. */
  lemma ConfiguredExactly(ns: seq<Nal>)
    requires 1 <= |ns| <= MAX_NALUS && AllClean(ns) && |Print(ns)| <= MAX_ACCESS_UNIT_BYTES
    ensures ConfiguredIdr(Print(ns)) <==> HasType(ns, 5) && HasType(ns, 7) && HasType(ns, 8)
  {
    hide Print, Split, AllClean, HasType;
    PrintThenSplit(ns);
  }

  // ---------------------------------------------------------------- length prefixes

  ghost predicate AllSmall(ns: seq<Nal>) {
    forall n :: n in ns ==> |n| < 0x1_0000_0000
  }

  lemma LengthUnitsCons(n: Nal, tail: Bytes)
    requires ValidNalu(n) && |n| < 0x1_0000_0000
    ensures SplitLengthUnits(LengthUnit(n) + tail) == After([n], SplitLengthUnits(tail))
  {
    hide ValidNalu, Be32;
    var s := LengthUnit(n) + tail;
    assert s[..4] == PutBe32(|n|);
    assert s[0] == s[..4][0] && s[1] == s[..4][1] && s[2] == s[..4][2] && s[3] == s[..4][3];
    assert s[4..4 + |n|] == n && s[4 + |n|..] == tail;
    assert n != [] by { ValidIsNonempty(n); }
  }

  lemma ValidIsNonempty(n: Nal)
    requires ValidNalu(n)
    ensures n != []
  {
  }

  lemma {:induction false} LengthUnitsOfPrint(ns: seq<Nal>)
    requires AllValid(ns) && AllSmall(ns)
    ensures SplitLengthUnits(PrintLengths(ns)) == Some(ns)
  {
    hide SplitLengthUnits, LengthUnit;
    if ns == [] {
      LengthUnitsOfNothing([]);
    } else {
      assert ns[0] in ns;
      forall i | 0 <= i < |ns| - 1 ensures ValidNalu(ns[1..][i]) { assert ns[1..][i] == ns[i + 1]; }
      LengthUnitsOfPrint(ns[1..]);
      LengthUnitsCons(ns[0], PrintLengths(ns[1..]));
      assert ns == [ns[0]] + ns[1..];
    }
  }

  /** One unit read: `s` is its length, its bytes and the rest `tail`. */
  lemma LengthUnitsStep(s: Bytes) returns (n: Nal, tail: Bytes)
    requires s != [] && SplitLengthUnits(s).Some?
    ensures |n| < 0x1_0000_0000 && s == LengthUnit(n) + tail && |tail| < |s| && ValidNalu(n)
    ensures SplitLengthUnits(tail).Some? && SplitLengthUnits(s).value == [n] + SplitLengthUnits(tail).value
  {
    hide ValidNalu, Be32, PutBe32;
    var k := Be32(s[0], s[1], s[2], s[3]);
    var rest := s[4..];
    n, tail := rest[..k], rest[k..];
    assert n == s[4..4 + k] && tail == s[4 + k..];
    PutAfterBe32(s[0], s[1], s[2], s[3]);
    assert [s[0], s[1], s[2], s[3]] == s[..4];
    Cut(s, 4);
    Cut(rest, k);
    assert s[..4] + (n + tail) == s[..4] + n + tail;
  }

  lemma {:induction false} PrintOfLengthUnits(s: Bytes)
    requires SplitLengthUnits(s).Some?
    ensures var ns := SplitLengthUnits(s).value;
            AllValid(ns) && AllSmall(ns) && PrintLengths(ns) == s
    decreases |s|
  {
    if s != [] {
      hide SplitLengthUnits, LengthUnit, ValidNalu;
      var n, tail := LengthUnitsStep(s);
      PrintOfLengthUnits(tail);
      var rest := SplitLengthUnits(tail).value;
      assert ([n] + rest)[1..] == rest;
    }
  }

  /** The length-prefixed reader accepts exactly what its printer writes, within the caps. */
  lemma SplitLengthsReadsThePrinter(b: Bytes, ns: seq<Nal>)
    ensures SplitLengths(b) == Some(ns) <==>
            && |b| <= MAX_ACCESS_UNIT_BYTES && 1 <= |ns| <= MAX_NALUS
            && AllValid(ns) && AllSmall(ns) && b == PrintLengths(ns)
  {
    hide SplitLengthUnits;
    LengthUnitsOfNothing(b);
    if SplitLengths(b) == Some(ns) {
      PrintOfLengthUnits(b);
      assert ns != [];
    } else if AllValid(ns) && AllSmall(ns) && b == PrintLengths(ns) {
      LengthUnitsOfPrint(ns);
    }
  }

  /** Converting an accepted stream to length prefixes keeps its units exactly when the result fits the
      reader's cap: a three-byte start code grows by one byte. */
  lemma ConversionKeepsUnits(b: Bytes)
    requires Split(b).Some?
    ensures AllSmall(Split(b).value)
    ensures SplitLengths(PrintLengths(Split(b).value)) == Split(b)
            <==> |PrintLengths(Split(b).value)| <= MAX_ACCESS_UNIT_BYTES
  {
    var ns := Split(b).value;
    SplitFits(b);
    SplitIsClean(b);
    assert AllValid(ns) by { forall i | 0 <= i < |ns| ensures ValidNalu(ns[i]) { assert Clean(ns[i]); } }
    SplitLengthsReadsThePrinter(PrintLengths(ns), ns);
  }

  /** A full-size unit behind a three-byte start code no longer fits after conversion. */
  lemma ConversionCanOutgrowTheCap() returns (b: Bytes)
    ensures Split(b).Some? && AllSmall(Split(b).value)
    ensures SplitLengths(PrintLengths(Split(b).value)) != Split(b)
  {
    var n: Nal := seq(MAX_ACCESS_UNIT_BYTES - 3, _ => 1);
    b := [0, 0, 1] + n;
    var ps := [Piece(n, 0)];
    assert Clean(n) by { assert n[0] == 1; }
    assert Nals(ps) == [n];
    assert b == Zeros(0) + Body(ps) by {
      assert ps[1..] == [];
      assert n + Zeros(0) + [] == n;
    }
    StreamSplits(b, 0, ps);
    assert PrintLengths([n]) == LengthUnit(n) + PrintLengths([]) by { assert [n][1..] == []; }
    ConversionKeepsUnits(b);
  }
}
