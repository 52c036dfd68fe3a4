/** A reference reader for transport-wide feedback, written from section 3.1 of
    draft-holmer-rmcat-transport-wide-cc-extensions-01, and the proof that it reads what the receiver builds. */
module TwccFeedback {
  import opened Wire
  import opened TwccModel

  datatype Feedback = Feedback(senderSsrc: U32, mediaSsrc: U32, base: U16, reference: int, fbCount: Byte,
                               packets: seq<Option<int>>)

  // ---------------------------------------------------------------- the reference reader

  function Repeated(symbol: int, n: nat): seq<int> {
    seq(n, _ => symbol)
  }

  /** The symbols of one 16-bit chunk: a run length, a vector of 14 one-bit or of 7 two-bit symbols. */
  function ChunkSymbols(c: U16): seq<int> {
    if c < 0x8000 then Repeated((c / 0x2000) % 4, c % 0x2000)
    else if (c / 0x4000) % 2 == 0 then
      [(c / 8192) % 2, (c / 4096) % 2, (c / 2048) % 2, (c / 1024) % 2, (c / 512) % 2, (c / 256) % 2, (c / 128) % 2,
       (c / 64) % 2, (c / 32) % 2, (c / 16) % 2, (c / 8) % 2, (c / 4) % 2, (c / 2) % 2, c % 2]
    else
      [PairAt(c, 4096), PairAt(c, 1024), PairAt(c, 256), PairAt(c, 64), PairAt(c, 16), PairAt(c, 4), PairAt(c, 1)]
  }

  /** The two bits of weight `w`. */
  function PairAt(c: nat, w: int): int
    requires w > 0
  {
    (c / w) % 4
  }

  datatype Symbols = Symbols(list: seq<int>, rest: Bytes)

  /** Chunks until `count` symbols are read; what a last chunk holds beyond them is ignored. */
  function ReadChunks(b: Bytes, count: nat): Option<Symbols>
    decreases |b|
  {
    if count == 0 then Some(Symbols([], b))
    else if |b| < 2 then None
    else
      var syms := ChunkSymbols(Be16(b[0], b[1]));
      if |syms| >= count then Some(Symbols(syms[..count], b[2..]))
      else Prepend(syms, ReadChunks(b[2..], count - |syms|))
  }

  function Prepend(first: seq<int>, rest: Option<Symbols>): Option<Symbols> {
    match rest
    case None => None
    case Some(more) => Some(Symbols(first + more.list, more.rest))
  }

  function Signed16(v: U16): int {
    if v < 0x8000 then v else v - 0x1_0000
  }

  datatype Reception = Reception(list: seq<Option<int>>, rest: Bytes)

  function ReadDeltas(syms: seq<int>, b: Bytes): Option<Reception> {
    if syms == [] then Some(Reception([], b))
    else if syms[0] == 0 then Then(None, ReadDeltas(syms[1..], b))
    else if syms[0] == 1 then
      if |b| < 1 then None else Then(Some(b[0]), ReadDeltas(syms[1..], b[1..]))
    else if syms[0] == 2 then
      if |b| < 2 then None else Then(Some(Signed16(Be16(b[0], b[1]))), ReadDeltas(syms[1..], b[2..]))
    else None
  }

  function Then(first: Option<int>, rest: Option<Reception>): Option<Reception> {
    match rest
    case None => None
    case Some(r) => Some(Reception([first] + r.list, r.rest))
  }

  function ReadFeedback(b: Bytes): Option<Feedback> {
    hide *;
    if |b| < 20 || b[0] != 0x8f || b[1] != 205 || (Be16(b[2], b[3]) + 1) * 4 != |b| then None
    else match ReadChunks(b[20..], Be16(b[14], b[15]))
      case None => None
      case Some(syms) => match ReadDeltas(syms.list, syms.rest)
        case None => None
        case Some(d) =>
          if |d.rest| >= 4 then None
          else Some(Feedback(Be32(b[4], b[5], b[6], b[7]), Be32(b[8], b[9], b[10], b[11]), Be16(b[12], b[13]),
                             Be24(b[16], b[17], b[18]), b[19], d.list))
  }

  // ---------------------------------------------------------------- chunks

  ghost predicate StatusOk(s: Status) {
    (s.kind == 0) || (s.kind == 1 && 0 <= s.ticks <= 255) || (s.kind == 2 && -32768 <= s.ticks <= 32767)
  }

  ghost predicate AllOk(ss: seq<Status>) {
    forall i :: 0 <= i < |ss| ==> StatusOk(ss[i])
  }

  function Kinds(ss: seq<Status>): (ks: seq<int>)
    ensures |ks| == |ss| && forall i :: 0 <= i < |ss| ==> ks[i] == ss[i].kind
  {
    seq(|ss|, i requires 0 <= i < |ss| => ss[i].kind)
  }

  lemma RunReads(kind: int, n: nat)
    requires 0 <= kind <= 2 && n <= 8191
    ensures 0 <= RunChunk(kind, n) < 0x8000
    ensures ChunkSymbols(RunChunk(kind, n)) == Repeated(kind, n)
  {
  }

  lemma Digit(hi: nat, symbol: int, lo: nat, w: int)
    requires 0 <= symbol < 4 && lo < w
    ensures PairAt((hi * 4 + symbol) * w + lo, w) == symbol
  {
    var q := hi * 4 + symbol;
    var v := q * w + lo;
    assert w * (v / w - q) == lo - v % w;
    SmallMultiple(w, v / w - q);
  }

  lemma VectorReads(a: int, b: int, c: int, d: int, e: int, f: int, g: int)
    requires 0 <= a <= 2 && 0 <= b <= 2 && 0 <= c <= 2 && 0 <= d <= 2 && 0 <= e <= 2 && 0 <= f <= 2 && 0 <= g <= 2
    ensures var v := 0xC000 + a * 4096 + b * 1024 + c * 256 + d * 64 + e * 16 + f * 4 + g;
            v < 0x1_0000 && ChunkSymbols(v) == [a, b, c, d, e, f, g]
  {
    hide PairAt;
    Digit(3, a, b * 1024 + c * 256 + d * 64 + e * 16 + f * 4 + g, 4096);
    Digit(12 + a, b, c * 256 + d * 64 + e * 16 + f * 4 + g, 1024);
    Digit(48 + a * 4 + b, c, d * 64 + e * 16 + f * 4 + g, 256);
    Digit(192 + a * 16 + b * 4 + c, d, e * 16 + f * 4 + g, 64);
    Digit(768 + a * 64 + b * 16 + c * 4 + d, e, f * 4 + g, 16);
    Digit(3072 + a * 256 + b * 64 + c * 16 + d * 4 + e, f, g, 4);
    Digit(12288 + a * 1024 + b * 256 + c * 64 + d * 16 + e * 4 + f, g, 0, 1);
  }

  lemma SymbolOk(ss: seq<Status>, j: nat)
    requires AllOk(ss)
    ensures 0 <= Symbol(ss, j) <= 2
  {
    if j < |ss| { assert StatusOk(ss[j]); }
  }

  /** The next chunk reads as the statuses it covers, up to symbols beyond the last status. */
  lemma NextChunkReads(ss: seq<Status>)
    requires ss != [] && AllOk(ss)
    ensures 0 <= NextChunk(ss) < 0x1_0000
    ensures var syms := ChunkSymbols(NextChunk(ss));
            |syms| >= Covered(ss) && syms[..Covered(ss)] == Kinds(ss)[..Covered(ss)]
            && (Covered(ss) < |ss| ==> |syms| == Covered(ss))
  {
    hide ChunkSymbols, AllOk, Kinds, VectorChunk, RunChunk, Run;
    SymbolOk(ss, 0);
    if Run(ss) >= 7 {
      RunReads(ss[0].kind, Run(ss));
      RunIsUniform(ss);
    } else {
      VectorChunkReads(ss);
    }
  }

  lemma VectorChunkReads(ss: seq<Status>)
    requires ss != [] && AllOk(ss)
    ensures 0 <= VectorChunk(ss) < 0x1_0000
    ensures var syms := ChunkSymbols(VectorChunk(ss));
            var n := if |ss| < 7 then |ss| else 7;
            |syms| == 7 && syms[..n] == Kinds(ss)[..n]
  {
    hide ChunkSymbols, AllOk, Symbol, Kinds;
    SymbolOk(ss, 0);
    SymbolOk(ss, 1);
    SymbolOk(ss, 2);
    SymbolOk(ss, 3);
    SymbolOk(ss, 4);
    SymbolOk(ss, 5);
    SymbolOk(ss, 6);
    VectorReads(Symbol(ss, 0), Symbol(ss, 1), Symbol(ss, 2), Symbol(ss, 3), Symbol(ss, 4), Symbol(ss, 5),
      Symbol(ss, 6));
    VectorPrefix(ss);
  }

  lemma VectorPrefix(ss: seq<Status>)
    requires ss != []
    ensures var n := if |ss| < 7 then |ss| else 7;
            [Symbol(ss, 0), Symbol(ss, 1), Symbol(ss, 2), Symbol(ss, 3), Symbol(ss, 4), Symbol(ss, 5),
              Symbol(ss, 6)][..n]
            == Kinds(ss)[..n]
  {
  }

  lemma RunIsUniform(ss: seq<Status>)
    requires ss != []
    ensures Repeated(ss[0].kind, Run(ss)) == Kinds(ss)[..Run(ss)]
  {
    forall i | 0 <= i < Run(ss) ensures Kinds(ss)[..Run(ss)][i] == ss[0].kind {
      if i > 0 { assert ss[1..][i - 1] == ss[i]; }
    }
  }

  lemma ChunkBytesCons(c: int, cs: seq<int>, tail: Bytes)
    requires 0 <= c < 0x1_0000
    ensures var b := ChunkBytes([c] + cs) + tail;
            |b| >= 2 && Be16(b[0], b[1]) == c && b[2..] == ChunkBytes(cs) + tail
  {
    hide Be16;
    var b := ChunkBytes([c] + cs) + tail;
    assert ([c] + cs)[1..] == cs;
    assert b == PutBe16(c) + (ChunkBytes(cs) + tail);
    assert b[0] == PutBe16(c)[0] && b[1] == PutBe16(c)[1];
  }

  lemma {:induction false} ChunksRead(ss: seq<Status>, tail: Bytes)
    requires AllOk(ss)
    ensures ReadChunks(ChunkBytes(Chunks(ss)) + tail, |ss|) == Some(Symbols(Kinds(ss), tail))
    decreases |ss|
  {
    if ss == [] {
      assert [] + tail == tail;
      assert Kinds([]) == [];
    } else {
      hide NextChunk, Covered, ChunkBytes, Kinds, ChunkSymbols, Be16;
      var n, rest := Covered(ss), ss[Covered(ss)..];
      var b := ChunkBytes(Chunks(ss)) + tail;
      NextChunkReads(ss);
      ChunkBytesCons(NextChunk(ss), Chunks(rest), tail);
      forall i | 0 <= i < |rest| ensures StatusOk(rest[i]) { assert rest[i] == ss[i + n]; }
      ChunksRead(rest, tail);
      KindsSplit(ss, n);
      ReadChunksStep(b, |ss|, n, Kinds(ss)[..n]);
    }
  }

  lemma KindsSplit(ss: seq<Status>, n: nat)
    requires n <= |ss|
    ensures Kinds(ss) == Kinds(ss)[..n] + Kinds(ss[n..])
    ensures n == |ss| ==> Kinds(ss)[..n] == Kinds(ss) && ChunkBytes(Chunks(ss[n..])) == []
  {
    forall i | n <= i < |ss| ensures Kinds(ss)[i] == Kinds(ss[n..])[i - n] { assert ss[n..][i - n] == ss[i]; }
  }

  lemma ReadChunksStep(b: Bytes, count: nat, n: nat, prefix: seq<int>)
    requires |b| >= 2 && 1 <= n <= count && n == |prefix|
    requires var syms := ChunkSymbols(Be16(b[0], b[1]));
             |syms| >= n && syms[..n] == prefix && (n < count ==> |syms| == n)
    ensures n == count ==> ReadChunks(b, count) == Some(Symbols(prefix, b[2..]))
    ensures n < count ==> ReadChunks(b, count) == Prepend(prefix, ReadChunks(b[2..], count - n))
  {
    hide ChunkSymbols, Be16;
    var syms := ChunkSymbols(Be16(b[0], b[1]));
    if n < count { assert syms == prefix; }
  }

  // ---------------------------------------------------------------- deltas

  function Reported(ss: seq<Status>): (r: seq<Option<int>>)
    ensures |r| == |ss| && forall i :: 0 <= i < |ss| ==> r[i] == if ss[i].kind == 0 then None else Some(ss[i].ticks)
  {
    seq(|ss|, i requires 0 <= i < |ss| => if ss[i].kind == 0 then None else Some(ss[i].ticks))
  }

  lemma OneDelta(s: Status, kinds: seq<int>, tail: Bytes)
    requires StatusOk(s)
    ensures ReadDeltas([s.kind] + kinds, DeltaBytes(s) + tail)
            == Then(if s.kind == 0 then None else Some(s.ticks), ReadDeltas(kinds, tail))
  {
    var b := DeltaBytes(s) + tail;
    assert ([s.kind] + kinds)[1..] == kinds;
    if s.kind == 0 {
      assert b == tail;
    } else if s.kind == 1 {
      assert b[1..] == tail;
    } else {
      hide PutBe16, Be16;
      var p := PutBe16(s.ticks % 0x1_0000);
      assert b[0] == p[0] && b[1] == p[1] && b[2..] == tail;
      SignedBack(s.ticks);
    }
  }

  lemma SignedBack(v: int)
    requires -32768 <= v <= 32767
    ensures Signed16(v % 0x1_0000) == v
  {
  }

  lemma {:induction false} DeltasRead(ss: seq<Status>, tail: Bytes)
    requires AllOk(ss)
    ensures ReadDeltas(Kinds(ss), Deltas(ss) + tail) == Some(Reception(Reported(ss), tail))
  {
    if ss == [] {
      hide DeltaBytes;
      assert [] + tail == tail;
      assert Reported([]) == [] && Kinds([]) == [];
    } else {
      hide ReadDeltas, DeltaBytes, Kinds, Reported, Deltas, AllOk;
      var s, rest := ss[0], ss[1..];
      RestOk(ss);
      DeltasRead(rest, tail);
      OneDelta(s, Kinds(rest), Deltas(rest) + tail);
      ConsKinds(ss);
      ConsDeltas(ss, tail);
    }
  }

  lemma RestOk(ss: seq<Status>)
    requires ss != [] && AllOk(ss)
    ensures StatusOk(ss[0]) && AllOk(ss[1..])
  {
    forall i | 0 <= i < |ss[1..]| ensures StatusOk(ss[1..][i]) { assert ss[1..][i] == ss[i + 1]; }
  }

  lemma ConsKinds(ss: seq<Status>)
    requires ss != []
    ensures Kinds(ss) == [ss[0].kind] + Kinds(ss[1..])
    ensures Reported(ss) == [if ss[0].kind == 0 then None else Some(ss[0].ticks)] + Reported(ss[1..])
  {
    forall i | 1 <= i < |ss| ensures ss[1..][i - 1] == ss[i] {}
  }

  lemma ConsDeltas(ss: seq<Status>, tail: Bytes)
    requires ss != []
    ensures Deltas(ss) + tail == DeltaBytes(ss[0]) + (Deltas(ss[1..]) + tail)
  {
    hide DeltaBytes;
  }

  // ---------------------------------------------------------------- the packet

  lemma {:induction false} StatusesOk(w: seq<Record>)
    ensures AllOk(Statuses(w))
    ensures forall i :: 0 <= i < |w| ==> Statuses(w)[i] == StatusAfter(w[..i], w[i])
  {
    hide TicksAfter;
    if w != [] {
      var n := |w| - 1;
      StatusesOk(w[..n]);
      forall i | 0 <= i < |w| ensures Statuses(w)[i] == StatusAfter(w[..i], w[i]) && StatusOk(Statuses(w)[i]) {
        if i < n {
          assert w[..n][..i] == w[..i] && w[..n][i] == w[i];
          assert StatusOk(Statuses(w[..n])[i]);
        }
      }
    }
  }

  /** Where the fields of the header lie. */
  lemma Placed(w: Bytes, s: Bytes, m: Bytes, a: Bytes, c: Bytes, r: Bytes, fbCount: Byte, tail: Bytes)
    requires |w| == 2 && |s| == 4 && |m| == 4 && |a| == 2 && |c| == 2 && |r| == 3
    ensures var b := [0x8f, 205] + w + s + m + a + c + r + [fbCount] + tail;
            && |b| == 20 + |tail| && b[20..] == tail && b[0] == 0x8f && b[1] == 205
            && b[2..4] == w && b[2] == w[0] && b[3] == w[1]
            && b[4] == s[0] && b[5] == s[1] && b[6] == s[2] && b[7] == s[3]
            && b[8] == m[0] && b[9] == m[1] && b[10] == m[2] && b[11] == m[3]
            && b[12] == a[0] && b[13] == a[1] && b[14] == c[0] && b[15] == c[1]
            && b[16] == r[0] && b[17] == r[1] && b[18] == r[2] && b[19] == fbCount
  {
  }

  lemma HeadReads(senderSsrc: U32, mediaSsrc: U32, base: U16, count: U16, reference: int, fbCount: Byte, words: int,
                  tail: Bytes)
    requires 0 <= words < 0x1_0000
    ensures var b := Head(senderSsrc, mediaSsrc, base, count, reference, fbCount, words) + tail;
            && |b| == 20 + |tail| && b[20..] == tail && b[0] == 0x8f && b[1] == 205
            && Be16(b[2], b[3]) == words && Be32(b[4], b[5], b[6], b[7]) == senderSsrc
            && Be32(b[8], b[9], b[10], b[11]) == mediaSsrc && Be16(b[12], b[13]) == base && Be16(b[14], b[15]) == count
            && Be24(b[16], b[17], b[18]) == reference % 0x100_0000 && b[19] == fbCount
  {
    hide Be16, Be32, Be24, PutBe16, PutBe32, PutBe24;
    var h := Head(senderSsrc, mediaSsrc, base, count, reference, fbCount, words);
    var w, s, m := PutBe16(words), PutBe32(senderSsrc), PutBe32(mediaSsrc);
    var a, c, r := PutBe16(base), PutBe16(count), PutBe24(reference % 0x100_0000);
    Put24Back(reference % 0x100_0000);
    assert h == [0x8f, 205] + w + s + m + a + c + r + [fbCount];
    Placed(w, s, m, a, c, r, fbCount, tail);
  }

  lemma {:induction false} ChunkBytesSize(ss: seq<Status>)
    ensures |ChunkBytes(Chunks(ss))| <= 2 * |ss|
    decreases |ss|
  {
    hide NextChunk, Covered, PutBe16;
    if ss != [] {
      var rest := ss[Covered(ss)..];
      ChunkBytesSize(rest);
      assert ([NextChunk(ss)] + Chunks(rest))[1..] == Chunks(rest);
    }
  }

  lemma {:induction false} DeltasSize(ss: seq<Status>)
    ensures |Deltas(ss)| <= 2 * |ss|
  {
    if ss != [] { DeltasSize(ss[1..]); }
  }

  /** What the reader finds in a built packet. */
  ghost function Expected(s: State, senderSsrc: U32, mediaSsrc: U32, reference: int): Feedback {
    Feedback(senderSsrc, mediaSsrc, s.pending.base, reference % 0x100_0000, s.fbCount, Reported(Statuses(Window(s))))
  }

  /** The round trip: every built packet is well formed, its length field included, and reads back as the base
      number, the reference time and the status of every reported record with its delta. */
  lemma BuiltPacketReads(s: State, senderSsrc: U32, mediaSsrc: U32)
    requires Build(s, senderSsrc, mediaSsrc).packet != []
    ensures s.pending.some && Reference(Window(s)).Some?
    ensures ReadFeedback(Build(s, senderSsrc, mediaSsrc).packet)
            == Some(Expected(s, senderSsrc, mediaSsrc, Reference(Window(s)).value))
  {
    hide Head, ReadChunks, ReadDeltas, Be16, Be32, Statuses, Chunks, Deltas, ChunkBytes, Window, Kinds, Reported,
      Reference;
    var ss, reference := Statuses(Window(s)), Reference(Window(s)).value;
    StatusesOk(Window(s));
    ChunkBytesSize(ss);
    DeltasSize(ss);
    var body := ChunkBytes(Chunks(ss)) + Deltas(ss);
    var pad := Padding(|body|);
    var words := (20 + |body| + pad) / 4 - 1;
    WordsFit(|body|);
    var b := Packet(s, senderSsrc, mediaSsrc, reference);
    var head := Head(senderSsrc, mediaSsrc, s.pending.base, Count(s.pending), reference, s.fbCount, words);
    assert b == head + (body + Zeros(pad));
    HeadReads(senderSsrc, mediaSsrc, s.pending.base, Count(s.pending), reference, s.fbCount, words, body + Zeros(pad));
    assert body + Zeros(pad) == ChunkBytes(Chunks(ss)) + (Deltas(ss) + Zeros(pad));
    ChunksRead(ss, Deltas(ss) + Zeros(pad));
    DeltasRead(ss, Zeros(pad));
  }

  lemma WordsFit(n: nat)
    requires n <= 4 * MAX_REPORTED
    ensures var pad := Padding(n);
            var words := (20 + n + pad) / 4 - 1;
            0 <= pad < 4 && 0 <= words < 0x1_0000 && (words + 1) * 4 == 20 + n + pad
  {
  }
}
