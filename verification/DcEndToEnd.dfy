/** Sender and receiver together: what sendAccessUnit emits is what the depacketizer delivers. */
module DcEndToEnd {
  import opened Wire
  import opened AnnexB
  import opened AnnexBLaws
  import opened DcModel
  import opened DcInvariants
  import opened DcPacketizer
  import opened DcReassembly

  /** An access unit handed to the sender. */
  datatype Au = Au(data: Bytes, timestampUs: int, key: bool)

  /** Whether the bytes hold an IDR slice, whatever the sender's flag says. */
  predicate Idr(a: Au)
    requires Split(a.data).Some?
  {
    HasType(Split(a.data).value, 5)
  }

  /** The parameter sets a receiver has stored; empty when it has none. */
  datatype Sets = Sets(sps: Nal, pps: Nal)

  const NO_SETS := Sets([], [])

  function KnownTo(s: State): Sets {
    Sets(s.sps, s.pps)
  }

  /** The last parameter sets of the unit, if it brings any, else those known before. */
  function SetsAfter(known: Sets, a: Au): Sets
    requires Split(a.data).Some?
  {
    var ns := Split(a.data).value;
    if LastOf(ns, 7) == [] then known else Sets(LastOf(ns, 7), LastOf(ns, 8))
  }

  /** A unit the receiver has no reason to refuse: what is flagged as a keyframe holds an IDR, one parameter set never
      comes without the other, and with an IDR both are known, from this unit or from before. */
  ghost predicate AuOk(known: Sets, a: Au) {
    && 0 < |a.data| <= MAX_AU_BYTES && Split(a.data).Some?
    && (a.key ==> Idr(a))
    && (HasType(Split(a.data).value, 7) <==> HasType(Split(a.data).value, 8))
    && (Idr(a) ==> SetsAfter(known, a).sps != [] && SetsAfter(known, a).pps != [])
  }

  /** The delivered form: delimiter, the parameter sets before an IDR, and the other units in order. */
  function Delivered(known: Sets, a: Au): seq<Nal>
    requires Split(a.data).Some?
  {
    AccessUnit(Split(a.data).value, Idr(a), SetsAfter(known, a).sps, SetsAfter(known, a).pps)
  }

  function OutputOf(known: Sets, a: Au): Output
    requires Split(a.data).Some?
  {
    Output(Print(Delivered(known, a)), a.timestampUs % 0x1_0000_0000)
  }

  function SendingOf(a: Au, seqNo: int): Sending
    requires 0 < |a.data| <= MAX_AU_BYTES
  {
    Sending(seqNo % 0x1_0000, a.timestampUs % 0x1_0000_0000, if a.key then 1 else 0, Parts(a.data))
  }

  lemma {:induction false} SizeIsLength(parts: seq<Bytes>)
    ensures Size(parts) == |Concat(parts)|
  {
    if parts != [] {
      var init := parts[..|parts| - 1];
      SizeIsLength(init);
      ConcatSnoc(init, parts[|parts| - 1]);
      assert parts == init + [parts[|parts| - 1]];
    }
  }

  lemma SendingIsOk(a: Au, seqNo: int)
    requires 0 < |a.data| <= MAX_AU_BYTES
    ensures SendingOk(SendingOf(a, seqNo))
    ensures Carries(Packets(a.data, seqNo, a.timestampUs, a.key), SendingOf(a, seqNo))
  {
    hide ParseChunk, Part, PacketOf, Size, Count;
    PartsAreTheUnit(a.data);
    SizeIsLength(Parts(a.data));
    CountBound(a.data);
    forall i | 0 <= i < Count(a.data)
      ensures ParseChunk(Packets(a.data, seqNo, a.timestampUs, a.key)[i]) == Some(ChunkOf(SendingOf(a, seqNo), i))
    {
      PacketParses(a.data, seqNo, a.timestampUs, a.key, i);
    }
  }

  lemma CountBound(data: Bytes)
    requires 0 < |data| <= MAX_AU_BYTES
    ensures 0 < Count(data) <= MAX_CHUNKS
  {
  }

  // ---------------------------------------------------------------- what assembling a unit gives

  lemma {:induction false} LastOfSome(ns: seq<Nal>, t: int)
    ensures LastOf(ns, t) != [] <==> HasType(ns, t)
    ensures LastOf(ns, t) != [] ==> LastOf(ns, t) in ns && NalType(LastOf(ns, t)) == t
  {
    hide NalType;
    if ns != [] {
      var init, n := ns[..|ns| - 1], ns[|ns| - 1];
      LastOfSome(init, t);
      if !(n != [] && NalType(n) == t) {
        if HasType(ns, t) {
          var i :| 0 <= i < |ns| && ns[i] != [] && NalType(ns[i]) == t;
          assert init[i] == ns[i];
        }
        if HasType(init, t) {
          var i :| 0 <= i < |init| && init[i] != [] && NalType(init[i]) == t;
          assert ns[i] == init[i];
        }
      }
    }
  }

  lemma AssembleWhole(s: State, a: Au, seqNo: int)
    requires AuOk(KnownTo(s), a) && (s.waiting ==> Idr(a))
    ensures |SendingOf(a, seqNo).parts| < 0x100
    ensures var r := Assemble(s, Whole(SendingOf(a, seqNo), 0));
            r.out == Some(OutputOf(KnownTo(s), a)) && !r.s.waiting && KnownTo(r.s) == SetsAfter(KnownTo(s), a)
  {
    hide Split, SplitLengths, HasType, LastOf, KeptUnits, Print, Concat, Count;
    CountBound(a.data);
    PartsAreTheUnit(a.data);
    var ns := Split(a.data).value;
    LastOfSome(ns, 5);
    LastOfSome(ns, 7);
    LastOfSome(ns, 8);
  }

  // ---------------------------------------------------------------- one unit

  ghost predicate UnitTyped(a: Au, arrivals: seq<Arrival>) {
    0 < |a.data| <= MAX_AU_BYTES && Split(a.data).Some? && forall b :: b in arrivals ==> b.index < Count(a.data)
  }

  ghost function FeedUnit(s: State, seqNo: int, a: Au, arrivals: seq<Arrival>): Fed
    requires UnitTyped(a, arrivals)
  {
    Feed(s, Packets(a.data, seqNo, a.timestampUs, a.key), arrivals)
  }

  /** Every packet of the unit arrives, all of them before `patience` has passed since the first. */
  ghost predicate UnitArrives(known: Sets, a: Au, seqNo: int, arrivals: seq<Arrival>, patience: nat) {
    && AuOk(known, a)
    && (forall b :: b in arrivals ==> b.index < Count(a.data))
    && (forall k :: 0 <= k < |arrivals| ==> 0 <= arrivals[k].now < arrivals[0].now + patience)
    && Covered(SendingOf(a, seqNo), arrivals)
  }

  lemma ArrivesTyped(known: Sets, a: Au, seqNo: int, arrivals: seq<Arrival>, patience: nat)
    requires UnitArrives(known, a, seqNo, arrivals, patience)
    ensures UnitTyped(a, arrivals) && Split(a.data).Some? && (a.key ==> Idr(a))
  {
    hide Split, HasType;
  }

  lemma ArrivesInTime(s: State, a: Au, seqNo: int, arrivals: seq<Arrival>)
    requires UnitArrives(KnownTo(s), a, seqNo, arrivals, Patience(s))
    ensures AuOk(KnownTo(s), a) && 0 < |a.data| <= MAX_AU_BYTES
    ensures InTime(s, SendingOf(a, seqNo), arrivals) && Covered(SendingOf(a, seqNo), arrivals)
  {
    hide Covered, Count, HasType, Split;
  }

  /** The state can take unit `a` under number `seqNo`: it awaits exactly that frame, or any keyframe. */
  ghost predicate Takes(s: State, a: Au, seqNo: int) {
    && s.pending == map[] && s.bytes == 0 && Split(a.data).Some? && (s.waiting ==> Idr(a))
    && (if s.initialized then s.expected == seqNo % 0x1_0000 else a.key)
  }

  lemma TakesIsReady(s: State, a: Au, seqNo: int)
    requires Takes(s, a, seqNo) && 0 < |a.data| <= MAX_AU_BYTES
    ensures Ready(s, SendingOf(a, seqNo))
  {
    hide Parts;
  }

  /** Nothing pending, no keyframe awaited, and `next` is the number expected. */
  ghost predicate Running(s: State, next: int) {
    s.pending == map[] && s.bytes == 0 && s.initialized && !s.waiting && s.expected == next % 0x1_0000
  }

  /** A unit the receiver can take, its packets in any order with any duplicates in time, is delivered exactly
      once, and the receiver then takes its successor with the parameter sets it now knows. */
  lemma UnitDelivered(s: State, a: Au, seqNo: int, arrivals: seq<Arrival>)
    requires UnitArrives(KnownTo(s), a, seqNo, arrivals, Patience(s)) && Takes(s, a, seqNo)
    ensures UnitTyped(a, arrivals)
    ensures FeedUnit(s, seqNo, a, arrivals).outs == [OutputOf(KnownTo(s), a)]
    ensures Running(FeedUnit(s, seqNo, a, arrivals).s, seqNo + 1)
    ensures KnownTo(FeedUnit(s, seqNo, a, arrivals).s) == SetsAfter(KnownTo(s), a)
  {
    hide UnitArrives, UnitTyped, AuOk, Covered, Assemble, Packets, SendingOf, InTime, Ready, Whole, SendingOk,
      Carries, OutputOf, SetsAfter;
    ArrivesTyped(KnownTo(s), a, seqNo, arrivals, Patience(s));
    ArrivesInTime(s, a, seqNo, arrivals);
    TakesIsReady(s, a, seqNo);
    SendingIsOk(a, seqNo);
    var u := SendingOf(a, seqNo);
    SendingNumber(a, seqNo);
    AnyOrderReassembles(s, u, Packets(a.data, seqNo, a.timestampUs, a.key), arrivals);
    AssembleWhole(s, a, seqNo);
  }

  lemma SendingNumber(a: Au, seqNo: int)
    requires 0 < |a.data| <= MAX_AU_BYTES
    ensures (SendingOf(a, seqNo).seqNo + 1) % 0x1_0000 == (seqNo + 1) % 0x1_0000
  {
    hide Parts;
  }

  /** In particular a keyframe sent to a freshly reset receiver, within 60 ms. */
  lemma KeyframeDelivered(s: State, a: Au, seqNo: int, arrivals: seq<Arrival>)
    requires UnitArrives(NO_SETS, a, seqNo, arrivals, EXPIRE_US) && a.key
    ensures UnitTyped(a, arrivals)
    ensures FeedUnit(Reset(s), seqNo, a, arrivals).outs == [OutputOf(NO_SETS, a)]
  {
    hide UnitArrives, UnitTyped, FeedUnit, OutputOf;
    ArrivesTyped(NO_SETS, a, seqNo, arrivals, EXPIRE_US);
    UnitDelivered(Reset(s), a, seqNo, arrivals);
  }

  // ---------------------------------------------------------------- the delivered bytes

  lemma {:induction false} PrintedSize(s: Bytes)
    requires SplitUnits(s).Some?
    ensures |Print(SplitUnits(s).value)| <= |s| + |SplitUnits(s).value|
    decreases |s|
  {
    if s != [] {
      hide SplitUnits;
      var zero, head, tail, n := SplitStep(s);
      PrintedSize(tail);
      var ns := SplitUnits(s).value;
      assert ns[1..] == SplitUnits(tail).value;
    }
  }

  lemma {:induction false} KeptSize(ns: seq<Nal>, idr: bool)
    ensures |Print(KeptUnits(ns, idr))| <= |Print(ns)| && |KeptUnits(ns, idr)| <= |ns|
    ensures forall n :: n in KeptUnits(ns, idr) ==> n in ns
  {
    hide Kept;
    if ns != [] {
      var init, n := ns[..|ns| - 1], ns[|ns| - 1];
      KeptSize(init, idr);
      assert ns == init + [n];
      PrintAppend(init, [n]);
      PrintAppend(KeptUnits(init, idr), [n]);
      assert KeptUnits(init, idr) + [] == KeptUnits(init, idr);
    }
  }

  lemma {:induction false} UnitSize(ns: seq<Nal>, n: Nal)
    requires n in ns
    ensures |Unit(n)| <= |Print(ns)|
  {
    if n != ns[0] {
      UnitSize(ns[1..], n);
    }
  }

  /** Parameter sets as units within the sender's cap carry them. */
  ghost predicate SetOk(n: Nal) {
    n == [] || (Clean(n) && |n| <= MAX_AU_BYTES)
  }

  ghost predicate SetsOk(known: Sets) {
    SetOk(known.sps) && SetOk(known.pps)
  }

  lemma SetsStayOk(known: Sets, a: Au)
    requires AuOk(known, a) && SetsOk(known)
    ensures SetsOk(SetsAfter(known, a))
  {
    hide Split, HasType, LastOf, Clean;
    var ns := Split(a.data).value;
    SplitIsClean(a.data);
    SplitFits(a.data);
    LastOfSome(ns, 7);
    LastOfSome(ns, 8);
  }

  lemma DeliveredSize(known: Sets, a: Au)
    requires AuOk(known, a) && SetsOk(known)
    ensures |Print(Delivered(known, a))| <= MAX_ACCESS_UNIT_BYTES
    ensures AllClean(Delivered(known, a))
  {
    hide SplitUnits, Print, HasType, LastOf, KeptUnits, Clean, SetsAfter;
    var ns := Split(a.data).value;
    SplitIsClean(a.data);
    PrintedSize(a.data[SkipZeros(a.data)..]);
    KeptSize(ns, Idr(a));
    SetsStayOk(known, a);
    var sps, pps, kept := SetsAfter(known, a).sps, SetsAfter(known, a).pps, KeptUnits(ns, Idr(a));
    PrintOne(AUD);
    AudIsClean();
    if Idr(a) {
      PrintOne(sps);
      PrintOne(pps);
      PrintAppend([AUD], [sps, pps] + kept);
      PrintAppend([sps], [pps] + kept);
      PrintAppend([pps], kept);
      assert [sps] + ([pps] + kept) == [sps, pps] + kept;
      assert Delivered(known, a) == [AUD] + ([sps, pps] + kept);
    } else {
      PrintAppend([AUD], kept);
      assert Delivered(known, a) == [AUD] + kept;
    }
    forall i | 0 <= i < |Delivered(known, a)| ensures Clean(Delivered(known, a)[i]) {
      var n := Delivered(known, a)[i];
      assert n == AUD || n in ns || n == sps || n == pps;
    }
  }

  lemma AudIsClean()
    ensures Clean(AUD)
  {
  }

  /** How many units of the sender's list are passed on. */
  function KeptCount(ns: seq<Nal>, idr: bool): nat {
    if ns == [] then 0 else KeptCount(ns[..|ns| - 1], idr) + if Kept(ns[|ns| - 1], idr) then 1 else 0
  }

  lemma {:induction false} KeptCountIs(ns: seq<Nal>, idr: bool)
    ensures KeptCount(ns, idr) == |KeptUnits(ns, idr)|
  {
    hide Kept;
    if ns != [] { KeptCountIs(ns[..|ns| - 1], idr); }
  }

  /** The delimiter, the parameter sets before an IDR and the units passed on are few enough for one access unit. */
  predicate FewUnits(a: Au)
    requires Split(a.data).Some?
  {
    1 + (if Idr(a) then 2 else 0) + KeptCount(Split(a.data).value, Idr(a)) <= MAX_NALUS
  }

  /** The delivered bytes read back as the delivered units exactly when these are few enough: a unit list of full
      length grows past the reader's limit by what is put in front. */
  lemma DeliveredReadsBack(known: Sets, a: Au)
    requires AuOk(known, a) && SetsOk(known)
    ensures Split(OutputOf(known, a).data) == Some(Delivered(known, a)) <==> FewUnits(a)
  {
    hide Print, AllClean, Split, KeptUnits, KeptCount, HasType, SetsAfter;
    DeliveredSize(known, a);
    KeptCountIs(Split(a.data).value, Idr(a));
    var ns := Delivered(known, a);
    assert |ns| == 1 + (if Idr(a) then 2 else 0) + |KeptUnits(Split(a.data).value, Idr(a))|;
    if |ns| <= MAX_NALUS {
      PrintThenSplit(ns);
    } else if Split(OutputOf(known, a).data).Some? {
      SplitIsClean(OutputOf(known, a).data);
    }
  }

  // ---------------------------------------------------------------- a list too long

  /** A unit of nothing but `n` one-byte slices. */
  function Slices(n: nat): (ns: seq<Nal>)
    ensures |ns| == n && forall i :: 0 <= i < n ==> ns[i] == [1]
  {
    seq(n, _ => [1])
  }

  lemma {:induction false} SlicesAreKept(n: nat)
    ensures KeptCount(Slices(n), false) == n && !HasType(Slices(n), 5) && !HasType(Slices(n), 7)
            && !HasType(Slices(n), 8)
    ensures |Print(Slices(n))| == 5 * n
  {
    if n == 0 {
    } else {
      SlicesAreKept(n - 1);
      assert Slices(n)[..n - 1] == Slices(n - 1) && Slices(n)[1..] == Slices(n - 1);
    }
  }

  /** An input at which the delivered bytes do not read back: 1024 slices, a full list, gain the delimiter. */
  lemma FullListDoesNotReadBack() returns (a: Au)
    ensures AuOk(NO_SETS, a) && |Split(a.data).value| == MAX_NALUS
    ensures Split(OutputOf(NO_SETS, a).data) != Some(Delivered(NO_SETS, a))
  {
    hide Print, Split, KeptCount, HasType, LastOf;
    var ns := Slices(MAX_NALUS);
    SlicesAreKept(MAX_NALUS);
    forall i | 0 <= i < |ns| ensures Clean(ns[i]) { SliceIsClean(); }
    PrintThenSplit(ns);
    a := Au(Print(ns), 0, false);
    assert Split(a.data) == Some(ns);
    DeliveredReadsBack(NO_SETS, a);
  }

  lemma SliceIsClean()
    ensures Clean([1])
  {
  }
}
