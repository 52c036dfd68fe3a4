/** How far the arrival times a sender reconstructs from feedback can be from the recorded ones. */
module TwccTiming {
  import opened Wire
  import opened TwccModel
  import opened TwccFeedback

  // ---------------------------------------------------------------- the sender's side

  function Sum(deltas: seq<Option<int>>): int {
    if deltas == [] then 0
    else
      var n := |deltas| - 1;
      Sum(deltas[..n]) + if deltas[n].Some? then deltas[n].value else 0
  }

  /** Arrival of packet `i`: the reference time and all deltas up to its own (section 3.1.5 of the draft). */
  function Reconstructed(f: Feedback, i: nat): int
    requires i < |f.packets|
  {
    f.reference * REFERENCE_US + Sum(f.packets[..i + 1]) * TICK_US
  }

  // ---------------------------------------------------------------- the receiver's side

  function Heard(w: seq<Record>): nat {
    if w == [] then 0
    else Heard(w[..|w| - 1]) + if w[|w| - 1].received then 1 else 0
  }

  /** No delta of the window is cut to 16 bits. */
  ghost predicate Fits(w: seq<Record>) {
    forall i :: 0 <= i < |w| && w[i].received ==> -32768 <= TicksAfter(w[..i], w[i].arrivalUs) <= 32767
  }

  function Exact(w: seq<Record>): int
    requires Reference(w).Some?
  {
    Reference(w).value * REFERENCE_US + Sum(Reported(Statuses(w))) * TICK_US
  }

  lemma TruncNear(a: int, b: int)
    requires b > 0
    ensures -b < a - TruncDiv(a, b) * b < b
  {
  }

  lemma {:induction false} ReferenceWithArrival(w: seq<Record>)
    ensures Reference(w).Some? <==> LastArrival(w).Some?
    ensures Heard(w) > 0 <==> LastArrival(w).Some?
  {
    if w != [] { ReferenceWithArrival(w[..|w| - 1]); }
  }

  lemma ReportedSnoc(w: seq<Record>)
    requires w != []
    ensures var n := |w| - 1;
            var last := StatusAfter(w[..n], w[n]);
            Sum(Reported(Statuses(w))) == Sum(Reported(Statuses(w[..n]))) + if last.kind == 0 then 0 else last.ticks
  {
    hide StatusAfter;
    var n := |w| - 1;
    var last := StatusAfter(w[..n], w[n]);
    assert Statuses(w) == Statuses(w[..n]) + [last];
    assert Reported(Statuses(w))[..n] == Reported(Statuses(w[..n]));
  }

  lemma FitsBefore(w: seq<Record>)
    requires w != [] && Fits(w)
    ensures Fits(w[..|w| - 1])
  {
    hide TicksAfter;
    forall i | 0 <= i < |w| - 1 ensures w[..|w| - 1][..i] == w[..i] {}
  }

  /** The last reported reception is off by less than a tick for each reception so far. */
  lemma {:induction false} DriftWithin(w: seq<Record>)
    requires Fits(w) && LastArrival(w).Some?
    ensures Reference(w).Some?
    ensures -TICK_US * Heard(w) < Exact(w) - LastArrival(w).value < TICK_US * Heard(w)
  {
    hide Fits, TruncDiv, Statuses, Sum, StatusOf, Reported;
    var n := |w| - 1;
    var earlier, last := w[..n], w[n];
    ReferenceWithArrival(w);
    ReferenceWithArrival(earlier);
    ReportedSnoc(w);
    FitsBefore(w);
    if last.received {
      LastTicks(w);
      if LastArrival(earlier).Some? {
        DriftWithin(earlier);
        TruncNear(last.arrivalUs - LastArrival(earlier).value, TICK_US);
      } else {
        NothingBefore(earlier);
        TruncNear(last.arrivalUs - ReferenceOf(last.arrivalUs) * REFERENCE_US, TICK_US);
      }
    } else {
      DriftWithin(earlier);
    }
  }

  lemma LastTicks(w: seq<Record>)
    requires w != [] && Fits(w) && w[|w| - 1].received
    ensures var n := |w| - 1;
            var s := StatusAfter(w[..n], w[n]);
            s.kind != 0 && s.ticks == TicksAfter(w[..n], w[n].arrivalUs)
  {
    hide TicksAfter;
  }

  lemma {:induction false} NothingBefore(w: seq<Record>)
    requires LastArrival(w).None?
    ensures Sum(Reported(Statuses(w))) == 0
  {
    hide Statuses, Sum, Reported, LastArrival, StatusAfter;
    if w == [] {
      NothingReported();
    } else {
      LastArrivalSnoc(w);
      NothingBefore(w[..|w| - 1]);
      ReportedSnoc(w);
    }
  }

  lemma LastArrivalSnoc(w: seq<Record>)
    requires w != [] && LastArrival(w).None?
    ensures LastArrival(w[..|w| - 1]).None? && StatusAfter(w[..|w| - 1], w[|w| - 1]).kind == 0
  {
    hide StatusOf, TicksAfter;
  }

  lemma NothingReported()
    ensures Sum(Reported(Statuses([]))) == 0
  {
  }

  // ---------------------------------------------------------------- prefixes

  lemma {:induction false} PrefixStatuses(w: seq<Record>, n: nat)
    requires n <= |w|
    ensures Statuses(w)[..n] == Statuses(w[..n])
    decreases |w|
  {
    hide StatusAfter;
    if n == |w| {
      assert w[..n] == w;
    } else {
      var m := |w| - 1;
      PrefixStatuses(w[..m], n);
      assert w[..m][..n] == w[..n];
    }
  }

  lemma {:induction false} PrefixReference(w: seq<Record>, n: nat)
    requires n <= |w| && Reference(w[..n]).Some?
    ensures Reference(w) == Reference(w[..n])
    decreases |w|
  {
    if n == |w| {
      assert w[..n] == w;
    } else {
      var m := |w| - 1;
      assert w[..m][..n] == w[..n];
      PrefixReference(w[..m], n);
    }
  }

  lemma FitsPrefix(w: seq<Record>, n: nat)
    requires n <= |w| && Fits(w)
    ensures Fits(w[..n])
  {
    hide TicksAfter;
    forall i | 0 <= i < n ensures w[..n][..i] == w[..i] {}
  }

  /** What a sender reconstructs for a received packet, the wraps of the 24-bit reference put back, differs from the
      recorded arrival by less than 250 microseconds for each reception reported up to it. */
  lemma ReconstructionWithin(s: State, senderSsrc: U32, mediaSsrc: U32, i: nat)
    requires Build(s, senderSsrc, mediaSsrc).packet != []
    requires i < |Window(s)| && Window(s)[i].received && Fits(Window(s))
    ensures Reference(Window(s)).Some?
    ensures var f := ReadFeedback(Build(s, senderSsrc, mediaSsrc).packet);
            && f.Some? && i < |f.value.packets| && f.value.packets[i].Some?
            && var wraps := Reference(Window(s)).value / 0x100_0000;
               var error := Reconstructed(f.value, i) + wraps * 0x100_0000 * REFERENCE_US - Window(s)[i].arrivalUs;
               -TICK_US * Heard(Window(s)[..i + 1]) < error < TICK_US * Heard(Window(s)[..i + 1])
  {
    hide Build, ReadFeedback, Statuses, Reference, Sum, Fits, Window, TicksAfter;
    var w := Window(s);
    BuiltPacketReads(s, senderSsrc, mediaSsrc);
    StatusesOk(w);
    FitsPrefix(w, i + 1);
    LastIs(w, i);
    DriftWithin(w[..i + 1]);
    PrefixReference(w, i + 1);
    ReportedPrefix(w, i + 1);
  }

  lemma LastIs(w: seq<Record>, i: nat)
    requires i < |w| && w[i].received
    ensures LastArrival(w[..i + 1]) == Some(w[i].arrivalUs)
  {
  }

  lemma ReportedPrefix(w: seq<Record>, n: nat)
    requires n <= |w|
    ensures Reported(Statuses(w))[..n] == Reported(Statuses(w[..n]))
  {
    hide Statuses;
    PrefixStatuses(w, n);
    assert Statuses(w[..n]) == Statuses(w)[..n];
  }

  // ---------------------------------------------------------------- the drift is real

  /** Packets 249 microseconds apart. */
  function Drifting(n: nat): (w: seq<Record>)
    ensures |w| == n
  {
    if n == 0 then [] else Drifting(n - 1) + [Record(249 * n, 0, true)]
  }

  /** Truncated remainders add up: every delta of this window reads as zero, so the reconstruction of its last packet
      is late by 249 microseconds for each packet. The bound above cannot be replaced by a constant. */
  lemma {:induction false} DriftAccumulates(n: nat)
    ensures Fits(Drifting(n)) && Heard(Drifting(n)) == n
    ensures n > 0 ==> LastArrival(Drifting(n)) == Some(249 * n) && Reference(Drifting(n)) == Some(0)
    ensures n > 0 ==> Exact(Drifting(n)) == 0
  {
    hide Statuses, Sum, Reported, Fits;
    var w := Drifting(n);
    if n == 0 {
      NothingReported();
      EmptyFits();
    } else {
      DriftAccumulates(n - 1);
      assert w[..n - 1] == Drifting(n - 1);
      if n == 1 { NothingReported(); }
      ReportedSnoc(w);
      FitsAfter(w);
    }
  }

  lemma EmptyFits()
    ensures Fits([])
  {
  }

  lemma FitsAfter(w: seq<Record>)
    requires w != [] && Fits(w[..|w| - 1])
    requires w[|w| - 1].received ==> -32768 <= TicksAfter(w[..|w| - 1], w[|w| - 1].arrivalUs) <= 32767
    ensures Fits(w)
  {
    hide TicksAfter;
    var n := |w| - 1;
    forall i | 0 <= i < |w| && w[i].received ensures -32768 <= TicksAfter(w[..i], w[i].arrivalUs) <= 32767 {
      if i < n { assert w[..n][..i] == w[..i] && w[..n][i] == w[i]; }
    }
  }

  function Distance(a: int, b: int): nat {
    if a < b then b - a else a - b
  }

  /** The delta reported for each reception is the nearest 16 bits can come to the true one, in one byte exactly when
      that is from 0 to 255 ticks; nothing else reports one. */
  lemma DeltaIsNearest(w: seq<Record>, i: nat, v: int)
    requires i < |w| && -32768 <= v <= 32767
    ensures var st, ticks := Statuses(w)[i], TicksAfter(w[..i], w[i].arrivalUs);
            && (w[i].received <==> st.kind != 0)
            && (w[i].received ==>
                  && -32768 <= st.ticks <= 32767 && Distance(st.ticks, ticks) <= Distance(v, ticks)
                  && st.kind == if 0 <= ticks <= 255 then 1 else 2)
  {
    hide TicksAfter, Statuses, StatusOf;
    StatusAt(w, i);
    StatusIsNearest(TicksAfter(w[..i], w[i].arrivalUs), v);
  }

  lemma StatusAt(w: seq<Record>, i: nat)
    requires i < |w|
    ensures Statuses(w)[i] == StatusAfter(w[..i], w[i])
  {
    hide StatusAfter;
    PrefixStatuses(w, i + 1);
    var front := w[..i + 1];
    assert front[..i] == w[..i];
    assert Statuses(w)[i] == Statuses(w)[..i + 1][i];
  }

  lemma StatusIsNearest(ticks: int, v: int)
    requires -32768 <= v <= 32767
    ensures var st := StatusOf(ticks);
            && -32768 <= st.ticks <= 32767 && Distance(st.ticks, ticks) <= Distance(v, ticks)
            && st.kind == if 0 <= ticks <= 255 then 1 else 2
  {
  }
}
