/** The feedback builder as it runs: a ring of records, and loops that fill statuses, chunks and deltas. */
module TwccReceive {
  import opened Wire
  import M = TwccModel

  lemma {:induction false} DeltasSnoc(ss: seq<M.Status>, s: M.Status)
    ensures M.Deltas(ss + [s]) == M.Deltas(ss) + M.DeltaBytes(s)
  {
    hide M.DeltaBytes;
    if ss == [] {
      assert [s][1..] == [];
      assert M.Deltas([s]) == M.DeltaBytes(s) + M.Deltas([]);
    } else {
      assert (ss + [s])[1..] == ss[1..] + [s];
      DeltasSnoc(ss[1..], s);
    }
  }

  lemma {:induction false} ChunkBytesSnoc(cs: seq<int>, c: int)
    ensures M.ChunkBytes(cs + [c]) == M.ChunkBytes(cs) + PutBe16(c % 0x1_0000)
  {
    hide PutBe16;
    if cs == [] {
      assert [c][1..] == [];
      assert M.ChunkBytes([c]) == PutBe16(c % 0x1_0000) + M.ChunkBytes([]);
    } else {
      assert (cs + [c])[1..] == cs[1..] + [c];
      ChunkBytesSnoc(cs[1..], c);
    }
  }

  lemma {:induction false} RunOfIs(ss: seq<M.Status>, kind: int, room: nat, n: nat)
    requires n <= |ss| && n <= room && forall i :: 0 <= i < n ==> ss[i].kind == kind
    requires n == |ss| || n == room || ss[n].kind != kind
    ensures M.RunOf(ss, kind, room) == n
  {
    if n > 0 {
      RunOfIs(ss[1..], kind, room - 1, n - 1);
    }
  }

  lemma ChunksCons(ss: seq<M.Status>)
    requires ss != []
    ensures M.Chunks(ss) == [M.NextChunk(ss)] + M.Chunks(ss[M.Covered(ss)..])
  {
    hide M.NextChunk, M.Covered;
  }

  lemma ChunksOfNothing()
    ensures M.Chunks([]) == []
  {
  }

  lemma NothingRead()
    ensures M.Statuses([]) == [] && M.Reference([]).None? && M.LastArrival([]).None?
  {
  }

  lemma OneMoreRead(w: seq<M.Record>)
    requires w != []
    ensures var n := |w| - 1;
            && M.Statuses(w) == M.Statuses(w[..n]) + [M.StatusAfter(w[..n], w[n])]
            && M.LastArrival(w) == (if w[n].received then Some(w[n].arrivalUs) else M.LastArrival(w[..n]))
            && M.Reference(w) == if M.Reference(w[..n]).Some? then M.Reference(w[..n])
                                 else if w[n].received then Some(M.ReferenceOf(w[n].arrivalUs)) else None
  {
    hide M.StatusAfter, M.ReferenceOf;
  }

  class TwccReceiver {
    const records: array<M.Record>
    var base: U16
    var end: U16
    var hasPending: bool
    var fbCount: Byte

    ghost predicate Valid() {
      records.Length == M.RING
    }

    ghost function Snapshot(): M.State
      requires Valid()
      reads this, records
    {
      M.State(records[..], M.Pending(base, end, hasPending), fbCount)
    }

    constructor ()
      ensures Valid() && fresh(records) && Snapshot() == M.INITIAL
    {
      records := new M.Record[M.RING](_ => M.EMPTY);
      base, end, hasPending, fbCount := 0, 0, false, 0;
      new;
      assert records[..] == M.INITIAL.records;
    }

    method Reset()
      requires Valid()
      modifies this, records
      ensures Snapshot() == M.INITIAL
    {
      for i := 0 to records.Length
        modifies records
        invariant forall k :: 0 <= k < i ==> records[k] == M.EMPTY
      {
        records[i] := M.EMPTY;
      }
      assert records[..] == M.INITIAL.records;
      base, end, hasPending, fbCount := 0, 0, false, 0;
    }

    method OnPacket(n: U16, arrivalUs: int, size: U16)
      requires Valid()
      modifies this, records
      ensures Snapshot() == M.OnPacket(old(Snapshot()), n, arrivalUs, size)
    {
      hide SequenceDelta;
      records[n % M.RING] := M.Record(arrivalUs, size, true);
      if !hasPending {
        base, end, hasPending := n, (n + 1) % 0x1_0000, true;
      } else {
        var fromBase, fromEnd := SequenceDelta(n, base), SequenceDelta(n, end);
        if fromBase < 0 { base := n; }
        if fromEnd >= 0 { end := (n + 1) % 0x1_0000; }
      }
    }

    /** The status loop: what is known before record `i` is the reference time and the last arrival. */
    method ReadStatuses(count: nat) returns (statuses: seq<M.Status>, reference: Option<int>)
      requires Valid() && count == M.Count(Snapshot().pending)
      ensures statuses == M.Statuses(M.Window(Snapshot())) && reference == M.Reference(M.Window(Snapshot()))
    {
      hide M.StatusOf, TruncDiv, M.Count, M.Statuses, M.Reference, M.LastArrival;
      statuses, reference := [], None;
      var prev := 0;
      ghost var w := M.Window(Snapshot());
      assert w[..0] == [];
      NothingRead();
      for i := 0 to count
        invariant statuses == M.Statuses(w[..i]) && reference == M.Reference(w[..i])
        invariant reference.None? <==> M.LastArrival(w[..i]).None?
        invariant reference.Some? ==> M.LastArrival(w[..i]) == Some(prev)
      {
        var rec := records[((base + i) % 0x1_0000) % M.RING];
        ghost var seen := w[..i + 1];
        assert w[i] == rec;
        assert seen[..i] == w[..i] && seen[i] == rec;
        OneMoreRead(seen);
        if !rec.received {
          statuses := statuses + [M.Status(0, 0)];
        } else if reference.None? {
          var units := TruncDiv(rec.arrivalUs, M.REFERENCE_US);
          reference := Some(units);
          prev := rec.arrivalUs;
          statuses := statuses + [M.StatusOf(TruncDiv(rec.arrivalUs - units * M.REFERENCE_US, M.TICK_US))];
        } else {
          statuses := statuses + [M.StatusOf(TruncDiv(rec.arrivalUs - prev, M.TICK_US))];
          prev := rec.arrivalUs;
        }
      }
      assert w[..count] == w;
    }

    static method RunFrom(statuses: seq<M.Status>, i: nat) returns (n: nat)
      requires i < |statuses|
      ensures n == M.Run(statuses[i..])
    {
      n := 1;
      while i + n < |statuses| && statuses[i + n].kind == statuses[i].kind && n < 8191
        invariant 1 <= n <= |statuses| - i && n <= 8191
        invariant forall k :: i <= k < i + n ==> statuses[k].kind == statuses[i].kind
      {
        n := n + 1;
      }
      RunOfIs(statuses[i..][1..], statuses[i].kind, 8190, n - 1);
    }

    static method Vector(statuses: seq<M.Status>, i: nat) returns (chunk: int)
      requires i < |statuses|
      ensures chunk == M.VectorChunk(statuses[i..])
    {
      chunk := 0xC000;
      var weight := 4096;
      ghost var ss := statuses[i..];
      for j := 0 to 7
        invariant weight == if j == 0 then 4096 else if j == 1 then 1024 else if j == 2 then 256 else if j == 3 then 64
                            else if j == 4 then 16 else if j == 5 then 4 else if j == 6 then 1 else 0
        invariant chunk == 0xC000 + (if j > 0 then M.Symbol(ss, 0) * 4096 else 0)
                  + (if j > 1 then M.Symbol(ss, 1) * 1024 else 0)
                           + (if j > 2 then M.Symbol(ss, 2) * 256 else 0) + (if j > 3 then M.Symbol(ss, 3) * 64 else 0)
                           + (if j > 4 then M.Symbol(ss, 4) * 16 else 0) + (if j > 5 then M.Symbol(ss, 5) * 4 else 0)
                           + (if j > 6 then M.Symbol(ss, 6) else 0)
      {
        var symbol := if i + j < |statuses| then statuses[i + j].kind else 0;
        assert symbol == M.Symbol(ss, j);
        chunk := chunk + symbol * weight;
        weight := weight / 4;
      }
    }

    static method AddDeltas(statuses: seq<M.Status>, i: nat, covered: nat, before: Bytes) returns (deltas: Bytes)
      requires i + covered <= |statuses| && before == M.Deltas(statuses[..i])
      ensures deltas == M.Deltas(statuses[..i + covered])
    {
      hide M.DeltaBytes, M.Deltas;
      deltas := before;
      for j := 0 to covered
        invariant deltas == M.Deltas(statuses[..i + j])
      {
        assert statuses[..i + j + 1] == statuses[..i + j] + [statuses[i + j]];
        DeltasSnoc(statuses[..i + j], statuses[i + j]);
        deltas := deltas + M.DeltaBytes(statuses[i + j]);
      }
    }

    /** The chunk loop, with the deltas of each chunk's receptions behind it. */
    static method Encode(statuses: seq<M.Status>) returns (chunks: seq<int>, deltas: Bytes)
      ensures chunks == M.Chunks(statuses) && deltas == M.Deltas(statuses)
    {
      hide M.Run, M.VectorChunk, M.Deltas, M.Chunks;
      DeltasOfNothing();
      chunks, deltas := [], [];
      var i := 0;
      assert statuses[0..] == statuses && statuses[..0] == [];
      while i < |statuses|
        invariant 0 <= i <= |statuses|
        invariant M.Chunks(statuses) == chunks + M.Chunks(statuses[i..])
        invariant deltas == M.Deltas(statuses[..i])
        decreases |statuses| - i
      {
        ghost var ss := statuses[i..];
        ChunksCons(ss);
        assert chunks + ([M.NextChunk(ss)] + M.Chunks(ss[M.Covered(ss)..])) == chunks + [M.NextChunk(ss)]
          + M.Chunks(ss[M.Covered(ss)..]);
        var run := RunFrom(statuses, i);
        var covered;
        if run >= 7 {
          chunks := chunks + [statuses[i].kind * 8192 + run];
          covered := run;
        } else {
          var chunk := Vector(statuses, i);
          chunks := chunks + [chunk];
          covered := if |statuses| - i < 7 then |statuses| - i else 7;
        }
        assert ss[covered..] == statuses[i + covered..];
        deltas := AddDeltas(statuses, i, covered, deltas);
        i := i + covered;
      }
      assert statuses[..i] == statuses && statuses[i..] == [];
      ChunksOfNothing();
      assert chunks + [] == chunks;
    }

    static method PutChunks(chunks: seq<int>) returns (chunkBytes: Bytes)
      ensures chunkBytes == M.ChunkBytes(chunks)
    {
      chunkBytes := [];
      assert chunks[..0] == [];
      for i := 0 to |chunks|
        invariant chunkBytes == M.ChunkBytes(chunks[..i])
      {
        assert chunks[..i + 1] == chunks[..i] + [chunks[i]];
        ChunkBytesSnoc(chunks[..i], chunks[i]);
        chunkBytes := chunkBytes + PutBe16(chunks[i] % 0x1_0000);
      }
      assert chunks[..|chunks|] == chunks;
    }

    static lemma DeltasOfNothing()
      ensures M.Deltas([]) == []
    {
    }

    method Forget(count: nat)
      requires Valid() && count <= 0x1_0000
      modifies records
      ensures records[..] == M.Cleared(old(Snapshot()), count)
    {
      ghost var s := Snapshot();
      for i := 0 to count
        invariant records[..] == M.Cleared(s, i)
      {
        records[((base + i) % 0x1_0000) % M.RING] := M.EMPTY;
      }
    }

    method BuildFeedbackPacket(senderSsrc: U32, mediaSsrc: U32) returns (packet: Bytes)
      requires Valid()
      modifies this, records
      ensures M.Built(Snapshot(), packet) == M.Build(old(Snapshot()), senderSsrc, mediaSsrc)
    {
      hide M.Statuses, M.Reference, M.Chunks, M.Deltas, PutBe16, M.Head, M.Cleared, M.Window;
      ghost var s := Snapshot();
      if !hasPending { return []; }
      var count := (end - base) % 0x1_0000;
      if count > M.MAX_REPORTED { count := M.MAX_REPORTED; }
      if count == 0 {
        NothingToReport(s);
        return [];
      }
      var statuses, reference := ReadStatuses(count);
      if reference.None? { return []; }
      var chunks, deltas := Encode(statuses);
      var chunkBytes := PutChunks(chunks);
      var pad := M.Padding(|chunkBytes| + |deltas|);
      var words := (20 + |chunkBytes| + |deltas| + pad) / 4 - 1;
      packet := M.Head(senderSsrc, mediaSsrc, base, count, reference.value, fbCount, words) + (chunkBytes + deltas)
        + Zeros(pad);
      Forget(count);
      fbCount := (fbCount + 1) % 0x100;
      base := (base + count) % 0x1_0000;
      hasPending := base != end;
    }

    static lemma NothingToReport(s: M.State)
      requires M.Count(s.pending) == 0
      ensures M.Reference(M.Window(s)).None?
    {
      assert M.Window(s) == [];
    }
  }
}
