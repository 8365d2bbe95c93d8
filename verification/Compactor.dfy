/**
 The compactor as the source runs it: a first pass that plans, a second that rewrites the survivors
 into a new run of segments, and the install that adds what was appended meanwhile.
 */
module Compactor {
  import opened Bytes
  import opened BatchLog
  import opened OffsetIndex
  import opened Segments
  import opened Partitions
  import opened RecordBatches
  import opened Compaction

  // ------------------------------------------------------------ reading all segments

  lemma {:induction false} JoinedDecodes(ps: seq<Piece>)
    requires forall i :: 0 <= i < |ps| ==> AllDecode(ps[i].batches)
    ensures AllDecode(Joined(ps))
    decreases |ps|
  {
    hide AllDecode;
    if ps == [] {
      assert AllDecode([]) by { NothingDecodes(); }
    } else {
      var n := |ps| - 1;
      JoinedDecodes(ps[..n]);
      RecordsOfConcat(Joined(ps[..n]), ps[n].batches);
    }
  }

  lemma NothingDecodes()
    ensures AllDecode([]) && RecordsOf([]) == []
  {
  }

  lemma JoinedRecords(ps: seq<Piece>, i: nat)
    requires (forall j :: 0 <= j < |ps| ==> AllDecode(ps[j].batches)) && i < |ps|
    ensures AllDecode(Joined(ps[..i])) && AllDecode(Joined(ps[..i + 1]))
    ensures RecordsOf(Joined(ps[..i + 1])) == RecordsOf(Joined(ps[..i])) + RecordsOf(ps[i].batches)
  {
    hide AllDecode, RecordsOf, Joined;
    assert ps[..i + 1] == ps[..i] + [ps[i]];
    JoinedDecodes(ps[..i]);
    JoinedAppend(ps[..i], ps[i]);
    RecordsOfConcat(Joined(ps[..i]), ps[i].batches);
  }

  // Segments to compact: what they hold, up to the end of the last.
  ghost predicate Source(segs: seq<Segment>, end: int, log: seq<batch>)
    reads segs, Indexes(segs)
  {
    && AllValid(segs) && (forall i :: 0 <= i < |segs| ==> AllDecode(segs[i].batches) && segs[i].nextOffset <= end)
    && log == Joined(Pieces(segs)) && AllDecode(log)
  }

  // The records of every segment, up to its end.
  method ForEachBatch(segs: seq<Segment>, end: int, ghost log: seq<batch>) returns (recs: seq<Record>)
    requires Source(segs, end, log)
    ensures AllDecode(log) && recs == RecordsOf(log)
  {
    hide AllDecode, RecordsOf, Joined, Segment.Valid, From, InOrder;
    ghost var ps := Pieces(segs);
    recs := [];
    JoinedDecodes(ps[..0]);
    JoinedNone();
    NothingDecodes();
    for i := 0 to |segs|
      invariant AllDecode(Joined(ps[..i])) && recs == RecordsOf(Joined(ps[..i]))
    {
      SegmentFacts(segs[i]);
      var limit := segs[i].nextOffset;
      if 0 < end < limit {
        limit := end;
      }
      var more, late := ForEachBatchRange(segs[i], segs[i].baseOffset, limit);
      WholeSegment(segs[i].batches, segs[i].baseOffset, segs[i].nextOffset);
      JoinedRecords(ps, i);
      recs := recs + more;
    }
    assert ps[..|segs|] == ps;
  }

  lemma WholeSegment(bs: seq<batch>, from: int, to: int)
    requires InOrder(bs, from, to)
    ensures bs[0..] == bs && From(bs, from) == bs
  {
    AllFromBelow(bs, from, to, from);
  }

  // ------------------------------------------------------------ the plan

  datatype Plan = Plan(last: map<bytes, nat>, total: nat, planned: nat)

  // The bytes of the distinct keys.
  function KeyBytesOf(rs: seq<Record>): nat
  {
    if rs == [] then 0 else
    var n := |rs| - 1;
    KeyBytesOf(rs[..n]) +
    if rs[n].key.Some? && (forall j :: 0 <= j < n ==> rs[j].key != rs[n].key) then |rs[n].key.value| else 0
  }

  lemma {:induction false} KeyBytesGrow(rs: seq<Record>, i: nat)
    requires i <= |rs|
    ensures KeyBytesOf(rs[..i]) <= KeyBytesOf(rs)
    decreases |rs| - i
  {
    if i == |rs| {
      assert rs[..i] == rs;
    } else {
      KeyBytesGrow(rs, i + 1);
      assert rs[..i + 1][..i] == rs[..i];
    }
  }

  // The first pass: the last index of every key, within the bound on key bytes.
  method PlanRecords(recs: seq<Record>) returns (r: Option<Plan>)
    ensures r.Some? <==> KeyBytesOf(recs) <= MAX_KEY_BYTES
    ensures r.Some? ==> IsLast(r.value.last, recs, |recs|) && r.value.total == |recs| && r.value.planned == |Kept(recs)|
  {
    hide Kept, KeyBytesOf, Nulls;
    var last: map<bytes, nat> := map[];
    var nulls: nat, keyBytes := 0, 0;
    PlanStarts(recs);
    for idx := 0 to |recs|
      invariant IsLast(last, recs, idx) && nulls == Nulls(recs[..idx]) && keyBytes == KeyBytesOf(recs[..idx])
      invariant keyBytes <= MAX_KEY_BYTES
    {
      PlanStep(last, recs, idx);
      if recs[idx].key.None? {
        nulls := nulls + 1;
      } else {
        var k := recs[idx].key.value;
        if k !in last {
          keyBytes := keyBytes + |k|;
          if keyBytes > MAX_KEY_BYTES {
            KeyBytesGrow(recs, idx + 1);
            return None;
          }
        }
        last := last[k := idx];
      }
    }
    assert recs[..|recs|] == recs;
    PlannedIsKept(last, recs);
    return Some(Plan(last, |recs|, nulls + |last|));
  }

  method PlanCompaction(segs: seq<Segment>, end: int, ghost log: seq<batch>) returns (r: Option<Plan>)
    requires Source(segs, end, log)
    ensures AllDecode(log)
    ensures var recs := RecordsOf(log);
      && (r.Some? <==> KeyBytesOf(recs) <= MAX_KEY_BYTES)
      && (r.Some? ==> IsLast(r.value.last, recs, |recs|) && r.value.total == |recs| && r.value.planned == |Kept(recs)|)
  {
    hide Source, AllDecode, RecordsOf, KeyBytesOf, IsLast, Kept;
    var recs := ForEachBatch(segs, end, log);
    r := PlanRecords(recs);
  }

  lemma PlanStarts(rs: seq<Record>)
    ensures IsLast(map[], rs, 0) && Nulls(rs[..0]) == 0 && KeyBytesOf(rs[..0]) == 0
  {
    assert rs[..0] == [];
  }

  // One record of the first pass.
  lemma PlanStep(last: map<bytes, nat>, rs: seq<Record>, i: nat)
    requires i < |rs| && IsLast(last, rs, i)
    ensures Nulls(rs[..i + 1]) == Nulls(rs[..i]) + if rs[i].key.None? then 1 else 0
    ensures KeyBytesOf(rs[..i + 1])
         == KeyBytesOf(rs[..i]) + if rs[i].key.Some? && rs[i].key.value !in last then |rs[i].key.value| else 0
    ensures IsLast(if rs[i].key.None? then last else last[rs[i].key.value := i], rs, i + 1)
  {
    assert rs[..i + 1][..i] == rs[..i];
    if rs[i].key.Some? {
      var k := rs[i].key.value;
      if k in last { assert rs[..i + 1][last[k]].key == rs[i].key; }
    }
  }

  // ------------------------------------------------------------ the rewritten log

  // The fewest bytes a record takes.
  const RECORD_BYTES := 7

  // A segment's worth of batches that skip no offset, with room for its offsets.
  ghost predicate Solid(p: Piece)
  {
    && AllWellFormed(p.batches) && p.next == p.base + Span(p.batches)
    && RECORD_BYTES * Span(p.batches) <= |Flatten(p.batches)|
  }

  // Segments of n offsets, from offset 0 without a gap, none but the last of them empty.
  ghost predicate Gapless(ps: seq<Piece>, n: nat)
  {
    && ps != [] && ps[0].base == 0 && ps[|ps| - 1].next == n && (forall i :: 0 <= i < |ps| ==> Solid(ps[i]))
    && (forall i :: 0 <= i < |ps| - 1 ==> ps[i].base < ps[i].next)
  }

  // Batches that hold these records, as they read back, and nothing else.
  ghost predicate HoldRecords(bs: seq<batch>, rs: seq<Record>)
  {
    AllDecode(bs) && Contents(RecordsOf(bs)) == Contents(AllReread(rs))
  }

  ghost predicate Written(ps: seq<Piece>, rs: seq<Record>) { Gapless(ps, |rs|) && HoldRecords(Joined(ps), rs) }

  lemma {:induction false} SmallestRecords(rs: seq<Record>)
    requires AllFit(rs)
    ensures |RecordsBytes(rs)| >= RECORD_BYTES * |rs|
    decreases |rs|
  {
    hide RecordBytes, Fits, Body;
    if rs != [] {
      SmallestRecords(rs[1..]);
      SmallestRecord(rs[0]);
    }
  }

  lemma SmallestRecord(r: Record)
    requires Fits(r) && |Body(r)| < TWO_31
    ensures |RecordBytes(r)| >= RECORD_BYTES
  {
    hide HeadersBytes, HeaderFits;
  }

  // The batch the writer makes of pending records, in its place in the log.
  function Rewritten(crc: Checksum, now: int64, rs: seq<Record>, at: int64): batch
    requires |rs| < TWO_31 && OneBatch(NumberedAll(rs))
  {
    Assigned(BatchBytes(crc, now, NumberedAll(rs)), at)
  }

  lemma RewrittenFields(crc: Checksum, now: int64, rs: seq<Record>, at: int64)
    requires |rs| < TWO_31 && OneBatch(NumberedAll(rs))
    ensures var raw, b := BatchBytes(crc, now, NumberedAll(rs)), Rewritten(crc, now, rs, at);
      && WellFormed(raw) && WellFormed(b) && Base(b) == at && Delta(b) == Delta(raw) == |rs| - 1
      && |b| == |raw| >= RECORD_BYTES * |rs| && Decoded(b) == Some(AllReread(NumberedAll(rs)))
  {
    hide Assigned, BatchBytes, RecordsBytes, Decoded, Base, Delta, LengthField, AllFit;
    BatchFields(crc, now, NumberedAll(rs));
    SmallestRecords(NumberedAll(rs));
    BatchRoundTrip(crc, now, NumberedAll(rs));
    AssignedFields(BatchBytes(crc, now, NumberedAll(rs)), at);
    AssignedRecords(BatchBytes(crc, now, NumberedAll(rs)), at);
  }

  lemma ContentsConcat(a: seq<Record>, b: seq<Record>)
    ensures Contents(a + b) == Contents(a) + Contents(b)
  {
  }

  lemma RereadConcat(a: seq<Record>, b: seq<Record>)
    ensures AllReread(a + b) == AllReread(a) + AllReread(b)
  {
  }

  lemma SolidAppend(p: Piece, b: batch)
    requires Solid(p) && WellFormed(b) && |b| >= RECORD_BYTES * (Delta(b) + 1)
    ensures Solid(Piece(p.base, p.next + Delta(b) + 1, p.batches + [b]))
  {
    hide Delta, LengthField;
    assert (p.batches + [b])[..|p.batches|] == p.batches;
  }

  lemma OneBatchRecords(bs: seq<batch>, b: batch, rs: seq<Record>)
    requires AllDecode(bs) && WellFormed(b) && Decoded(b) == Some(rs)
    ensures AllDecode(bs + [b]) && RecordsOf(bs + [b]) == RecordsOf(bs) + rs
  {
    hide Decoded, WellFormed;
    assert (bs + [b])[..|bs|] == bs;
  }

  lemma GaplessAppend(ps: seq<Piece>, n: nat, b: batch)
    requires Gapless(ps, n) && WellFormed(b) && |b| >= RECORD_BYTES * (Delta(b) + 1)
    ensures var p := ps[|ps| - 1];
      Gapless(ps[|ps| - 1 := Piece(p.base, n + Delta(b) + 1, p.batches + [b])], n + Delta(b) + 1)
  {
    hide Solid, WellFormed, Delta;
    SolidAppend(ps[|ps| - 1], b);
  }

  lemma HoldAppend(bs: seq<batch>, rs: seq<Record>, b: batch, more: seq<Record>)
    requires HoldRecords(bs, rs) && |more| < TWO_31 && WellFormed(b) && Decoded(b) == Some(AllReread(NumberedAll(more)))
    ensures HoldRecords(bs + [b], rs + more)
  {
    hide AllDecode, RecordsOf, WellFormed, Decoded, Contents, AllReread, NumberedAll;
    OneBatchRecords(bs, b, AllReread(NumberedAll(more)));
    RewrittenContents(more);
    ContentsConcat(RecordsOf(bs), AllReread(NumberedAll(more)));
    ContentsConcat(AllReread(rs), AllReread(more));
    RereadConcat(rs, more);
  }

  // Flushing pending records adds them to what is written.
  lemma WrittenAppend(ps: seq<Piece>, rs: seq<Record>, crc: Checksum, now: int64, more: seq<Record>)
    requires ps != [] && Written(ps, rs) && |more| < TWO_31 && OneBatch(NumberedAll(more)) && |rs| < TWO_63
    ensures var n, b := |ps| - 1, Rewritten(crc, now, more, |rs|);
      Written(ps[n := Piece(ps[n].base, |rs| + |more|, ps[n].batches + [b])], rs + more)
  {
    hide Rewritten, Gapless, Joined, WellFormed, Delta, Decoded, NumberedAll, OneBatch, HoldRecords, AllReread,
      BatchBytes;
    var n, b := |ps| - 1, Rewritten(crc, now, more, |rs|);
    var q := Piece(ps[n].base, |rs| + |more|, ps[n].batches + [b]);
    RewrittenFields(crc, now, more, |rs|);
    GaplessAppend(ps, |rs|, b);
    JoinedGrow(ps, q, [b]);
    HoldAppend(Joined(ps), rs, b, more);
  }

  lemma WrittenRoll(ps: seq<Piece>, flushed: seq<Record>)
    requires Written(ps, flushed) && ps != [] && ps[|ps| - 1].base < |flushed|
    ensures Written(ps + [Piece(|flushed|, |flushed|, [])], flushed)
  {
    hide Joined, HoldRecords;
    JoinedAppend(ps, Piece(|flushed|, |flushed|, []));
    assert Joined(ps) + [] == Joined(ps);
    FlattenNone();
  }

  lemma WrittenNothing(ps: seq<Piece>)
    requires ps == [Piece(0, 0, [])]
    ensures Written(ps, [])
  {
    hide Solid;
    FlattenNone();
    assert Joined(ps[..0]) == [];
    assert Solid(ps[0]) by { NothingSolid(); }
  }

  lemma NothingSolid()
    ensures Solid(Piece(0, 0, []))
  {
  }

  // The offsets of a segment that is not full cannot overflow.
  lemma SolidHasRoom(p: Piece, more: nat)
    requires Solid(p) && |Flatten(p.batches)| < TWO_32 && more <= BATCH_RECORDS
    ensures p.next + more - p.base < TWO_31
  {
  }

  // ------------------------------------------------------------ the writer

  function KeyValueBytes(r: Record): nat
  {
    (if r.key.Some? then |r.key.value| else 0) + (if r.value.Some? then |r.value.value| else 0)
  }

  function PendingBytes(rs: seq<Record>): nat
  {
    if rs == [] then 0 else PendingBytes(rs[..|rs| - 1]) + KeyValueBytes(rs[|rs| - 1])
  }

  // Records the writer may find pending together: all but the last of them are below both limits.
  ghost predicate OneFlush(rs: seq<Record>)
  {
    0 < |rs| <= BATCH_RECORDS && PendingBytes(rs[..|rs| - 1]) < BATCH_BYTES
  }

  // Records that fit the wire format wherever the writer cuts them.
  ghost predicate Writable(rs: seq<Record>)
  {
    && |rs| < TWO_63
    && forall i, j :: 0 <= i < j <= |rs| && OneFlush(rs[i..j]) ==> OneBatch(NumberedAll(rs[i..j]))
  }

  lemma {:induction false} PendingNumbered(rs: seq<Record>)
    requires |rs| < TWO_31
    ensures PendingBytes(NumberedAll(rs)) == PendingBytes(rs)
    decreases |rs|
  {
    if rs != [] {
      var n := |rs| - 1;
      assert NumberedAll(rs)[..n] == NumberedAll(rs[..n]);
      PendingNumbered(rs[..n]);
    }
  }

  const LARGEST_RECORD := 0x4000_0000
  const LARGEST_REST := 0x20_0000

  // A record of at most 1 GiB, of which all but key and value takes at most 2 MiB, wherever it
  // stands in its batch.
  ghost predicate Small(r: Record)
  {
    forall n :: 0 <= n < BATCH_RECORDS ==>
      var b := Numbered(r, n);
      Fits(b) && |Body(b)| < TWO_31 && |RecordBytes(b)| <= LARGEST_RECORD
        && |RecordBytes(b)| <= KeyValueBytes(r) + LARGEST_REST
  }

  lemma {:induction false} RecordsBytesAppend(rs: seq<Record>, r: Record)
    requires AllFit(rs + [r])
    ensures AllFit(rs) && Fits(r) && |Body(r)| < TWO_31
    ensures |RecordsBytes(rs + [r])| == |RecordsBytes(rs)| + |RecordBytes(r)|
    decreases |rs|
  {
    hide RecordBytes, Fits, Body;
    assert (rs + [r])[|rs|] == r;
    assert forall i :: 0 <= i < |rs| ==> (rs + [r])[i] == rs[i];
    if rs == [] {
      assert (rs + [r])[1..] == [];
    } else {
      assert (rs + [r])[1..] == rs[1..] + [r];
      RecordsBytesAppend(rs[1..], r);
    }
  }

  lemma SmallAt(r: Record, n: int32)
    requires Small(r) && 0 <= n < BATCH_RECORDS
    ensures var b := Numbered(r, n);
      Fits(b) && |Body(b)| < TWO_31 && |RecordBytes(b)| <= LARGEST_RECORD
        && |RecordBytes(b)| <= KeyValueBytes(r) + LARGEST_REST
  {
    hide RecordBytes, Fits, Body, Numbered;
  }

  lemma {:induction false} SmallRecords(rs: seq<Record>)
    requires |rs| <= BATCH_RECORDS && forall i :: 0 <= i < |rs| ==> Small(rs[i])
    ensures AllFit(NumberedAll(rs)) && |RecordsBytes(NumberedAll(rs))| <= PendingBytes(rs) + LARGEST_REST * |rs|
    decreases |rs|
  {
    hide RecordBytes, Fits, Body, Numbered, Small;
    forall i | 0 <= i < |rs| ensures Fits(NumberedAll(rs)[i]) && |Body(NumberedAll(rs)[i])| < TWO_31 {
      SmallAt(rs[i], i);
    }
    if rs != [] {
      var n := |rs| - 1;
      SmallRecords(rs[..n]);
      SmallAt(rs[n], n);
      assert NumberedAll(rs) == NumberedAll(rs[..n]) + [Numbered(rs[n], n)];
      RecordsBytesAppend(NumberedAll(rs[..n]), Numbered(rs[n], n));
    }
  }

  // Small records can always be written, in any number and order.
  lemma SmallIsWritable(rs: seq<Record>)
    requires |rs| < TWO_63 && forall i :: 0 <= i < |rs| ==> Small(rs[i])
    ensures Writable(rs)
  {
    hide OneBatch, Small, PendingBytes;
    forall i, j | 0 <= i < j <= |rs| && OneFlush(rs[i..j]) ensures OneBatch(NumberedAll(rs[i..j])) {
      SmallBatch(rs[i..j]);
    }
  }

  lemma SmallBatch(rs: seq<Record>)
    requires OneFlush(rs) && forall i :: 0 <= i < |rs| ==> Small(rs[i])
    ensures OneBatch(NumberedAll(rs))
  {
    hide RecordBytes, Fits, Body, Numbered, Small, PendingBytes, AllFit;
    var n := |rs| - 1;
    SmallRecords(rs);
    SmallRecords(rs[..n]);
    SmallAt(rs[n], n);
    assert NumberedAll(rs) == NumberedAll(rs[..n]) + [Numbered(rs[n], n)];
    RecordsBytesAppend(NumberedAll(rs[..n]), Numbered(rs[n], n));
  }

  lemma WritableSlice(rs: seq<Record>, i: nat, j: nat)
    requires Writable(rs) && i < j <= |rs| && OneFlush(rs[i..j])
    ensures |rs| < TWO_63 && OneBatch(NumberedAll(rs[i..j]))
  {
    hide OneFlush, OneBatch;
  }

  lemma WriterReady(out: Partition, flushed: seq<Record>)
    requires out.Valid() && !out.activeSegment.Full() && Written(Pieces(out.Segs()), flushed)
    ensures var ps := Pieces(out.Segs());
      |ps| - 1 == |out.closedSegments| && ps[|ps| - 1] == PieceOf(out.activeSegment)
    ensures out.activeSegment.baseOffset <= out.nextOffset == out.activeSegment.nextOffset == |flushed|
      && out.activeSegment.size < TWO_32
    ensures out.nextOffset + BATCH_RECORDS - out.activeSegment.baseOffset < TWO_31
  {
    hide Chained, HoldRecords, Segment.Valid, Solid, InOrder;
    var ps, active := Pieces(out.Segs()), out.activeSegment;
    assert out.Segs()[|out.closedSegments|] == active;
    SegmentSize(active);
    SegmentFacts(active);
    SolidHasRoom(ps[|ps| - 1], BATCH_RECORDS);
  }

  lemma SegmentSize(s: Segment)
    requires s.Valid()
    ensures s.size == |Flatten(s.batches)|
  {
  }

  class CompactWriter {
    const out: Partition
    const crc: Checksum
    var batch: seq<Record>
    var pendingBytes: nat
    ghost var added: seq<Record>

    ghost function Flushed(): seq<Record>
      requires |batch| <= |added|
      reads this
    {
      added[..|added| - |batch|]
    }

    // Every record added is either written or pending.
    ghost predicate Holding()
      reads this, out, out.Segs(), Indexes(out.Segs())
    {
      && out.Valid() && !out.activeSegment.Full()
      && |batch| <= BATCH_RECORDS && |batch| <= |added| && pendingBytes == PendingBytes(batch)
      && (batch != [] ==> OneFlush(added[|added| - |batch|..])) && batch == NumberedAll(added[|added| - |batch|..])
      && Written(Pieces(out.Segs()), Flushed())
    }

    ghost predicate Valid()
      reads this, out, out.Segs(), Indexes(out.Segs())
    {
      Holding() && |batch| < BATCH_RECORDS && pendingBytes < BATCH_BYTES
    }

    constructor (out: Partition, crc: Checksum)
      ensures this.out == out && batch == [] && pendingBytes == 0 && added == []
    {
      this.out, this.crc, batch, pendingBytes, added := out, crc, [], 0, [];
    }

    // The pending records become one batch.
    method Flush(now: int64)
      requires Holding() && Writable(added)
      modifies this, out, out.activeSegment, out.activeSegment.index
      ensures Valid() && batch == [] && added == old(added) && Extends(out)
    {
      hide Partition.Valid, Written, Pieces, Writable, OneBatch, PendingBytes, Indexes, NumberedAll, Valid, OneFlush;
      if |batch| > 0 {
        ghost var flushed, rs := Flushed(), added[|added| - |batch|..];
        assert added[|added| - |batch|..|added|] == rs && flushed + rs == added;
        WritableSlice(added, |added| - |batch|, |added|);
        WriteBatch(out, crc, now, batch, flushed, rs);
        Apart(this, out.Segs());
        batch, pendingBytes := [], 0;
        assert out.Valid();
      } else {
        assert added[..|added|] == added;
        NothingPending(added);
      }
      AllWritten(this);
    }

    method Add(r: Record, now: int64)
      requires Valid() && Writable(added + [r])
      modifies this, out, out.activeSegment, out.activeSegment.index
      ensures Valid() && added == old(added) + [r] && Extends(out)
    {
      hide Partition.Valid, Written, Pieces, Writable, PendingBytes, Indexes, NumberedAll, OneFlush;
      PendingStep(added, batch, r);
      Apart(this, out.Segs());
      batch := batch + [Numbered(r, |batch|)];
      pendingBytes := pendingBytes + KeyValueBytes(r);
      added := added + [r];
      assert out.Valid();
      if |batch| < BATCH_RECORDS && pendingBytes < BATCH_BYTES {
        return;
      }
      Flush(now);
    }

    method AddAll(rs: seq<Record>, now: int64)
      requires Valid() && Writable(added + rs)
      modifies this, out, out.activeSegment, out.activeSegment.index
      ensures Valid() && added == old(added) + rs && Extends(out)
    {
      hide Valid, Writable;
      assert rs[..0] == [] && old(added) + [] == old(added);
      for i := 0 to |rs|
        invariant Valid() && added == old(added) + rs[..i] && Extends(out)
      {
        assert added + [rs[i]] == old(added) + rs[..i + 1];
        WritablePrefix(old(added) + rs, |added| + 1);
        assert (old(added) + rs)[..|added| + 1] == added + [rs[i]];
        Add(rs[i], now);
      }
      assert rs[..|rs|] == rs;
    }
  }

  lemma WritablePrefix(rs: seq<Record>, n: nat)
    requires Writable(rs) && n <= |rs|
    ensures Writable(rs[..n])
  {
    hide OneBatch, NumberedAll, PendingBytes;
    forall i, j | 0 <= i < j <= n && OneFlush(rs[..n][i..j]) ensures OneBatch(NumberedAll(rs[..n][i..j])) {
      assert rs[..n][i..j] == rs[i..j];
    }
  }

  // One more record among the pending ones.
  lemma PendingStep(added: seq<Record>, batch: seq<Record>, r: Record)
    requires |batch| < BATCH_RECORDS && |batch| <= |added| && batch == NumberedAll(added[|added| - |batch|..])
    requires PendingBytes(batch) < BATCH_BYTES
    ensures var more, grown := added + [r], batch + [Numbered(r, |batch|)];
      && more[..|more| - |grown|] == added[..|added| - |batch|] && grown == NumberedAll(more[|more| - |grown|..])
      && PendingBytes(grown) == PendingBytes(batch) + KeyValueBytes(r) && OneFlush(more[|more| - |grown|..])
  {
    hide PendingBytes, OneFlush;
    var more, grown, pending := added + [r], batch + [Numbered(r, |batch|)], added[|added| - |batch|..];
    assert more[|more| - |grown|..] == pending + [r];
    PendingAppend(batch, Numbered(r, |batch|));
    PendingNumbered(pending);
    FlushStep(pending, r);
  }

  lemma PendingAppend(rs: seq<Record>, r: Record)
    ensures PendingBytes(rs + [r]) == PendingBytes(rs) + KeyValueBytes(r)
  {
    assert (rs + [r])[..|rs|] == rs;
  }

  lemma FlushStep(pending: seq<Record>, r: Record)
    requires |pending| < BATCH_RECORDS && PendingBytes(pending) < BATCH_BYTES
    ensures OneFlush(pending + [r])
  {
    hide PendingBytes;
    assert (pending + [r])[..|pending|] == pending;
  }

  // The active segment is the one it was, or a new one, and nothing else has come in.
  twostate predicate Extends(out: Partition)
    reads out
  {
    && (out.activeSegment == old(out.activeSegment) || (fresh(out.activeSegment) && fresh(out.activeSegment.index)))
    && forall s :: s in out.closedSegments ==>
         s in old(out.closedSegments) || s == old(out.activeSegment) || (fresh(s) && fresh(s.index))
  }

  lemma AllWritten(w: CompactWriter)
    requires w.out.Valid() && !w.out.activeSegment.Full() && w.batch == [] && w.pendingBytes == 0
    requires Written(Pieces(w.out.Segs()), w.added)
    ensures w.Valid()
  {
    hide Partition.Valid, Written, Pieces;
    NothingPending(w.added);
  }

  lemma NothingPending(added: seq<Record>)
    ensures PendingBytes([]) == 0 && added[..|added|] == added && NumberedAll(added[|added|..]) == []
  {
  }

  lemma Apart(w: CompactWriter, segs: seq<Segment>)
    ensures forall i :: 0 <= i < |segs| ==> segs[i] as object != w
    ensures forall x: IndexFile :: x in Indexes(segs) ==> x as object != w
  {
  }

  // A batch at the end of the active segment; a segment that has filled up is closed.
  method WriteBatch(out: Partition, crc: Checksum, now: int64, batch: seq<Record>, ghost flushed: seq<Record>,
                    ghost rs: seq<Record>)
    requires out.Valid() && !out.activeSegment.Full() && Written(Pieces(out.Segs()), flushed)
    requires 0 < |rs| <= BATCH_RECORDS && batch == NumberedAll(rs) && OneBatch(batch) && |flushed| < TWO_63
    modifies out, out.activeSegment, out.activeSegment.index
    ensures out.Valid() && !out.activeSegment.Full() && Written(Pieces(out.Segs()), flushed + rs) && Extends(out)
  {
    hide Partition.Valid, Partition.Formed, Written, Pieces, BatchBytes, OneBatch, NumberedAll, Assigned, LengthField,
      Delta, Base, Decoded, AllReread, AllIndexed, Continuous;
    ghost var ps, n, b := Pieces(out.Segs()), |out.closedSegments|, Rewritten(crc, now, rs, |flushed|);
    WriterReady(out, flushed);
    RewrittenFields(crc, now, rs, |flushed|);
    WrittenAppend(ps, flushed, crc, now, rs);
    var raw := BatchBytes(crc, now, batch);
    assert Assigned(raw, out.nextOffset) == b;
    ValidFormed(out);
    var r := out.AppendActive(raw);
    assert Pieces(out.Segs()) == ps[n := Piece(ps[n].base, |flushed| + |rs|, ps[n].batches + [b])];
    if out.activeSegment.Full() {
      RollWritten(out, flushed + rs);
    }
  }

  method RollWritten(out: Partition, ghost flushed: seq<Record>)
    requires out.Valid() && Written(Pieces(out.Segs()), flushed)
      && out.activeSegment.baseOffset < out.nextOffset == |flushed|
    modifies out`closedSegments, out`activeSegment
    ensures out.Valid() && !out.activeSegment.Full() && Written(Pieces(out.Segs()), flushed)
    ensures fresh(out.activeSegment) && fresh(out.activeSegment.index)
    ensures out.closedSegments == old(out.closedSegments) + [old(out.activeSegment)]
  {
    hide Partition.Valid, Partition.Formed, Written, Pieces, AllIndexed;
    WrittenRoll(Pieces(out.Segs()), flushed);
    ValidFormed(out);
    out.Roll();
    ActiveLimit(out);
  }

  method NewCompactWriter(maxSegmentBytes: int, interval: int, crc: Checksum) returns (w: CompactWriter)
    requires 0 < maxSegmentBytes <= TWO_32
    ensures fresh(w) && fresh(w.out) && fresh(w.out.activeSegment) && fresh(w.out.activeSegment.index)
    ensures w.Valid() && w.added == [] && w.out.closedSegments == [] && w.out.maxSegmentBytes == maxSegmentBytes
  {
    hide Partition.Valid, Written, Pieces, Continuous, AllIndexed, CompactWriter.Valid;
    var out := new Partition(maxSegmentBytes, interval);
    WrittenNothing(Pieces(out.Segs()));
    ActiveLimit(out);
    assert out.Segs() == [out.activeSegment] && Indexes(out.Segs()) == {out.activeSegment.index};
    w := new CompactWriter(out, crc);
    AllWritten(w);
  }

  // ------------------------------------------------------------ the second pass

  lemma {:induction false} SurvivorsPrefix(rs: seq<Record>, n: nat)
    requires n <= |rs|
    ensures Survivors(rs, n) <= Kept(rs)
    decreases |rs| - n
  {
    hide Latest;
    if n < |rs| { SurvivorsPrefix(rs, n + 1); }
  }

  // A record goes to the writer if it has no key or the plan has it as the last of its key.
  method StageRecords(recs: seq<Record>, plan: Plan, maxSegmentBytes: int, interval: int, crc: Checksum, now: int64)
    returns (w: CompactWriter)
    requires 0 < maxSegmentBytes <= TWO_32 && IsLast(plan.last, recs, |recs|) && Writable(Kept(recs))
    ensures fresh(w) && fresh(w.out) && w.out.maxSegmentBytes == maxSegmentBytes
    ensures (forall s :: s in w.out.Segs() ==> fresh(s) && fresh(s.index))
    ensures w.Valid() && w.added == Kept(recs)
  {
    hide CompactWriter.Valid, Writable, IsLast, Latest;
    w := NewCompactWriter(maxSegmentBytes, interval, crc);
    for idx := 0 to |recs|
      invariant fresh(w) && fresh(w.out) && fresh(w.out.activeSegment) && fresh(w.out.activeSegment.index)
      invariant forall s :: s in w.out.closedSegments ==> fresh(s) && fresh(s.index)
      invariant w.Valid() && w.added == Survivors(recs, idx)
    {
      LatestIsLast(plan.last, recs, idx);
      var keep := recs[idx].key.None?;
      if !keep {
        var k := recs[idx].key.value;
        keep := k in plan.last && plan.last[k] == idx;
      }
      if keep {
        SurvivorsPrefix(recs, idx + 1);
        WritablePrefix(Kept(recs), |Survivors(recs, idx + 1)|);
        assert Kept(recs)[..|Survivors(recs, idx + 1)|] == w.added + [recs[idx]];
        w.Add(recs[idx], now);
      }
    }
  }

  lemma {:induction false} EndsBelow(ps: seq<Piece>, i: nat)
    requires Chained(ps) && i < |ps|
    ensures ps[i].next <= ps[|ps| - 1].next
    decreases |ps| - i
  {
    hide Base, Delta;
    if i < |ps| - 1 {
      assert ps[i].next == ps[i + 1].base;
      EndsBelow(ps, i + 1);
    }
  }

  datatype Outcome = KeysTooBig | Compact | Staged(writer: CompactWriter)

  method StageCompaction(segs: seq<Segment>, end: int, ghost log: seq<batch>, plan: Plan,
                         maxSegmentBytes: int, interval: int, crc: Checksum, now: int64)
    returns (w: CompactWriter)
    requires Source(segs, end, log) && AllDecode(log) && IsLast(plan.last, RecordsOf(log), |RecordsOf(log)|)
    requires 0 < maxSegmentBytes <= TWO_32 && Writable(Kept(RecordsOf(log)))
    ensures w.Valid() && w.added == Kept(RecordsOf(log)) && w.out.maxSegmentBytes == maxSegmentBytes
    ensures fresh(w) && fresh(w.out) && forall s :: s in w.out.Segs() ==> fresh(s) && fresh(s.index)
  {
    hide Source, AllDecode, RecordsOf, KeyBytesOf, IsLast, Kept, Writable, CompactWriter.Valid;
    var recs := ForEachBatch(segs, end, log);
    w := StageRecords(recs, plan, maxSegmentBytes, interval, crc, now);
  }

  lemma SourceReady(p: Partition)
    requires p.Valid() && (forall i :: 0 <= i < |p.Segs()| ==> AllDecode(p.Segs()[i].batches))
    ensures Source(p.Segs(), p.nextOffset, p.Log())
  {
    hide Segment.Valid, Chained, Separate, AllDecode;
    var segs, ps := p.Segs(), Pieces(p.Segs());
    JoinedDecodes(ps);
    forall i | 0 <= i < |segs| ensures segs[i].nextOffset <= p.nextOffset { EndsBelow(ps, i); }
  }

  // What compaction does under the read lock: the plan, and unless that gives up or finds every
  // record to be kept, a writer that holds the survivors.
  method PlanAndStage(p: Partition, crc: Checksum, now: int64, ghost log: seq<batch>) returns (r: Outcome)
    requires p.Valid() && Source(p.Segs(), p.nextOffset, log) && AllDecode(log) && Writable(Kept(RecordsOf(log)))
    ensures var recs := RecordsOf(log);
      && (r.KeysTooBig? <==> KeyBytesOf(recs) > MAX_KEY_BYTES)
      && (r.Compact? <==> KeyBytesOf(recs) <= MAX_KEY_BYTES && Kept(recs) == recs)
      && (r.Staged? ==> r.writer.Valid() && r.writer.added == Kept(recs))
    ensures r.Staged? ==>
      && fresh(r.writer) && fresh(r.writer.out) && r.writer.out.maxSegmentBytes == p.maxSegmentBytes
      && forall s :: s in r.writer.out.Segs() ==> fresh(s) && fresh(s.index)
  {
    hide Source, Partition.Valid, CompactWriter.Valid, AllDecode, RecordsOf, Kept, KeyBytesOf, Writable, IsLast;
    ActiveLimit(p);
    var segs, end := p.closedSegments + [p.activeSegment], p.nextOffset;
    assert segs == p.Segs();
    assert forall x :: x in Indexes(segs) ==> allocated(x);
    var plan := PlanCompaction(segs, end, log);
    if plan.None? {
      return KeysTooBig;
    }
    CompactAlready(RecordsOf(log));
    if plan.value.planned >= plan.value.total {
      return Compact;
    }
    var w := StageCompaction(segs, end, log, plan.value, p.maxSegmentBytes, p.indexInterval, crc, now);
    return Staged(w);
  }

  // ------------------------------------------------------------ appends during a compaction

  // A log that has only been appended to since it ended at `end` with these batches.
  ghost predicate AppendedSince(log: seq<batch>, next: int, snapshot: seq<batch>, end: int)
  {
    && |snapshot| <= |log| && log[..|snapshot|] == snapshot && AllWellFormed(log[|snapshot|..])
    && Dense(log[|snapshot|..], end) && next == end + Span(log[|snapshot|..])
  }

  lemma NothingSince(log: seq<batch>, end: int)
    ensures AppendedSince(log, end, log, end)
  {
    assert log[..|log|] == log && log[|log|..] == [];
  }

  lemma AppendedOne(log: seq<batch>, next: int, snapshot: seq<batch>, end: int, raw: bytes)
    requires AppendedSince(log, next, snapshot, end) && WellFormed(raw) && -TWO_63 <= next < TWO_63
    ensures AppendedSince(log + [Assigned(raw, next)], next + Delta(raw) + 1, snapshot, end)
  {
    hide Base, Delta, Dense, Assigned, LengthField;
    var b, more := Assigned(raw, next), log[|snapshot|..];
    AssignedFields(raw, next);
    assert (log + [b])[..|snapshot|] == log[..|snapshot|];
    assert (log + [b])[|snapshot|..] == more + [b];
    assert (more + [b])[..|more|] == more;
    DenseLast(more + [b], end);
  }

  // The tail is looked for in the active segment only. It is all there unless a roll has come
  // between the snapshot and the install; then it is not.
  lemma TailIsWhole(ps: seq<Piece>, snapshot: seq<batch>, from: int, end: int, late: nat)
    requires Chained(ps) && ps != [] && AppendedSince(Joined(ps), ps[|ps| - 1].next, snapshot, end)
      && InOrder(snapshot, from, end)
    requires var active := ps[|ps| - 1]; late <= |active.batches| && (active.base <= end ==> late == 0)
    ensures var active := ps[|ps| - 1];
      && AllWellFormed(active.batches[late..])
      && (From(active.batches[late..], end) == Joined(ps)[|snapshot|..] <==> active.base <= end)
  {
    hide Base, Delta, Joined, From, Chained, InOrder, Dense, Span;
    var active, more := ps[|ps| - 1], Joined(ps)[|snapshot|..];
    PieceInOrder(ps, |ps| - 1);
    InOrderSlice(active.batches, late, |active.batches|, active.base, active.next);
    assert active.batches[late..|active.batches|] == active.batches[late..];
    DenseInOrder(more, end);
    if active.base <= end {
      TailFound(ps, snapshot, more, from, end);
      assert active.batches[0..] == active.batches;
    } else {
      TailMissed(active.batches[late..], active.base, active.next, more, end);
    }
  }

  lemma TailFound(ps: seq<Piece>, snapshot: seq<batch>, more: seq<batch>, from: int, end: int)
    requires Chained(ps) && ps != [] && Joined(ps) == snapshot + more && ps[|ps| - 1].base <= end
    requires InOrder(snapshot, from, end) && InOrder(more, end, ps[|ps| - 1].next)
    ensures AllWellFormed(ps[|ps| - 1].batches) && From(ps[|ps| - 1].batches, end) == more
  {
    hide Base, Delta, Joined, From, Chained;
    var n := |ps| - 1;
    var front, active := Joined(ps[..n]), ps[n];
    PieceInOrder(ps, n);
    FrontBelow(ps, n);
    assert ps == ps[..n] + [active];
    JoinedAppend(ps[..n], active);
    LogInOrder(ps);
    var log := Joined(ps);
    forall j | 0 <= j < |front| ensures LastOffset(log[j]) < end { assert log[j] == front[j]; }
    FromSkips(log, end, |front|);
    assert log[|front|..] == active.batches;
    forall j | 0 <= j < |snapshot| ensures LastOffset(log[j]) < end { assert log[j] == snapshot[j]; }
    FromSkips(log, end, |snapshot|);
    assert log[|snapshot|..] == more;
    AllFromBelow(more, end, active.next, end);
  }

  lemma TailMissed(bs: seq<batch>, base: int, to: int, more: seq<batch>, end: int)
    requires InOrder(bs, base, to) && base > end && AllWellFormed(more) && Dense(more, end) && end + Span(more) >= base
    ensures From(bs, end) != more
  {
    hide Base, Delta;
    AllFromBelow(bs, base, to, end);
    assert more != [] by { SpanEmpty(); }
    assert more[..0] == [];
    SpanEmpty();
    assert Base(more[0]) == end + Span(more[..0]);
  }

  lemma RolledLog(b: batch, ps: seq<Piece>)
    requires WellFormed(b) && Base(b) == 0 && Delta(b) == 0 && ps == [Piece(0, 1, [b]), Piece(1, 1, [])]
    ensures Chained(ps) && Joined(ps) == [b]
  {
    hide Joined, Base, Delta, LengthField;
    var one: seq<Piece> := ps[..1];
    LonePiece(one);
    JoinedAppend(one, ps[1]);
    assert one + [ps[1]] == ps && [b] + [] == [b];
  }

  lemma SinceNothing(b: batch)
    requires WellFormed(b) && Base(b) == 0 && Delta(b) == 0
    ensures AppendedSince([b], 1, [], 0)
  {
    hide Base, Delta, LengthField;
    var one: seq<batch> := [b];
    assert one[..0] == [] && one[0..] == one;
    SpanEmpty();
  }

  // A log that was empty at the snapshot, got one record, and rolled: the install finds nothing of it.
  lemma RollLosesTail(crc: Checksum, now: int64, r: Record)
    requires OneBatch(NumberedAll([r]))
    ensures var b := Rewritten(crc, now, [r], 0);
      var ps := [Piece(0, 1, [b]), Piece(1, 1, [])];
      && Chained(ps) && AppendedSince(Joined(ps), 1, [], 0)
      && AllDecode(Joined(ps)) && Contents(RecordsOf(Joined(ps))) == Contents(AllReread([r]))
      && From(ps[1].batches, 0) == []
  {
    hide Rewritten, Base, Delta, LengthField, Decoded, Contents, AllReread, NumberedAll, OneBatch, Chained,
      AppendedSince, Joined, RecordsOf;
    var b := Rewritten(crc, now, [r], 0);
    RewrittenFields(crc, now, [r], 0);
    RolledLog(b, [Piece(0, 1, [b]), Piece(1, 1, [])]);
    SinceNothing(b);
    NothingDecodes();
    OneBatchRecords([], b, AllReread(NumberedAll([r])));
    assert [] + [b] == [b] && [] + AllReread(NumberedAll([r])) == AllReread(NumberedAll([r]));
    RewrittenContents([r]);
  }
}
