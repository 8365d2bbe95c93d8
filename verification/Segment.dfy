/**
 A segment: the log file of consecutive batches and its index, appended to, read from a position
 found through the index, cut at an offset, and recovered from its bytes when reopened.
 */
module Segments {
  import opened Bytes
  import opened BatchLog
  import opened OffsetIndex

  // ------------------------------------------------------------ the flat reading, step by step

  // The batches lying wholly below an offset.
  ghost function Below(bs: seq<batch>, offset: int): (r: seq<batch>)
    requires AllWellFormed(bs)
    ensures AllWellFormed(r) && |r| <= |bs|
  {
    if bs == [] || LastOffset(bs[0]) >= offset then [] else [bs[0]] + Below(bs[1..], offset)
  }

  lemma {:induction false} BelowIsPrefix(bs: seq<batch>, offset: int, k: nat)
    requires AllWellFormed(bs) && k <= |bs|
    requires forall j :: 0 <= j < k ==> LastOffset(bs[j]) < offset
    requires k == |bs| || LastOffset(bs[k]) >= offset
    ensures Below(bs, offset) == bs[..k] && From(bs, offset) == bs[k..]
    decreases k
  {
    hide Base, Delta;
    if k > 0 {
      BelowIsPrefix(bs[1..], offset, k - 1);
      assert bs[..k] == [bs[0]] + bs[1..][..k - 1];
    }
  }

  lemma {:induction false} FromSkips(bs: seq<batch>, offset: int, k: nat)
    requires AllWellFormed(bs) && k <= |bs| && forall j :: 0 <= j < k ==> LastOffset(bs[j]) < offset
    ensures From(bs, offset) == From(bs[k..], offset)
    decreases k
  {
    hide Base, Delta;
    if k > 0 {
      FromSkips(bs[1..], offset, k - 1);
      assert bs[1..][k - 1..] == bs[k..];
    }
  }

  // One batch of the scan: passed over, or taken together with everything after it.
  lemma ScanStep(bs: seq<batch>, offset: int, limit: int, k: nat, from: int, to: int)
    requires InOrder(bs, from, to) && k < |bs| && limit > 0
    ensures if LastOffset(bs[k]) < offset
            then Filling(From(bs[k..], offset), limit) == Filling(From(bs[k + 1..], offset), limit)
            else Filling(From(bs[k..], offset), limit)
                 == [bs[k]] + Filling(From(bs[k + 1..], offset), limit - |bs[k]|)
  {
    hide Base, Delta, Filling;
    var rest := bs[k..];
    assert rest[1..] == bs[k + 1..];
    if LastOffset(bs[k]) >= offset {
      assert From(rest, offset) == rest;
      assert bs[k + 1..] == [] || LastOffset(bs[k + 1]) >= offset;
      assert From(bs[k + 1..], offset) == bs[k + 1..];
      FillingStep(rest, limit);
    }
  }

  lemma FillingStep(bs: seq<batch>, limit: int)
    requires bs != [] && limit > 0
    ensures Filling(bs, limit) == [bs[0]] + Filling(bs[1..], limit - |bs[0]|)
  {
  }

  // ------------------------------------------------------------ recovery from bytes

  datatype Recovery = Failed | Recovered(size: nat, next: int)

  // Walking the log from a position: a batch that does not fit ends it, a header that cannot be
  // read whole is an error.
  function RecoverFrom(log: bytes, pos: nat, next: int): Recovery
    decreases |log| - pos
  {
    if pos >= |log| then Recovered(pos, next)
    else if pos + 12 > |log| then Failed
    else
      var length := Int32(Word(log, pos + 8, 4));
      if length <= 0 || pos + 12 + length > |log| then Recovered(pos, next)
      else if pos + 27 > |log| then Failed
      else RecoverFrom(log, pos + 12 + length, next + Int32(Word(log, pos + 23, 4)) + 1)
  }

  // The header fields of the k-th batch, read from a log that may go on after the batches.
  lemma HeaderAt(bs: seq<batch>, tail: bytes, k: nat)
    requires AllWellFormed(bs) && k < |bs|
    ensures var log, pos, b := Flatten(bs) + tail, Pos(bs, k), bs[k];
      && pos + |b| == Pos(bs, k + 1) <= |Flatten(bs)| && |b| >= HEADER_SIZE
      && log[pos..pos + |b|] == b
      && Int64(Word(log, pos, 8)) == Base(b)
      && Int32(Word(log, pos + 8, 4)) == |b| - 12
      && Int32(Word(log, pos + 23, 4)) == Delta(b)
  {
    hide Flatten, Word, Int32, Int64;
    BatchAt(bs, k);
    var log, pos, b := Flatten(bs) + tail, Pos(bs, k), bs[k];
    assert log[pos..pos + |b|] == b;
    FieldAt(log, pos, b, 0, 8);
    FieldAt(log, pos, b, 8, 4);
    FieldAt(log, pos, b, 23, 4);
  }

  lemma {:induction false} RecoverBatches(bs: seq<batch>, tail: bytes, base: int, k: nat)
    requires AllWellFormed(bs) && k <= |bs|
    ensures RecoverFrom(Flatten(bs) + tail, Pos(bs, k), base + Span(bs[..k]))
         == RecoverFrom(Flatten(bs) + tail, |Flatten(bs)|, base + Span(bs))
    decreases |bs| - k
  {
    hide Flatten, Word, Int32, Base, Delta, LengthField;
    if k == |bs| {
      PosEnds(bs);
      assert bs[..k] == bs;
    } else {
      HeaderAt(bs, tail, k);
      RecoverBatches(bs, tail, base, k + 1);
      assert bs[..k + 1][..k] == bs[..k];
    }
  }

  // Part of a batch, as a crash in the middle of an append leaves it.
  ghost predicate Torn(tail: bytes)
  {
    tail == [] || exists b: batch :: WellFormed(b) && tail < b
  }

  lemma RecoverTorn(head: bytes, tail: bytes, next: int)
    requires Torn(tail)
    ensures RecoverFrom(head + tail, |head|, next)
         == if 1 <= |tail| < 12 then Failed else Recovered(|head|, next)
  {
    hide Word, Int32, Base, Delta;
    if |tail| >= 12 {
      var b: batch :| WellFormed(b) && tail < b;
      var log := head + tail;
      assert log[|head| + 8..|head| + 12] == tail[8..12] == b[8..12];
      SameWord(log, |head| + 8, b, 8, 4);
    }
  }

  lemma SameWord(s: bytes, i: nat, t: bytes, j: nat, width: nat)
    requires i + width <= |s| && j + width <= |t| && s[i..i + width] == t[j..j + width]
    ensures Word(s, i, width) == Word(t, j, width)
  {
  }

  // Whole batches followed by a torn one: recovery keeps exactly the whole batches and counts
  // their offsets, unless the torn part is too short to hold a length, which is an error.
  lemma RecoverExactly(bs: seq<batch>, tail: bytes, base: int)
    requires AllWellFormed(bs) && Torn(tail)
    ensures RecoverFrom(Flatten(bs) + tail, 0, base)
         == if 1 <= |tail| < 12 then Failed else Recovered(|Flatten(bs)|, base + Span(bs))
  {
    hide Flatten, RecoverFrom, Torn;
    PosEnds(bs);
    assert bs[..0] == [];
    SpanEmpty();
    RecoverBatches(bs, tail, base, 0);
    RecoverTorn(Flatten(bs), tail, base + Span(bs));
  }

  // Where recovery goes on after the batch at a position, if it does.
  function NextBatch(log: bytes, pos: nat): Option<nat>
  {
    if pos + 12 > |log| then None else
    var length := Int32(Word(log, pos + 8, 4));
    if length <= 0 || pos + 12 + length > |log| || pos + 27 > |log| then None else Some(pos + 12 + length)
  }

  lemma RecoverStep(log: bytes, pos: nat, next: int)
    ensures NextBatch(log, pos).Some? ==>
      RecoverFrom(log, pos, next)
      == RecoverFrom(log, NextBatch(log, pos).value, next + Int32(Word(log, pos + 23, 4)) + 1)
    ensures NextBatch(log, pos).None? && pos + 27 <= |log| ==> RecoverFrom(log, pos, next) == Recovered(pos, next)
  {
    hide Word, Int32;
  }

  // An append checks a batch's header but not its length field. Recovery passes over the batch to
  // its end exactly if that field is true.
  lemma LengthDecides(head: bytes, raw: bytes, rest: bytes)
    requires HeaderOk(raw)
    ensures NextBatch(head + (raw + rest), |head|)
         == if LengthField(raw) <= 0 || 12 + LengthField(raw) > |raw| + |rest| then None
            else Some(|head| + 12 + LengthField(raw))
    ensures NextBatch(head + (raw + rest), |head|) == Some(|head| + |raw|) <==> LengthField(raw) == |raw| - 12
  {
    hide Word, Int32;
    var log, n := head + (raw + rest), |head|;
    assert log[n + 8..n + 12] == raw[8..12];
    SameWord(log, n + 8, raw, 8, 4);
  }

  // If the field says nothing, or more than what follows, the batch is lost on reopening with
  // everything after it.
  lemma FalseLength(bs: seq<batch>, raw: bytes, rest: bytes, base: int)
    requires AllWellFormed(bs) && HeaderOk(raw)
    requires LengthField(raw) <= 0 || 12 + LengthField(raw) > |raw| + |rest|
    ensures RecoverFrom(Flatten(bs) + (raw + rest), 0, base) == Recovered(|Flatten(bs)|, base + Span(bs))
  {
    hide Flatten, NextBatch, RecoverFrom, LengthField;
    PosEnds(bs);
    assert bs[..0] == [];
    SpanEmpty();
    LengthDecides(Flatten(bs), raw, rest);
    RecoverStep(Flatten(bs) + (raw + rest), |Flatten(bs)|, base + Span(bs));
    RecoverBatches(bs, raw + rest, base, 0);
  }

  // A batch without records that says of itself what it likes.
  function Crafted(length: int32, delta: int32): bytes
  {
    [0, 0, 0, 0, 0, 0, 0, 0] + Int32Bytes(length) + [0, 0, 0, 0, MAGIC, 0, 0, 0, 0, 0, 0] + Int32Bytes(delta)
    + seq(34, _ => 0)
  }

  lemma CraftedFields(length: int32, delta: int32)
    ensures var raw := Crafted(length, delta);
      |raw| == HEADER_SIZE && HeaderOk(raw) && LengthField(raw) == length && Delta(raw) == delta
  {
    hide Int32Bytes, FromBigEndian, Int32;
    var raw := Crafted(length, delta);
    assert raw[8..12] == Int32Bytes(length) && raw[23..27] == Int32Bytes(delta);
    Int32RoundTrip(length);
    Int32RoundTrip(delta);
  }

  // A length of 0 loses the batch and the rest of the log; a length that is too short makes recovery
  // go on inside the batch.
  lemma CraftedLengths(bs: seq<batch>, rest: bytes, base: int)
    requires AllWellFormed(bs)
    ensures HeaderOk(Crafted(0, 0)) && HeaderOk(Crafted(15, 0))
    ensures RecoverFrom(Flatten(bs) + (Crafted(0, 0) + rest), 0, base) == Recovered(|Flatten(bs)|, base + Span(bs))
    ensures NextBatch(Flatten(bs) + (Crafted(15, 0) + rest), |Flatten(bs)|) == Some(|Flatten(bs)| + 27)
  {
    hide Flatten, NextBatch, RecoverFrom, LengthField, Crafted, Delta;
    CraftedFields(0, 0);
    CraftedFields(15, 0);
    FalseLength(bs, Crafted(0, 0), rest, base);
    LengthDecides(Flatten(bs), Crafted(15, 0), rest);
  }

  // A delta below -1 is accepted and moves the end of the log back, so offsets are given out again.
  lemma CraftedDelta(next: int)
    ensures var raw := Crafted(49, -3);
      HeaderOk(raw) && LengthField(raw) == |raw| - 12 && next + Delta(raw) + 1 == next - 2
  {
    hide Crafted, Delta, LengthField;
    CraftedFields(49, -3);
  }

  // No offset between base and next is missing.
  ghost predicate Unbroken(bs: seq<batch>, base: int, next: int) { AllWellFormed(bs) && next == base + Span(bs) }

  lemma UnbrokenAppend(bs: seq<batch>, b: batch, base: int, next: int)
    requires Unbroken(bs, base, next) && WellFormed(b)
    ensures Unbroken(bs + [b], base, next + Delta(b) + 1)
  {
    hide Delta, LengthField;
    assert (bs + [b])[..|bs|] == bs;
  }

  lemma UnbrokenDense(bs: seq<batch>, base: int, next: int)
    requires InOrder(bs, base, next)
    ensures Unbroken(bs, base, next) ==> Dense(bs, base)
  {
    hide Base, Delta, InOrder, Dense, Span;
    InOrderWell(bs, base, next);
    if Unbroken(bs, base, next) { SpanFallsShort(bs, base, next); }
  }

  lemma InOrderWell(bs: seq<batch>, base: int, next: int)
    requires InOrder(bs, base, next)
    ensures AllWellFormed(bs)
  {
  }

  // Whether a cut at the target would go through a batch.
  ghost predicate Straddled(bs: seq<batch>, target: int)
    requires AllWellFormed(bs)
  {
    exists k :: 0 <= k < |bs| && Base(bs[k]) < target <= LastOffset(bs[k])
  }

  // A cut leaves no offset out exactly if it does not go through a batch.
  lemma CutUnbroken(bs: seq<batch>, base: int, next: int, target: int)
    requires InOrder(bs, base, next) && Unbroken(bs, base, next) && base <= target <= next
    ensures AllWellFormed(Below(bs, target))
    ensures Unbroken(Below(bs, target), base, target) <==> !Straddled(bs, target)
  {
    hide Base, Delta, Dense, Below, LengthField;
    UnbrokenDense(bs, base, next);
    DenseBelow(bs, base);
    var k := |bs|;
    if target < next {
      k := HolderOf(bs, base, target);
      DenseAt(bs, base, k);
    } else {
      assert bs[..k] == bs;
    }
    BelowIsPrefix(bs, target, k);
    forall j | 0 <= j < |bs| && j != k ensures !(Base(bs[j]) < target <= LastOffset(bs[j])) {
      if j > k { assert End(bs[k]) <= Base(bs[j]); }
    }
  }

  // A batch without records that takes delta + 1 offsets.
  function Plain(base: int64, delta: int32): batch { Assigned(Crafted(49, delta), base) }

  lemma PlainFields(base: int64, delta: int32)
    requires delta >= 0
    ensures var b := Plain(base, delta);
      WellFormed(b) && |b| == HEADER_SIZE && Base(b) == base && Delta(b) == delta && |Crafted(49, delta)| == HEADER_SIZE
  {
    hide Assigned, Crafted, Base, Delta, LengthField;
    CraftedFields(49, delta);
    AssignedFields(Crafted(49, delta), base);
  }

  // One batch of two offsets, cut between them: the log ends at 1, and at 0 when it is opened again.
  lemma CutInside()
    ensures var bs := [Plain(0, 1)];
      && InOrder(bs, 0, 2) && Unbroken(bs, 0, 2)
      && Below(bs, 1) == [] && Span(Below(bs, 1)) == 0 && !Unbroken(Below(bs, 1), 0, 1)
  {
    hide Plain, Base, Delta, LengthField;
    PlainFields(0, 1);
  }

  lemma DenseAt(bs: seq<batch>, from: int, k: nat)
    requires AllWellFormed(bs) && Dense(bs, from) && k < |bs|
    ensures Base(bs[k]) == from + Span(bs[..k])
  {
    hide Base, Span;
  }

  lemma SpanEmpty()
    ensures Span([]) == 0
  {
  }

  // Recovery counts offsets instead of reading them, so it falls short by every offset that a cut
  // inside a batch has skipped, and is right exactly when none has been.
  lemma {:induction false} SpanFallsShort(bs: seq<batch>, from: int, to: int)
    requires InOrder(bs, from, to)
    ensures from + Span(bs) <= to
    ensures from + Span(bs) == to <==>
      Dense(bs, from) && (bs == [] ==> from == to) && (bs != [] ==> End(bs[|bs| - 1]) == to)
    decreases |bs|
  {
    hide Base, Delta;
    if bs != [] {
      var k := |bs| - 1;
      InOrderSlice(bs, 0, k, from, to);
      var front := bs[..k];
      assert InOrder(front, from, Base(bs[k]));
      SpanFallsShort(front, from, Base(bs[k]));
      DenseLast(bs, from);
    }
  }

  lemma DenseLast(bs: seq<batch>, from: int)
    requires AllWellFormed(bs) && bs != []
    ensures Dense(bs, from) <==> Dense(bs[..|bs| - 1], from) && Base(bs[|bs| - 1]) == from + Span(bs[..|bs| - 1])
    ensures Dense(bs, from) && |bs| > 1 ==> Base(bs[|bs| - 1]) == End(bs[|bs| - 2])
  {
    hide Base, Delta;
    var n := |bs| - 1;
    assert forall k :: 0 <= k < n ==> bs[..n][..k] == bs[..k];
    if Dense(bs, from) && |bs| > 1 {
      assert bs[..n][..n - 1] == bs[..n - 1];
      assert Base(bs[n - 1]) == from + Span(bs[..n - 1]);
    }
  }

  // ------------------------------------------------------------ the segment

  // Every batch starts where a 32-bit index entry can point.
  ghost predicate Addressable(bs: seq<batch>) { forall k :: 0 <= k < |bs| ==> Pos(bs, k) < TWO_32 }

  lemma AddressableAppend(bs: seq<batch>, b: batch)
    requires Addressable(bs) && |Flatten(bs)| < TWO_32
    ensures Addressable(bs + [b])
  {
    hide Flatten;
    forall k | 0 <= k <= |bs| ensures Pos(bs + [b], k) < TWO_32 {
      assert (bs + [b])[..k] == bs[..k];
      if k == |bs| { assert bs[..k] == bs; } else { assert Pos(bs, k) < TWO_32; }
    }
  }

  lemma AddressablePrefix(bs: seq<batch>, k: nat)
    requires Addressable(bs) && k <= |bs|
    ensures Addressable(bs[..k])
  {
    hide Flatten;
    forall j | 0 <= j < k ensures Pos(bs[..k], j) < TWO_32 {
      assert bs[..k][..j] == bs[..j];
      assert Pos(bs, j) < TWO_32;
    }
  }

  class Segment {
    const baseOffset: int
    const index: IndexFile
    const maxSegmentBytes: int
    var log: bytes
    var size: nat
    var nextOffset: int
    ghost var batches: seq<batch>

    ghost predicate Valid()
      reads this, index
    {
      && index.Valid() && index.baseOffset == baseOffset
      && 0 <= baseOffset <= nextOffset && (batches != [] ==> nextOffset - baseOffset < TWO_31)
      && log == Flatten(batches) && size == |log| && Addressable(batches)
      && InOrder(batches, baseOffset, nextOffset)
      && Sound(index.entries, batches, baseOffset)
    }

    // What an append needs and always leaves, whatever has been appended before.
    ghost predicate Formed()
      reads this, index
    {
      index.Valid() && index.baseOffset == baseOffset && size == |log|
    }

    // The index is what the batches alone determine.
    ghost predicate Indexed()
      requires Valid()
      reads this, index
    {
      index.entries == SparseIndex(batches, baseOffset, index.interval)
    }

    constructor (baseOffset: int, maxSegmentBytes: int, interval: int)
      ensures Formed() && batches == [] && size == 0 && nextOffset == baseOffset
      ensures 0 <= baseOffset ==> Valid() && Indexed()
      ensures Unbroken(batches, baseOffset, nextOffset)
      ensures this.baseOffset == baseOffset && this.maxSegmentBytes == maxSegmentBytes
      ensures fresh(index) && index.interval == interval
    {
      index := new IndexFile(baseOffset, interval, []);
      this.baseOffset, this.maxSegmentBytes, nextOffset := baseOffset, maxSegmentBytes, baseOffset;
      log, size, batches := [], 0, [];
    }

    // A segment found on disk; `Valid` is for whoever opens it to establish.
    constructor Found(index: IndexFile, maxSegmentBytes: int, log: bytes, nextOffset: int, ghost batches: seq<batch>)
      ensures baseOffset == index.baseOffset && this.index == index && this.maxSegmentBytes == maxSegmentBytes
      ensures this.log == log && size == |log| && this.nextOffset == nextOffset && this.batches == batches
    {
      baseOffset, this.index, this.maxSegmentBytes := index.baseOffset, index, maxSegmentBytes;
      this.log, size, this.nextOffset, this.batches := log, |log|, nextOffset, batches;
    }

    predicate Full()
      reads this
    {
      size >= maxSegmentBytes
    }

    // Whether the header checks let a batch in.
    predicate Accepts(raw: bytes)
      reads this
    {
      HeaderOk(raw) && nextOffset + Delta(raw) + 1 - baseOffset <= TWO_31 - 1
    }

    // The batch gets the next offset and goes to the end of the log. Its header is all that is
    // checked: the segment stays in order if the length field is true and the delta not negative.
    method Append(raw: bytes) returns (r: Option<int>)
      requires Formed() && -TWO_63 <= nextOffset < TWO_63
      modifies this, index
      ensures Formed() && r == if old(Accepts(raw)) then Some(old(nextOffset)) else None
      ensures r.Some? ==>
        && log == old(log) + Assigned(raw, old(nextOffset))
        && batches == old(batches) + [Assigned(raw, old(nextOffset))]
        && nextOffset == old(nextOffset) + Delta(raw) + 1 && (nextOffset > old(nextOffset) <==> Delta(raw) >= 0)
      ensures r.None? ==> log == old(log) && batches == old(batches) && nextOffset == old(nextOffset)
      ensures size == old(size) + if r.Some? then |raw| else 0
      ensures old(Valid()) && old(size) < TWO_32 && (r.None? || WellFormed(raw)) ==>
        && Valid() && (old(Indexed()) ==> Indexed())
        && (old(Unbroken(batches, baseOffset, nextOffset)) ==> Unbroken(batches, baseOffset, nextOffset))
    {
      hide Base, Delta, Flatten, Assigned, Sound, InOrder, Addressable, LengthField, Unbroken, Due, SparseIndex;
      if !HeaderOk(raw) {
        return None;
      }
      if nextOffset + Delta(raw) + 1 - baseOffset > TWO_31 - 1 {
        return None;
      }
      if WellFormed(raw) && Valid() && size < TWO_32 {
        AppendKeeps(batches, raw, index.entries, baseOffset, nextOffset, index.interval);
      }
      r := Some(nextOffset);
      Put(raw);
    }

    // The bytes go down and the fields follow.
    method Put(raw: bytes)
      requires index.Valid() && size == |log| && |raw| >= HEADER_SIZE && -TWO_63 <= nextOffset < TWO_63
      modifies this, index
      ensures log == old(log) + Assigned(raw, old(nextOffset))
        && batches == old(batches) + [Assigned(raw, old(nextOffset))]
      ensures size == |log| == old(size) + |raw| && nextOffset == old(nextOffset) + Delta(raw) + 1
      ensures index.Valid()
        && index.entries == Due(old(index.entries), index.baseOffset, index.interval, old(nextOffset), old(size))
    {
      hide Delta, Assigned, Due;
      var offset, pos := nextOffset, size;
      var b := Assigned(raw, offset);
      AssignedSize(raw, offset);
      log := log[..size] + b;
      size := size + |b|;
      nextOffset := nextOffset + Delta(raw) + 1;
      batches := batches + [b];
      index.MaybeAppend(offset, pos);
    }

    // Batch by batch from the k-th, skipping those below the offset, until the limit is reached.
    method ReadFrom(start: nat, offset: int, maxBytes: int, ghost k: nat) returns (out: bytes)
      requires Valid() && k <= |batches| && start == Pos(batches, k) && maxBytes > 0
      ensures out == Flatten(Scan(batches[k..], offset, maxBytes))
    {
      hide Base, Delta, Flatten, Word, Int32, Int64, WellFormed, Addressable, Progress, Scan;
      FlattenNone();
      var pos := start;
      ghost var goal, taken: seq<batch>, i := Scan(batches[k..], offset, maxBytes), [], k;
      out := [];
      ScanStarts(batches, offset, maxBytes, k);
      assert log + [] == log;
      while pos < size && |out| < maxBytes
        invariant i <= |batches| && pos == Pos(batches, i) && out == Flatten(taken)
        invariant Progress(batches, offset, goal, maxBytes, taken, i)
        decreases |batches| - i
      {
        NotAtEnd(batches, i);
        HeaderAt(batches, [], i);
        var length := Int32(Word(log, pos + 8, 4));
        if length <= 0 || pos + 12 + length > size {
          break;
        }
        var total: int := 12 + (length as int);
        if total < HEADER_SIZE {
          break;
        }
        var raw := log[pos..pos + total];
        var base, delta := Int64(Word(log, pos, 8)), Int32(Word(log, pos + 23, 4));
        ScanAdvances(batches, offset, goal, maxBytes, taken, i, baseOffset, nextOffset);
        pos := pos + total;
        i := i + 1;
        if base as int + delta as int < offset {
          continue;
        }
        out := out + raw;
        taken := taken + [raw];
      }
      ScanEnds(batches, offset, goal, maxBytes, taken, i);
    }

    // Reading from the place the index gives. For the segment's own offsets that is the flat
    // reading; below its base the relative offset wraps to a large word and the lookup lands on
    // some later batch k.
    method Read(offset: int, maxBytes: int) returns (out: bytes, ghost k: nat)
      requires Valid()
      ensures k <= |batches| && Pos(batches, k) == PositionFor(index.entries, (offset - baseOffset) % TWO_32)
      ensures out == Flatten(Scan(batches[k..], offset, maxBytes))
      ensures baseOffset <= offset && (batches != [] ==> offset < baseOffset + TWO_32) ==>
        out == Flatten(Scan(batches, offset, maxBytes))
    {
      hide Base, Delta, Flatten, WellFormed, Addressable, Scan, PositionFor;
      k := LookupIsBoundary(index.entries, batches, baseOffset, (offset - baseOffset) % TWO_32);
      if batches == [] {
        assert batches[k..] == batches;
      } else if baseOffset <= offset < baseOffset + TWO_32 {
        k := LookupLands(index.entries, batches, baseOffset, nextOffset, offset);
        ScanSkips(batches, offset, maxBytes, k);
      }
      if maxBytes <= 0 {
        FlattenNone();
        ScanNothing(batches[k..], offset, maxBytes);
        return [], k;
      }
      var pos := index.PositionForOffset(offset);
      out := ReadFrom(pos, offset, maxBytes, k);
    }

    // The position of the first batch that reaches the target, looked for from the start-th on.
    method CutFrom(start: nat, target: int, ghost from: nat) returns (pos: nat, ghost k: nat)
      requires Valid() && from <= |batches| && start == Pos(batches, from)
      requires AllWellFormed(batches) && forall j :: 0 <= j < from ==> LastOffset(batches[j]) < target
      ensures k <= |batches| && pos == Pos(batches, k) && batches[..k] == Below(batches, target)
    {
      hide Base, Delta, Flatten, Word, Int32, Int64, LengthField, Addressable, Below, InOrder, Sound;
      pos, k := start, from;
      assert log + [] == log;
      while pos < size
        invariant k <= |batches| && pos == Pos(batches, k)
        invariant forall j :: 0 <= j < k ==> LastOffset(batches[j]) < target
        decreases |batches| - k
      {
        NotAtEnd(batches, k);
        HeaderAt(batches, [], k);
        var base, length := Int64(Word(log, pos, 8)), Int32(Word(log, pos + 8, 4));
        if length <= 0 || pos + 12 + length > size {
          break;
        }
        var delta := Int32(Word(log, pos + 23, 4));
        if base as int + delta as int >= target {
          BelowIsPrefix(batches, target, k);
          return;
        }
        pos := pos + 12 + length;
        k := k + 1;
      }
      AtEnd(batches, k);
      BelowIsPrefix(batches, target, k);
    }

    method CutPosition(target: int) returns (pos: nat, ghost k: nat)
      requires Valid() && baseOffset <= target && (batches != [] ==> target < baseOffset + TWO_32)
      ensures k <= |batches| && pos == Pos(batches, k) && batches[..k] == Below(batches, target)
    {
      hide Base, Delta, Flatten, LengthField, Addressable, Below;
      if batches == [] {
        k := LookupIsBoundary(index.entries, batches, baseOffset, (target - baseOffset) % TWO_32);
      } else {
        k := LookupLands(index.entries, batches, baseOffset, nextOffset, target);
      }
      pos := index.PositionForOffset(target);
      pos, k := CutFrom(pos, target, k);
    }

    // The index entries of the batches left, from an index that has been emptied.
    method RebuildIndex()
      requires index.Valid() && index.entries == [] && index.baseOffset == baseOffset
      requires AllWellFormed(batches) && log == Flatten(batches) && size == |log|
      modifies index
      ensures index.Valid() && index.entries == SparseIndex(batches, baseOffset, index.interval)
    {
      hide Base, Delta, Flatten, Word, Int32, Int64, WellFormed, Due;
      var scan := 0;
      ghost var k := 0;
      PosEnds(batches);
      assert log + [] == log;
      while scan < size
        invariant k <= |batches| && scan == Pos(batches, k) && index.Valid()
        invariant index.entries == SparseIndex(batches[..k], baseOffset, index.interval)
        decreases |batches| - k
      {
        NotAtEnd(batches, k);
        HeaderAt(batches, [], k);
        var base, length := Int64(Word(log, scan, 8)), Int32(Word(log, scan + 8, 4));
        if length <= 0 || scan + 12 + length > size {
          break;
        }
        SparseStep(batches, k, baseOffset, index.interval);
        index.MaybeAppend(base, scan);
        scan := scan + 12 + length;
        k := k + 1;
      }
      AtEnd(batches, k);
      assert batches[..k] == batches;
    }

    // Keeping exactly the batches wholly below the target, with their index rebuilt.
    method TruncateTo(target: int)
      requires Valid() && (batches != [] ==> target <= nextOffset)
      modifies this, index
      ensures Valid() && Indexed() && batches == Below(old(batches), target)
      ensures nextOffset == if target <= baseOffset then baseOffset else target
    {
      hide Base, Delta, Flatten, WellFormed, Sound, InOrder, Addressable, Below;
      FlattenNone();
      if target <= baseOffset {
        NoneBelow(batches, target, baseOffset, nextOffset);
        log, size, nextOffset, batches := [], 0, baseOffset, [];
        NothingKept(baseOffset, index.interval);
        index.Reset();
        return;
      }
      var pos;
      ghost var k;
      pos, k := CutPosition(target);
      CutKeeps(batches, k, target, baseOffset, nextOffset, index.interval);
      log, size, nextOffset := log[..pos], pos, target;
      batches := batches[..k];
      index.Reset();
      RebuildIndex();
    }
  }

  // A reading of `goal` that has consumed k batches and kept the ones in `taken`.
  ghost predicate Progress(bs: seq<batch>, offset: int, goal: seq<batch>, limit: int, taken: seq<batch>, k: nat)
    requires AllWellFormed(bs) && k <= |bs|
  {
    goal == taken + Filling(From(bs[k..], offset), limit - |Flatten(taken)|)
  }

  lemma ScanNothing(bs: seq<batch>, offset: int, limit: int)
    requires AllWellFormed(bs) && limit <= 0
    ensures Scan(bs, offset, limit) == []
  {
  }

  lemma ScanSkips(bs: seq<batch>, offset: int, limit: int, k: nat)
    requires AllWellFormed(bs) && k <= |bs| && forall j :: 0 <= j < k ==> LastOffset(bs[j]) < offset
    ensures Scan(bs, offset, limit) == Scan(bs[k..], offset, limit)
  {
    hide Base, Delta, From, Filling;
    FromSkips(bs, offset, k);
  }

  lemma ScanStarts(bs: seq<batch>, offset: int, limit: int, k: nat)
    requires AllWellFormed(bs) && k <= |bs|
    ensures Progress(bs, offset, Scan(bs[k..], offset, limit), limit, [], k)
  {
    hide From, Filling;
    FlattenNone();
    assert [] + Filling(From(bs[k..], offset), limit) == Filling(From(bs[k..], offset), limit);
  }

  lemma ScanAdvances(bs: seq<batch>, offset: int, goal: seq<batch>, limit: int, taken: seq<batch>, k: nat, from: int,
                     to: int)
    requires InOrder(bs, from, to) && k < |bs| && |Flatten(taken)| < limit
      && Progress(bs, offset, goal, limit, taken, k)
    ensures Flatten(taken + [bs[k]]) == Flatten(taken) + bs[k]
    ensures if LastOffset(bs[k]) < offset then Progress(bs, offset, goal, limit, taken, k + 1)
            else Progress(bs, offset, goal, limit, taken + [bs[k]], k + 1)
  {
    hide Base, Delta, From, Filling, Flatten, Scan;
    var left := limit - |Flatten(taken)|;
    ScanStep(bs, offset, left, k, from, to);
    FlattenAppend(taken, [bs[k]]);
    FlattenOne(bs[k]);
    var rest := Filling(From(bs[k + 1..], offset), left - |bs[k]|);
    assert taken + ([bs[k]] + rest) == taken + [bs[k]] + rest;
  }

  lemma ScanEnds(bs: seq<batch>, offset: int, goal: seq<batch>, limit: int, taken: seq<batch>, k: nat)
    requires AllWellFormed(bs) && k <= |bs| && Progress(bs, offset, goal, limit, taken, k)
    requires Pos(bs, k) >= |Flatten(bs)| || |Flatten(taken)| >= limit
    ensures goal == taken
  {
    hide Flatten;
    if k < |bs| { BatchAt(bs, k); }
  }

  lemma AtEnd(bs: seq<batch>, k: nat)
    requires k <= |bs| && AllWellFormed(bs) && Pos(bs, k) >= |Flatten(bs)|
    ensures k == |bs|
  {
    hide Flatten, Base, Delta, LengthField;
    if k < |bs| { BatchAt(bs, k); }
  }

  lemma SparseStep(bs: seq<batch>, k: nat, base: int, interval: int)
    requires AllWellFormed(bs) && k < |bs|
    ensures SparseIndex(bs[..k + 1], base, interval)
         == Due(SparseIndex(bs[..k], base, interval), base, interval, Base(bs[k]), Pos(bs, k))
  {
    hide Base, Flatten;
    assert bs[..k + 1] == bs[..k] + [bs[k]];
    SparseAppend(bs[..k], bs[k], base, interval);
  }

  lemma NoneBelow(bs: seq<batch>, target: int, from: int, to: int)
    requires InOrder(bs, from, to) && target <= from
    ensures Below(bs, target) == []
  {
    hide Base, Delta;
  }

  lemma NothingKept(base: int, interval: int)
    ensures InOrder([], base, base) && Addressable([]) && Sound([], [], base) && SparseIndex([], base, interval) == []
  {
  }

  lemma {:induction false} SparseSound(bs: seq<batch>, base: int, to: int, interval: int)
    requires InOrder(bs, base, to) && (bs != [] ==> to - base < TWO_32) && Addressable(bs)
    ensures Sound(SparseIndex(bs, base, interval), bs, base)
    decreases |bs|
  {
    hide Base, Delta, Flatten, Sound, Due;
    if bs == [] {
      NothingKept(base, interval);
    } else {
      var k := |bs| - 1;
      var b := bs[k];
      assert bs == bs[..k] + [b];
      InOrderSlice(bs, 0, k, base, to);
      assert InOrder(bs[..k], base, Base(b));
      AddressablePrefix(bs, k);
      SparseSound(bs[..k], base, Base(b), interval);
      assert Pos(bs, k) < TWO_32;
      DueSound(SparseIndex(bs[..k], base, interval), bs[..k], b, base, interval, Base(b));
    }
  }

  lemma CutKeeps(bs: seq<batch>, k: nat, target: int, base: int, next: int, interval: int)
    requires InOrder(bs, base, next) && Addressable(bs) && k <= |bs| && bs[..k] == Below(bs, target)
    requires base < target && (bs != [] ==> target <= next && next - base < TWO_31)
    ensures InOrder(bs[..k], base, target) && Addressable(bs[..k])
    ensures Pos(bs, k) <= |Flatten(bs)| && Flatten(bs)[..Pos(bs, k)] == Flatten(bs[..k])
    ensures Sound(SparseIndex(bs[..k], base, interval), bs[..k], base)
  {
    hide Base, Delta, Flatten, Sound, SparseIndex;
    InOrderSlice(bs, 0, k, base, next);
    BelowEnds(bs, target);
    assert InOrder(bs[..k], base, target);
    AddressablePrefix(bs, k);
    FlattenAppend(bs[..k], bs[k..]);
    assert bs[..k] + bs[k..] == bs;
    SparseSound(bs[..k], base, target, interval);
  }

  lemma {:induction false} BelowEnds(bs: seq<batch>, target: int)
    requires AllWellFormed(bs)
    ensures forall k :: 0 <= k < |Below(bs, target)| ==> LastOffset(Below(bs, target)[k]) < target
    decreases |bs|
  {
    hide Base, Delta;
    if bs != [] && LastOffset(bs[0]) < target { BelowEnds(bs[1..], target); }
  }

  lemma FlattenNone()
    ensures Flatten([]) == []
  {
  }

  lemma NotAtEnd(bs: seq<batch>, k: nat)
    requires k <= |bs| && Pos(bs, k) < |Flatten(bs)|
    ensures k < |bs|
  {
    hide Flatten;
    PosEnds(bs);
  }

  // What one append does to the invariants of the log and of its index.
  lemma AssignedSize(raw: bytes, base: int64)
    requires |raw| >= HEADER_SIZE
    ensures |Assigned(raw, base)| == |raw|
  {
    hide Int64Bytes;
  }

  lemma AppendKeeps(bs: seq<batch>, raw: bytes, es: seq<Entry>, base: int, next: int64, interval: int)
    requires WellFormed(raw) && InOrder(bs, base, next) && Addressable(bs) && Sound(es, bs, base)
    requires |Flatten(bs)| < TWO_32 && next - base < TWO_31
    ensures var b := Assigned(raw, next);
      && |b| == |raw| && WellFormed(b)
      && InOrder(bs + [b], base, next + Delta(raw) + 1) && Addressable(bs + [b])
      && Flatten(bs + [b]) == Flatten(bs) + b
      && Sound(Due(es, base, interval, next, |Flatten(bs)|), bs + [b], base)
      && SparseIndex(bs + [b], base, interval)
         == Due(SparseIndex(bs, base, interval), base, interval, next, |Flatten(bs)|)
      && (Unbroken(bs, base, next) ==> Unbroken(bs + [b], base, next + Delta(raw) + 1))
  {
    hide Base, Delta, Flatten, Assigned, Sound, Addressable, Unbroken;
    var b := Assigned(raw, next);
    AssignedFields(raw, next);
    if Unbroken(bs, base, next) { UnbrokenAppend(bs, b, base, next); }
    InOrderAppend(bs, b, base, next);
    AddressableAppend(bs, b);
    FlattenAppend(bs, [b]);
    FlattenOne(b);
    DueSound(es, bs, b, base, interval, next);
    SparseAppend(bs, b, base, interval);
  }

  // ------------------------------------------------------------ reopening

  method RecoverLog(log: bytes, base: int) returns (r: Recovery)
    ensures r == RecoverFrom(log, 0, base)
  {
    hide Word, Int32;
    var pos: nat, next := 0, base;
    while pos < |log|
      invariant RecoverFrom(log, 0, base) == RecoverFrom(log, pos, next)
      decreases |log| - pos
    {
      if pos + 12 > |log| {
        return Failed;
      }
      var length := Int32(Word(log, pos + 8, 4));
      if length <= 0 || pos + 12 + length > |log| {
        break;
      }
      if pos + 27 > |log| {
        return Failed;
      }
      var delta := Int32(Word(log, pos + 23, 4));
      next := next + delta + 1;
      pos := pos + 12 + length;
    }
    return Recovered(pos, next);
  }

  lemma {:induction false} DecodeWords(file: bytes, n: nat)
    requires ENTRY_SIZE * n <= |file|
    ensures |DecodeEntries(file, n)| == n && Words(DecodeEntries(file, n))
    decreases n
  {
    hide FromBigEndian, Pow256;
    if n > 0 {
      var at := ENTRY_SIZE * (n - 1);
      DecodeWords(file, n - 1);
      FromBigEndianBound(file[at..at + 4]);
      FromBigEndianBound(file[at + 4..at + 8]);
      WidthPowers();
    }
  }

  // Opening the files of a segment that holds the batches bs and, after a crash, part of one more.
  // It succeeds exactly when the index file ends on an entry and the torn part is empty or has a
  // readable length; it then keeps exactly bs. It is in order again exactly when no offset was
  // skipped and the index points truly.
  method OpenSegment(baseOffset: int, maxSegmentBytes: int, interval: int, logFile: bytes, indexFile: bytes,
                     ghost bs: seq<batch>, ghost tail: bytes) returns (r: Option<Segment>)
    requires 0 <= baseOffset && AllWellFormed(bs) && Torn(tail) && logFile == Flatten(bs) + tail
    ensures r.Some? <==> |indexFile| % ENTRY_SIZE == 0 && !(1 <= |tail| < 12)
    ensures r.Some? ==>
      && fresh(r.value) && fresh(r.value.index)
      && r.value.baseOffset == baseOffset && r.value.maxSegmentBytes == maxSegmentBytes
      && r.value.index.interval == interval
      && r.value.batches == bs && r.value.log == Flatten(bs) && r.value.nextOffset == baseOffset + Span(bs)
      && r.value.index.entries == DecodeEntries(indexFile, |indexFile| / ENTRY_SIZE)
    ensures r.Some? && Addressable(bs) && Span(bs) < TWO_31 ==>
      (r.value.Valid() <==> Dense(bs, baseOffset) && Sound(r.value.index.entries, bs, baseOffset))
  {
    hide Flatten, RecoverFrom, Torn, DecodeEntries, Sound, Addressable, Base, Delta;
    var entries := LoadEntries(indexFile);
    if entries.None? {
      return None;
    }
    DecodeWords(indexFile, |indexFile| / ENTRY_SIZE);
    var index := new IndexFile(baseOffset, interval, entries.value);
    var found := RecoverLog(logFile, baseOffset);
    RecoverExactly(bs, tail, baseOffset);
    if found.Failed? {
      return None;
    }
    assert logFile[..|Flatten(bs)|] == Flatten(bs);
    var s := new Segment.Found(index, maxSegmentBytes, logFile[..found.size], found.next, bs);
    DenseInOrder(bs, baseOffset);
    return Some(s);
  }

  // A batch with such a delta: the append answers as always, and the next one gets an offset that
  // has been given out before.
  method AppendBackwards(s: Segment) returns (r: Option<int>)
    requires s.Formed() && -TWO_63 <= s.nextOffset < TWO_63 && s.nextOffset - s.baseOffset < TWO_31
    modifies s, s.index
    ensures s.Formed() && r == Some(old(s.nextOffset)) && s.nextOffset == old(s.nextOffset) - 2
    ensures |Crafted(49, -3)| >= HEADER_SIZE
    ensures s.batches == old(s.batches) + [Assigned(Crafted(49, -3), old(s.nextOffset))]
  {
    hide Crafted, Delta, LengthField, Assigned, Segment.Valid, Segment.Formed;
    CraftedFields(49, -3);
    r := s.Append(Crafted(49, -3));
  }

  // A truncation that a crash stops after the log is cut and before the index is emptied: the
  // segment opens with the right batches, and is in order exactly if no offset is missing from them
  // and no entry of the index points at the cut or behind it.
  method CrashInTruncate(s: Segment, target: int) returns (r: Option<Segment>)
    requires s.Valid() && (s.batches != [] ==> target <= s.nextOffset)
    ensures r.Some? && fresh(r.value) && fresh(r.value.index)
    ensures r.value.batches == Below(s.batches, target) && r.value.index.entries == s.index.entries
    ensures var kept, es := Below(s.batches, target), s.index.entries;
      r.value.Valid() <==>
        Dense(kept, s.baseOffset) && forall i :: 0 <= i < |es| ==> es[i].position < |Flatten(kept)|
  {
    hide Base, Delta, Flatten, WellFormed, Sound, Addressable, Below, DecodeEntries, EncodeEntries, Dense, Torn, Words;
    var pos: nat;
    ghost var k: nat := 0;
    if target <= s.baseOffset {
      NoneBelow(s.batches, target, s.baseOffset, s.nextOffset);
      FlattenNone();
      pos := 0;
    } else {
      pos, k := s.CutPosition(target);
    }
    ghost var kept := s.batches[..k];
    CutFiles(s.batches, k, s.baseOffset, s.nextOffset);
    SoundCut(s.index.entries, s.batches, s.baseOffset, k);
    EntriesRoundTrip(s.index.entries);
    r := OpenSegment(s.baseOffset, s.maxSegmentBytes, s.index.interval, s.log[..pos], s.index.file, kept, []);
  }

  // What is left of a log cut on a batch boundary.
  lemma CutFiles(bs: seq<batch>, k: nat, base: int, next: int)
    requires InOrder(bs, base, next) && Addressable(bs) && k <= |bs| && (bs != [] ==> next - base < TWO_31)
    ensures Pos(bs, k) <= |Flatten(bs)| && Flatten(bs)[..Pos(bs, k)] == Flatten(bs[..k]) + []
    ensures AllWellFormed(bs[..k]) && Addressable(bs[..k]) && Span(bs[..k]) < TWO_31 && Torn([])
  {
    hide Base, Delta, Flatten, Span;
    InOrderSlice(bs, 0, k, base, next);
    AddressablePrefix(bs, k);
    FlattenAppend(bs[..k], bs[k..]);
    assert bs[..k] + bs[k..] == bs;
    if bs == [] { SpanEmpty(); } else { SpanFallsShort(bs[..k], base, next); }
  }

  lemma DenseInOrder(bs: seq<batch>, from: int)
    requires AllWellFormed(bs)
    ensures InOrder(bs, from, from + Span(bs)) <==> Dense(bs, from)
  {
    hide Base, Delta, InOrder, Dense, Span;
    if InOrder(bs, from, from + Span(bs)) { SpanFallsShort(bs, from, from + Span(bs)); }
    if Dense(bs, from) { DenseOrdered(bs, from); }
  }

  lemma {:induction false} DenseOrdered(bs: seq<batch>, from: int)
    requires AllWellFormed(bs) && Dense(bs, from)
    ensures InOrder(bs, from, from + Span(bs))
    decreases |bs|
  {
    hide Base, Delta, InOrder, Dense;
    if bs == [] {
      NothingKept(from, 0);
    } else {
      var k := |bs| - 1;
      DenseLast(bs, from);
      DenseOrdered(bs[..k], from);
      assert bs == bs[..k] + [bs[k]];
      InOrderAppend(bs[..k], bs[k], from, Base(bs[k]));
    }
  }

  lemma {:induction false} HolderOf(bs: seq<batch>, from: int, offset: int) returns (k: nat)
    requires AllWellFormed(bs) && Dense(bs, from) && from <= offset < from + Span(bs)
    ensures k < |bs| && Base(bs[k]) <= offset <= LastOffset(bs[k])
    ensures forall j :: 0 <= j < k ==> LastOffset(bs[j]) < offset
    decreases |bs|
  {
    hide Base, Delta, Dense;
    var n := |bs| - 1;
    DenseLast(bs, from);
    if offset < from + Span(bs[..n]) {
      k := HolderOf(bs[..n], from, offset);
    } else {
      k := n;
      DenseBelow(bs[..n], from);
    }
  }

  lemma DenseBelow(bs: seq<batch>, from: int)
    requires AllWellFormed(bs) && Dense(bs, from)
    ensures forall j :: 0 <= j < |bs| ==> LastOffset(bs[j]) < from + Span(bs)
  {
    hide Base, Delta, Dense, Span, LengthField;
    DenseOrdered(bs, from);
  }
}
