/**
 A segment's log file: record batches (section "Record Batch" of the Apache Kafka protocol
 documentation) laid end to end. A batch is its bytes; the log knows only the header fields at
 fixed places. `Scan` is the flat reading that indexed, segmented reads have to agree with.
 */
module BatchLog {
  import opened Bytes

  const HEADER_SIZE := 61
  const MAGIC := 2

  type batch = bytes

  function Word(s: bytes, at: nat, width: nat): nat
    requires at + width <= |s|
  {
    FromBigEndian(s[at..at + width])
  }

  function Base(b: batch): int64 requires |b| >= HEADER_SIZE { Int64(Word(b, 0, 8)) }

  function LengthField(b: batch): int32 requires |b| >= HEADER_SIZE { Int32(Word(b, 8, 4)) }

  function Delta(b: batch): int32 requires |b| >= HEADER_SIZE { Int32(Word(b, 23, 4)) }

  function LastOffset(b: batch): int requires |b| >= HEADER_SIZE { Base(b) + Delta(b) }

  function End(b: batch): int requires |b| >= HEADER_SIZE { LastOffset(b) + 1 }

  // What the header checks of the log accept.
  predicate HeaderOk(raw: bytes) { |raw| >= HEADER_SIZE && raw[16] == MAGIC }

  // A batch whose length field is true and whose offsets do not run backwards.
  predicate WellFormed(b: batch)
  {
    HeaderOk(b) && |b| - 12 < TWO_31 && LengthField(b) == |b| - 12 && Delta(b) >= 0
  }

  ghost predicate AllWellFormed(bs: seq<batch>) { forall k :: 0 <= k < |bs| ==> WellFormed(bs[k]) }

  // The batch as the log stores it, its base offset assigned.
  function Assigned(raw: bytes, base: int64): bytes
    requires |raw| >= 8
  {
    Int64Bytes(base) + raw[8..]
  }

  lemma AssignedFields(raw: bytes, base: int64)
    requires WellFormed(raw)
    ensures var b := Assigned(raw, base);
      WellFormed(b) && |b| == |raw| && Base(b) == base && Delta(b) == Delta(raw)
  {
    hide FromBigEndian, Int64Bytes, Int64, Int32;
    var b := Assigned(raw, base);
    assert b[0..8] == Int64Bytes(base);
    Int64RoundTrip(base);
    assert b[8..12] == raw[8..12];
    assert b[23..27] == raw[23..27];
  }

  // ------------------------------------------------------------ positions in the file

  function Flatten(bs: seq<batch>): bytes
  {
    if bs == [] then [] else Flatten(bs[..|bs| - 1]) + bs[|bs| - 1]
  }

  // Where the k-th batch begins.
  function Pos(bs: seq<batch>, k: nat): nat
    requires k <= |bs|
  {
    |Flatten(bs[..k])|
  }

  lemma {:induction false} FlattenAppend(a: seq<batch>, b: seq<batch>)
    ensures Flatten(a + b) == Flatten(a) + Flatten(b)
    decreases |b|
  {
    if b == [] {
      assert a + b == a;
    } else {
      var n := |b| - 1;
      assert (a + b)[..|a + b| - 1] == a + b[..n];
      FlattenAppend(a, b[..n]);
    }
  }

  lemma FlattenOne(b: batch)
    ensures Flatten([b]) == b
  {
    assert [b][..0] == [];
  }

  lemma PosSteps(bs: seq<batch>, k: nat)
    requires k < |bs|
    ensures Pos(bs, k + 1) == Pos(bs, k) + |bs[k]|
  {
    assert bs[..k + 1][..k] == bs[..k];
  }

  lemma PosEnds(bs: seq<batch>)
    ensures Pos(bs, 0) == 0 && Pos(bs, |bs|) == |Flatten(bs)|
  {
    assert bs[..|bs|] == bs;
  }

  // The bytes of the k-th batch, in their place.
  lemma BatchAt(bs: seq<batch>, k: nat)
    requires k < |bs|
    ensures Pos(bs, k) + |bs[k]| == Pos(bs, k + 1) <= |Flatten(bs)|
    ensures Flatten(bs)[Pos(bs, k)..Pos(bs, k + 1)] == bs[k]
  {
    hide Flatten;
    PosSteps(bs, k);
    FlattenAppend(bs[..k + 1], bs[k + 1..]);
    assert bs[..k + 1] + bs[k + 1..] == bs;
    FlattenAppend(bs[..k], [bs[k]]);
    FlattenOne(bs[k]);
    assert bs[..k] + [bs[k]] == bs[..k + 1];
  }

  lemma {:induction false} PosGrows(bs: seq<batch>, j: nat, k: nat)
    requires AllWellFormed(bs) && j <= k <= |bs|
    ensures Pos(bs, k) >= Pos(bs, j) + HEADER_SIZE * (k - j)
    decreases k - j
  {
    hide Flatten;
    if j < k {
      PosSteps(bs, k - 1);
      PosGrows(bs, j, k - 1);
    }
  }

  // A field of a batch, read from the file that holds it.
  lemma FieldAt(log: bytes, pos: nat, b: batch, at: nat, width: nat)
    requires pos + |b| <= |log| && log[pos..pos + |b|] == b && at + width <= |b|
    ensures Word(log, pos + at, width) == Word(b, at, width)
  {
    SliceSlice(log, pos, pos + |b|, at, at + width);
  }

  // ------------------------------------------------------------ offsets

  // Batches in offset order, within [from, to).
  ghost predicate InOrder(bs: seq<batch>, from: int, to: int)
  {
    && AllWellFormed(bs) && from <= to
    && (forall k :: 0 <= k < |bs| ==> from <= Base(bs[k]) && End(bs[k]) <= to)
    && (forall j, k :: 0 <= j < k < |bs| ==> End(bs[j]) <= Base(bs[k]))
  }

  // How many offsets the batches take.
  ghost function Span(bs: seq<batch>): nat
    requires AllWellFormed(bs)
  {
    if bs == [] then 0 else Span(bs[..|bs| - 1]) + Delta(bs[|bs| - 1]) + 1
  }

  // No offset is skipped from `from` on.
  ghost predicate Dense(bs: seq<batch>, from: int)
    requires AllWellFormed(bs)
  {
    forall k :: 0 <= k < |bs| ==> Base(bs[k]) == from + Span(bs[..k])
  }

  lemma InOrderAppend(bs: seq<batch>, b: batch, from: int, to: int)
    requires InOrder(bs, from, to) && WellFormed(b) && Base(b) >= to
    ensures InOrder(bs + [b], from, End(b))
  {
    hide Base, Delta;
  }

  lemma InOrderJoin(a: seq<batch>, b: seq<batch>, from: int, mid: int, to: int)
    requires InOrder(a, from, mid) && InOrder(b, mid, to)
    ensures InOrder(a + b, from, to)
  {
    hide Base, Delta;
  }

  lemma InOrderSlice(bs: seq<batch>, i: nat, j: nat, from: int, to: int)
    requires InOrder(bs, from, to) && i <= j <= |bs|
    ensures InOrder(bs[i..j], from, to)
  {
    hide Base, Delta;
  }

  // ------------------------------------------------------------ the flat reading

  // The batches from the first one that reaches the offset.
  ghost function From(bs: seq<batch>, offset: int): (r: seq<batch>)
    requires AllWellFormed(bs)
    ensures AllWellFormed(r)
  {
    if bs == [] || LastOffset(bs[0]) >= offset then bs else From(bs[1..], offset)
  }

  // The shortest run of whole batches whose size reaches the limit, or all of them.
  ghost function Filling(bs: seq<batch>, limit: int): seq<batch>
  {
    if bs == [] || limit <= 0 then [] else [bs[0]] + Filling(bs[1..], limit - |bs[0]|)
  }

  ghost function Scan(bs: seq<batch>, offset: int, limit: int): seq<batch>
    requires AllWellFormed(bs)
  {
    Filling(From(bs, offset), limit)
  }
}
