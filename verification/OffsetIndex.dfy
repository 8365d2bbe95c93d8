/**
 The sparse offset index beside a segment's log: an entry for a batch once enough bytes have
 passed since the last entry, looked up by binary search.
 */
module OffsetIndex {
  import opened Bytes
  import opened BatchLog

  const ENTRY_SIZE := 8

  // Both fields are 32-bit words in the file.
  datatype Entry = Entry(rel: nat, position: nat)

  function LastPosition(es: seq<Entry>): nat { if es == [] then 0 else es[|es| - 1].position }

  // The entry that a batch at this offset and position adds, if it is due.
  function Due(es: seq<Entry>, base: int, interval: int, offset: int, position: nat): seq<Entry>
  {
    if position - LastPosition(es) < interval then es
    else es + [Entry((offset - base) % TWO_32, position % TWO_32)]
  }

  // The index of a segment as a function of its batches alone.
  ghost function SparseIndex(bs: seq<batch>, base: int, interval: int): seq<Entry>
    requires AllWellFormed(bs)
  {
    if bs == [] then [] else
    var k := |bs| - 1;
    Due(SparseIndex(bs[..k], base, interval), base, interval, Base(bs[k]), Pos(bs, k))
  }

  predicate Sorted(es: seq<Entry>) { forall i, j :: 0 <= i < j < |es| ==> es[i].rel <= es[j].rel }

  // The position of the last entry at or below the relative offset, or the start of the log.
  function PositionFor(es: seq<Entry>, rel: nat): nat
  {
    if es == [] then 0
    else if es[|es| - 1].rel <= rel then es[|es| - 1].position
    else PositionFor(es[..|es| - 1], rel)
  }

  // ------------------------------------------------------------ soundness

  ghost predicate Marks(e: Entry, bs: seq<batch>, base: int, k: nat)
    requires AllWellFormed(bs)
  {
    k < |bs| && e.position == Pos(bs, k) && e.rel == Base(bs[k]) - base
  }

  ghost predicate Marked(e: Entry, bs: seq<batch>, base: int)
    requires AllWellFormed(bs)
  {
    exists k: nat :: Marks(e, bs, base, k)
  }

  // Whichever batches are indexed, every entry gives the true place of one of them.
  ghost predicate Sound(es: seq<Entry>, bs: seq<batch>, base: int)
    requires AllWellFormed(bs)
  {
    Sorted(es) && forall i :: 0 <= i < |es| ==> Marked(es[i], bs, base)
  }

  lemma MarkedAppend(e: Entry, bs: seq<batch>, b: batch, base: int)
    requires AllWellFormed(bs) && WellFormed(b) && Marked(e, bs, base)
    ensures Marked(e, bs + [b], base)
  {
    hide Base, Flatten;
    var k: nat :| Marks(e, bs, base, k);
    assert (bs + [b])[..k] == bs[..k];
    assert Marks(e, bs + [b], base, k);
  }

  // A crash that leaves a batch in the log without its entry: the index misses nothing it needs.
  lemma SoundAppended(es: seq<Entry>, bs: seq<batch>, b: batch, base: int)
    requires AllWellFormed(bs) && WellFormed(b) && Sound(es, bs, base)
    ensures Sound(es, bs + [b], base)
  {
    hide Base, Flatten, Marked, WellFormed;
    forall i | 0 <= i < |es| ensures Marked(es[i], bs + [b], base) { MarkedAppend(es[i], bs, b, base); }
  }

  // A crash that leaves only the first entries of an index being rebuilt.
  lemma SoundTaken(es: seq<Entry>, n: nat, bs: seq<batch>, base: int)
    requires AllWellFormed(bs) && Sound(es, bs, base) && n <= |es|
    ensures Sound(es[..n], bs, base)
  {
    hide Marked, WellFormed;
  }

  // A crash that leaves the log cut after k batches and the index as it was: it still points truly
  // exactly if no entry points at the cut or behind it.
  lemma SoundCut(es: seq<Entry>, bs: seq<batch>, base: int, k: nat)
    requires AllWellFormed(bs) && Sound(es, bs, base) && k <= |bs|
    ensures Sound(es, bs[..k], base) <==> forall i :: 0 <= i < |es| ==> es[i].position < Pos(bs, k)
  {
    hide Marked, WellFormed, Pos;
    forall i | 0 <= i < |es| ensures Marked(es[i], bs[..k], base) <==> es[i].position < Pos(bs, k) {
      MarkedCut(es[i], bs, base, k);
    }
  }

  lemma MarkedCut(e: Entry, bs: seq<batch>, base: int, k: nat)
    requires AllWellFormed(bs) && Marked(e, bs, base) && k <= |bs|
    ensures Marked(e, bs[..k], base) <==> e.position < Pos(bs, k)
  {
    hide Base, Flatten, WellFormed;
    var j: nat :| Marks(e, bs, base, j);
    if j < k {
      PosGrows(bs, j, k);
      assert bs[..k][..j] == bs[..j];
      assert Marks(e, bs[..k], base, j);
    } else {
      PosGrows(bs, k, j);
    }
    if Marked(e, bs[..k], base) {
      var i: nat :| Marks(e, bs[..k], base, i);
      assert bs[..k][..i] == bs[..i];
      PosGrows(bs, i, k);
    }
  }

  // The lookup of an entry's own offset gives its position, so that with a stale entry there is one
  // that leads past the end of the log.
  lemma {:induction false} OwnLookup(es: seq<Entry>, bs: seq<batch>, base: int, to: int, i: nat)
    requires InOrder(bs, base, to) && Sound(es, bs, base) && i < |es|
    ensures PositionFor(es, es[i].rel) == es[i].position
    decreases |es|
  {
    hide Base, Pos, WellFormed, Marked;
    var n := |es| - 1;
    if es[n].rel > es[i].rel {
      SoundTaken(es, n, bs, base);
      OwnLookup(es[..n], bs, base, to, i);
    } else {
      assert es[n].rel == es[i].rel;
      SameMark(es[n], es[i], bs, base, to);
    }
  }

  lemma SameMark(d: Entry, e: Entry, bs: seq<batch>, base: int, to: int)
    requires InOrder(bs, base, to) && Marked(d, bs, base) && Marked(e, bs, base) && d.rel == e.rel
    ensures d.position == e.position
  {
    hide Base, Pos;
    var j: nat :| Marks(d, bs, base, j);
    var k: nat :| Marks(e, bs, base, k);
    if j < k { BatchesRise(bs, base, to, j, k); } else if k < j { BatchesRise(bs, base, to, k, j); }
  }

  lemma BatchesRise(bs: seq<batch>, base: int, to: int, j: nat, k: nat)
    requires InOrder(bs, base, to) && j < k < |bs|
    ensures Base(bs[j]) < Base(bs[k])
  {
    hide Base, Delta, LengthField;
  }

  lemma DueSound(es: seq<Entry>, bs: seq<batch>, b: batch, base: int, interval: int, to: int)
    requires InOrder(bs, base, to) && WellFormed(b) && to <= Base(b) && Base(b) - base < TWO_32
    requires Sound(es, bs, base) && |Flatten(bs)| < TWO_32
    ensures Sound(Due(es, base, interval, Base(b), |Flatten(bs)|), bs + [b], base)
  {
    hide Base, Flatten, Marked;
    var es' := Due(es, base, interval, Base(b), |Flatten(bs)|);
    forall i | 0 <= i < |es| ensures Marked(es[i], bs + [b], base) && es[i].rel <= Base(b) - base {
      MarkedAppend(es[i], bs, b, base);
      MarkedBelow(es[i], bs, base, to);
    }
    if |es'| > |es| { NewMark(es'[|es|], bs, b, base); }
  }

  lemma MarkedBelow(e: Entry, bs: seq<batch>, base: int, to: int)
    requires InOrder(bs, base, to) && Marked(e, bs, base)
    ensures e.rel < to - base
  {
    hide Base, Delta, Pos;
    var k: nat :| Marks(e, bs, base, k);
  }

  lemma NewMark(e: Entry, bs: seq<batch>, b: batch, base: int)
    requires AllWellFormed(bs) && WellFormed(b)
    requires e.position == |Flatten(bs)| && e.rel == Base(b) - base
    ensures Marked(e, bs + [b], base)
  {
    hide Base, Flatten;
    assert (bs + [b])[..|bs|] == bs;
    assert Marks(e, bs + [b], base, |bs|);
  }

  // A lookup lands on a batch boundary with only smaller offsets before it.
  lemma {:induction false} LookupLands(es: seq<Entry>, bs: seq<batch>, base: int, to: int, offset: int) returns (k: nat)
    requires InOrder(bs, base, to) && Sound(es, bs, base) && base <= offset
    ensures k <= |bs| && PositionFor(es, offset - base) == Pos(bs, k)
    ensures forall j :: 0 <= j < k ==> LastOffset(bs[j]) < offset
    decreases |es|
  {
    hide Base, Delta, Pos;
    if es == [] {
      k := 0;
      PosEnds(bs);
    } else {
      var e := es[|es| - 1];
      if e.rel <= offset - base {
        assert Marked(e, bs, base);
        k :| Marks(e, bs, base, k);
      } else {
        k := LookupLands(es[..|es| - 1], bs, base, to, offset);
      }
    }
  }

  // A lookup for any word at all still lands on a batch boundary.
  lemma {:induction false} LookupIsBoundary(es: seq<Entry>, bs: seq<batch>, base: int, rel: nat) returns (k: nat)
    requires AllWellFormed(bs) && Sound(es, bs, base)
    ensures k <= |bs| && PositionFor(es, rel) == Pos(bs, k)
    decreases |es|
  {
    hide Base, Delta, Pos;
    if es == [] {
      k := 0;
      PosEnds(bs);
    } else if es[|es| - 1].rel <= rel {
      assert Marked(es[|es| - 1], bs, base);
      k :| Marks(es[|es| - 1], bs, base, k);
    } else {
      k := LookupIsBoundary(es[..|es| - 1], bs, base, rel);
    }
  }

  lemma SparseAppend(bs: seq<batch>, b: batch, base: int, interval: int)
    requires AllWellFormed(bs) && WellFormed(b)
    ensures SparseIndex(bs + [b], base, interval)
         == Due(SparseIndex(bs, base, interval), base, interval, Base(b), |Flatten(bs)|)
  {
    hide Base, Flatten;
    assert (bs + [b])[..|bs|] == bs;
  }

  // ------------------------------------------------------------ the file

  function EncodeEntries(es: seq<Entry>): bytes
  {
    if es == [] then [] else
    var e := es[|es| - 1];
    EncodeEntries(es[..|es| - 1]) + (BigEndian(e.rel, 4) + BigEndian(e.position, 4))
  }

  // The first n entries of a file.
  function DecodeEntries(file: bytes, n: nat): seq<Entry>
    requires ENTRY_SIZE * n <= |file|
  {
    if n == 0 then [] else
    var at := ENTRY_SIZE * (n - 1);
    DecodeEntries(file, n - 1) + [Entry(FromBigEndian(file[at..at + 4]), FromBigEndian(file[at + 4..at + 8]))]
  }

  ghost predicate Words(es: seq<Entry>) { forall i :: 0 <= i < |es| ==> es[i].rel < TWO_32 && es[i].position < TWO_32 }

  lemma {:induction false} DecodePrefix(file: bytes, tail: bytes, n: nat)
    requires ENTRY_SIZE * n <= |file|
    ensures DecodeEntries(file + tail, n) == DecodeEntries(file, n)
    decreases n
  {
    hide FromBigEndian;
    if n > 0 {
      var at := ENTRY_SIZE * (n - 1);
      DecodePrefix(file, tail, n - 1);
      assert (file + tail)[at..at + 4] == file[at..at + 4];
      assert (file + tail)[at + 4..at + 8] == file[at + 4..at + 8];
    }
  }

  // What the index has written is what opening it again loads.
  lemma {:induction false} EntriesRoundTrip(es: seq<Entry>)
    requires Words(es)
    ensures |EncodeEntries(es)| == ENTRY_SIZE * |es| && DecodeEntries(EncodeEntries(es), |es|) == es
    decreases |es|
  {
    hide BigEndian, FromBigEndian;
    if es != [] {
      var e, front := es[|es| - 1], es[..|es| - 1];
      EntriesRoundTrip(front);
      var head := EncodeEntries(front);
      DecodePrefix(head, BigEndian(e.rel, 4) + BigEndian(e.position, 4), |front|);
      EntryFields(head, e);
    }
  }

  lemma EntryFields(head: bytes, e: Entry)
    requires e.rel < TWO_32 && e.position < TWO_32
    ensures var n, file := |head|, head + (BigEndian(e.rel, 4) + BigEndian(e.position, 4));
      FromBigEndian(file[n..n + 4]) == e.rel && FromBigEndian(file[n + 4..n + 8]) == e.position
  {
    hide BigEndian, FromBigEndian;
    var n, file := |head|, head + (BigEndian(e.rel, 4) + BigEndian(e.position, 4));
    assert file[n..n + 4] == BigEndian(e.rel, 4) && file[n + 4..n + 8] == BigEndian(e.position, 4);
    Uint32RoundTrip(e.rel);
    Uint32RoundTrip(e.position);
  }

  class IndexFile {
    const baseOffset: int
    const interval: int
    var entries: seq<Entry>
    var file: bytes
    var writtenSize: nat

    // The file is the entries written so far.
    ghost predicate Valid()
      reads this
    {
      Words(entries) && file == EncodeEntries(entries) && writtenSize == |file|
    }

    constructor (baseOffset: int, interval: int, entries: seq<Entry>)
      requires Words(entries)
      ensures Valid() && this.baseOffset == baseOffset && this.interval == interval && this.entries == entries
    {
      this.baseOffset, this.interval, this.entries := baseOffset, interval, entries;
      file, writtenSize := EncodeEntries(entries), |EncodeEntries(entries)|;
    }

    method MaybeAppend(offset: int, position: nat)
      requires Valid()
      modifies this
      ensures Valid() && entries == Due(old(entries), baseOffset, interval, offset, position)
    {
      hide BigEndian;
      var lastPos := 0;
      if |entries| > 0 {
        lastPos := entries[|entries| - 1].position;
      }
      if position - lastPos < interval {
        return;
      }
      var rel, pos := (offset - baseOffset) % TWO_32, position % TWO_32;
      entries := entries + [Entry(rel, pos)];
      assert entries[..|entries| - 1] == old(entries);
      file := file[..writtenSize] + (BigEndian(rel, 4) + BigEndian(pos, 4));
      writtenSize := writtenSize + ENTRY_SIZE;
    }

    // Binary search for the first entry above the relative offset, which is a 32-bit word.
    method PositionForOffset(target: int) returns (position: nat)
      requires Sorted(entries)
      ensures position == PositionFor(entries, (target - baseOffset) % TWO_32)
    {
      var rel := (target - baseOffset) % TWO_32;
      var lo, hi := 0, |entries|;
      while lo < hi
        invariant 0 <= lo <= hi <= |entries|
        invariant forall i :: 0 <= i < lo ==> entries[i].rel <= rel
        invariant forall i :: hi <= i < |entries| ==> entries[i].rel > rel
      {
        var mid := (lo + hi) / 2;
        if entries[mid].rel > rel { hi := mid; } else { lo := mid + 1; }
      }
      PositionForSplit(entries, rel, lo);
      if lo == 0 {
        return 0;
      }
      return entries[lo - 1].position;
    }

    method Reset()
      modifies this
      ensures Valid() && entries == []
    {
      entries, writtenSize, file := [], 0, [];
    }
  }

  lemma {:induction false} PositionForSplit(es: seq<Entry>, rel: nat, i: nat)
    requires i <= |es| && (forall j :: 0 <= j < i ==> es[j].rel <= rel)
      && (forall j :: i <= j < |es| ==> es[j].rel > rel)
    ensures PositionFor(es, rel) == if i == 0 then 0 else es[i - 1].position
    decreases |es|
  {
    if i < |es| { PositionForSplit(es[..|es| - 1], rel, i); }
  }

  // Opening: a file that ends inside an entry is cut to whole entries, but the read that follows
  // still asks for the old size and fails.
  method LoadEntries(file: bytes) returns (r: Option<seq<Entry>>)
    ensures var n := |file| / ENTRY_SIZE;
      r == if |file| == ENTRY_SIZE * n then Some(DecodeEntries(file, n)) else None
  {
    hide FromBigEndian;
    var n := |file| / ENTRY_SIZE;
    if ENTRY_SIZE * n != |file| {
      return None;
    }
    var entries: seq<Entry> := [];
    for i := 0 to n
      invariant entries == DecodeEntries(file, i)
    {
      var at := ENTRY_SIZE * i;
      entries := entries + [Entry(FromBigEndian(file[at..at + 4]), FromBigEndian(file[at + 4..at + 8]))];
    }
    return Some(entries);
  }
}
