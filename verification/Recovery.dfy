/**
 A partition's directory: what opening it finds there, what a compaction writes into it, and what is
 found when a crash has come between.
 */
module Recovery {
  import opened Bytes
  import opened BatchLog
  import opened OffsetIndex
  import opened Segments
  import opened Partitions
  import opened RecordBatches
  import opened Compaction
  import opened Compactor
  import opened Swap

  // ------------------------------------------------------------ the segments in a directory

  ghost predicate Rising(bases: seq<int>) { forall i, j :: 0 <= i < j < |bases| ==> bases[i] < bases[j] }

  function Bases(files: seq<SegmentFiles>): (bases: seq<int>)
    ensures |bases| == |files| && forall i :: 0 <= i < |files| ==> bases[i] == files[i].base
  {
    seq(|files|, i requires 0 <= i < |files| => files[i].base)
  }

  // A segment's files; an index that is missing is created empty.
  function Found(dir: Files, base: int): SegmentFiles
    requires LogName(base) in dir
  {
    SegmentFiles(base, dir[LogName(base)], if IndexName(base) in dir then dir[IndexName(base)] else [])
  }

  // The directory's segments, by base offset. Other files do not matter.
  ghost predicate Shows(dir: Files, files: seq<SegmentFiles>)
  {
    && Rising(Bases(files)) && (forall b :: LogName(b) in dir <==> b in Bases(files))
    && forall i :: 0 <= i < |files| ==> LogName(files[i].base) in dir && Found(dir, files[i].base) == files[i]
  }

  lemma {:induction false} RisingUnique(a: seq<int>, b: seq<int>)
    requires Rising(a) && Rising(b) && forall x :: x in a <==> x in b
    ensures a == b
    decreases |a|
  {
    assert b != [] ==> b[0] in b;
    if a == [] {
    } else {
      assert a[0] in a && b != [];
      assert b[0] in b;
      var i :| 0 <= i < |b| && b[i] == a[0];
      var j :| 0 <= j < |a| && a[j] == b[0];
      assert a[0] == b[0];
      RestSame(a, b);
      RisingUnique(a[1..], b[1..]);
      assert a == [a[0]] + a[1..] && b == [b[0]] + b[1..];
    }
  }

  lemma RestSame(a: seq<int>, b: seq<int>)
    requires Rising(a) && Rising(b) && a != [] && b != [] && a[0] == b[0] && forall x :: x in a <==> x in b
    ensures Rising(a[1..]) && Rising(b[1..]) && forall x :: x in a[1..] <==> x in b[1..]
  {
    forall x ensures x in a[1..] <==> x in b[1..] {
      assert x in a[1..] <==> x in a && x != a[0] by { Tail(a, x); }
      assert x in b[1..] <==> x in b && x != b[0] by { Tail(b, x); }
    }
  }

  lemma Tail(a: seq<int>, x: int)
    requires Rising(a) && a != []
    ensures x in a[1..] <==> x in a && x != a[0]
  {
    assert a == [a[0]] + a[1..];
    if x in a[1..] {
      var i :| 0 <= i < |a[1..]| && a[1..][i] == x;
      assert a[0] < a[i + 1];
    }
  }

  // A log file of least base offset.
  ghost predicate Least(n: FileName, s: set<FileName>)
  {
    n in s && n.LogName? && forall m :: m in s && m.LogName? ==> n.base <= m.base
  }

  lemma {:induction false} HasLeast(s: set<FileName>)
    requires s != {} && forall n :: n in s ==> n.LogName?
    ensures exists n :: Least(n, s)
    decreases |s|
  {
    var x :| x in s;
    var rest := s - {x};
    var least := x;
    if rest != {} {
      HasLeast(rest);
      var n :| Least(n, rest);
      least := if x.base < n.base then x else n;
    }
    forall m | m in s ensures least.base <= m.base {
      if m != x { assert m in rest; }
    }
    assert Least(least, s);
  }

  lemma RisingAppend(bases: seq<int>, b: int)
    requires Rising(bases) && forall c :: c in bases ==> c < b
    ensures Rising(bases + [b])
  {
    assert forall i :: 0 <= i < |bases| ==> bases[i] in bases;
  }

  // The base offsets of the log files, sorted, each once.
  method ListBases(dir: Files) returns (bases: seq<int>)
    ensures Rising(bases) && forall b :: b in bases <==> LogName(b) in dir
  {
    var rest := set n | n in dir && n.LogName?;
    bases := [];
    while rest != {}
      invariant Rising(bases) && (forall b, n :: b in bases && n in rest ==> n.LogName? && b < n.base)
      invariant forall n :: n in rest ==> n.LogName?
      invariant forall b :: b in bases || LogName(b) in rest <==> LogName(b) in dir
      decreases |rest|
    {
      HasLeast(rest);
      var n :| n in rest && n.LogName? && forall m :: m in rest && m.LogName? ==> n.base <= m.base;
      RisingAppend(bases, n.base);
      bases, rest := bases + [n.base], rest - {n};
    }
  }

  // The segments found are the segments there are.
  method FindSegments(dir: Files, ghost files: seq<SegmentFiles>) returns (r: seq<SegmentFiles>)
    requires Shows(dir, files)
    ensures r == files
  {
    hide Rising;
    var bases := ListBases(dir);
    RisingUnique(bases, Bases(files));
    r := [];
    for i := 0 to |bases|
      invariant r == files[..i]
    {
      assert bases[i] in bases;
      r := r + [Found(dir, bases[i])];
    }
  }

  // What a directory stores: its segments, the last of them possibly with a torn batch at its end.
  datatype Stored = Stored(files: seq<SegmentFiles>, pieces: seq<Piece>, tail: bytes)

  ghost predicate Stores(dir: Files, s: Stored)
  {
    Shows(dir, s.files) && AllHold(s.files, s.pieces, s.tail) && Chained(s.pieces) && s.pieces != []
  }

  method OpenDirectory(dir: Files, maxSegmentBytes: int, interval: int, ghost s: Stored) returns (r: Option<Partition>)
    requires Stores(dir, s) && 0 < maxSegmentBytes <= TWO_32
    ensures r.Some? <==> !(1 <= |s.tail| < 12)
    ensures r.Some? ==> fresh(r.value) && r.value.Valid() && r.value.maxSegmentBytes == maxSegmentBytes
    ensures r.Some? ==>
      && Pieces(r.value.Segs()) == s.pieces && r.value.Log() == Joined(s.pieces)
      && r.value.nextOffset == s.pieces[|s.pieces| - 1].next
  {
    hide Shows, Holds, Chained, Joined, Pieces, Partition.Valid;
    var files := FindSegments(dir, s.files);
    r := OpenPartition(files, maxSegmentBytes, interval, s.pieces, s.tail);
  }

  // A restart after a crash during a compaction: once a recovery has got through, the partition
  // opens with what the directory stored, or with the compacted log if the manifest is complete.
  method Restart(d: Disk, crashes: seq<nat>, maxSegmentBytes: int, interval: int,
                 ghost before: Files, ghost after: Files, ghost s: Stored)
    returns (finished: bool, r: Option<Partition>)
    requires Recoverable(d.dir, d.tmp, d.manifest, before, after)
    requires Stores(if d.manifest.Whole? then after else d.dir, s) && 0 < maxSegmentBytes <= TWO_32
    modifies d
    ensures s.pieces != [] && Recoverable(d.dir, d.tmp, d.manifest, before, after)
    ensures finished ==> (r.Some? <==> !(1 <= |s.tail| < 12))
    ensures finished && r.Some? ==>
      && r.value.Valid() && r.value.Log() == Joined(s.pieces)
      && r.value.nextOffset == s.pieces[|s.pieces| - 1].next
  {
    hide Stores, Committed, Joined, Pieces, Partition.Valid;
    SomeStored(if d.manifest.Whole? then after else d.dir, s);
    finished := d.Recover(crashes, before, after);
    r := None;
    if finished {
      r := OpenDirectory(d.dir, maxSegmentBytes, interval, s);
    }
  }

  lemma SomeStored(dir: Files, s: Stored)
    requires Stores(dir, s)
    ensures s.pieces != []
  {
  }

  // ------------------------------------------------------------ the install

  function WithSegment(dir: Files, f: SegmentFiles): Files
  {
    dir[LogName(f.base) := f.log][IndexName(f.base) := f.index]
  }

  // The directory these segments make.
  function DirOf(files: seq<SegmentFiles>): Files
  {
    if files == [] then map[] else WithSegment(DirOf(files[..|files| - 1]), files[|files| - 1])
  }

  lemma FoundAgain(dir: Files, f: SegmentFiles, b: int)
    requires b == f.base || LogName(b) in dir
    ensures LogName(b) in WithSegment(dir, f)
      && Found(WithSegment(dir, f), b) == if b == f.base then f else Found(dir, b)
  {
  }

  lemma {:induction false} DirNames(files: seq<SegmentFiles>)
    ensures forall n :: n in DirOf(files) <==> (n.LogName? || n.IndexName?) && n.base in Bases(files)
    decreases |files|
  {
    if files != [] {
      var k := |files| - 1;
      assert Bases(files) == Bases(files[..k]) + [files[k].base];
      DirNames(files[..k]);
    }
  }

  lemma {:induction false} DirHolds(files: seq<SegmentFiles>, i: nat)
    requires Rising(Bases(files)) && i < |files|
    ensures LogName(files[i].base) in DirOf(files) && Found(DirOf(files), files[i].base) == files[i]
    decreases |files|
  {
    hide Found, WithSegment;
    var k := |files| - 1;
    if i < k {
      assert Bases(files[..k]) == Bases(files)[..k];
      DirHolds(files[..k], i);
      assert Bases(files)[i] < Bases(files)[k];
    }
    FoundAgain(DirOf(files[..k]), files[k], files[i].base);
  }

  lemma DirShows(files: seq<SegmentFiles>)
    requires Rising(Bases(files))
    ensures Shows(DirOf(files), files)
  {
    hide Rising, DirOf, Found;
    DirNames(files);
    forall i | 0 <= i < |files|
      ensures LogName(files[i].base) in DirOf(files) && Found(DirOf(files), files[i].base) == files[i]
    {
      DirHolds(files, i);
    }
  }

  // The names of the files, as the writer has collected them, and the files in compact-tmp.
  method LayOut(files: seq<SegmentFiles>) returns (names: seq<FileName>, tmp: map<TmpName, bytes>)
    requires Rising(Bases(files))
    ensures Ready(names, tmp, DirOf(files)) && |names| == 2 * |files|
  {
    hide DirOf;
    names, tmp := [], map[];
    NoFiles();
    assert files[..0] == [];
    for i := 0 to |files|
      invariant Ready(names, tmp, DirOf(files[..i])) && |names| == 2 * i
    {
      DirStep(files, i);
      var f := files[i];
      ReadyStep(names, tmp, DirOf(files[..i]), LogName(f.base), f.log);
      names, tmp := names + [LogName(f.base)], tmp[Built(LogName(f.base)) := f.log];
      ReadyStep(names, tmp, DirOf(files[..i])[LogName(f.base) := f.log], IndexName(f.base), f.index);
      names, tmp := names + [IndexName(f.base)], tmp[Built(IndexName(f.base)) := f.index];
    }
    assert files[..|files|] == files;
  }

  lemma NoFiles()
    ensures DirOf([]) == map[]
  {
  }

  lemma DirStep(files: seq<SegmentFiles>, i: nat)
    requires Rising(Bases(files)) && i < |files|
    ensures var f, dir := files[i], DirOf(files[..i]);
      && LogName(f.base) !in dir && IndexName(f.base) !in dir
      && DirOf(files[..i + 1]) == dir[LogName(f.base) := f.log][IndexName(f.base) := f.index]
  {
    assert files[..i + 1][..i] == files[..i];
    assert Bases(files[..i]) == Bases(files)[..i];
    DirNames(files[..i]);
    forall j | 0 <= j < i ensures Bases(files[..i])[j] != files[i].base { assert Bases(files)[j] < Bases(files)[i]; }
  }

  lemma ReadyStep(names: seq<FileName>, tmp: map<TmpName, bytes>, after: Files, n: FileName, content: bytes)
    requires Ready(names, tmp, after) && n !in after
    ensures Ready(names + [n], tmp[Built(n) := content], after[n := content])
  {
    assert forall i :: 0 <= i < |names| ==> names[i] in names;
  }

  // Only the last segment may be empty, so bases rise strictly.
  lemma BasesRiseStrictly(ps: seq<Piece>, i: nat, j: nat)
    requires Chained(ps) && i < j < |ps| && ps[i].base < ps[i].next
    ensures ps[i].base < ps[j].base
  {
    hide InOrder;
    NextBase(ps, i + 1);
    ChainedSlice(ps, i + 1, |ps|);
    BasesGrow(ps[i + 1..|ps|], j - i - 1);
  }

  lemma FileBase(files: seq<SegmentFiles>, ps: seq<Piece>, tail: bytes, i: nat)
    requires AllHold(files, ps, tail) && i < |ps|
    ensures |files| == |ps| && files[i].base == ps[i].base
  {
    hide InOrder, Flatten, Segments.Torn, Addressable, Sound, DecodeEntries, Span, AllWellFormed;
    assert Holds(files[i], ps[i], if i == |ps| - 1 then tail else []);
  }

  lemma FilesRise(files: seq<SegmentFiles>, ps: seq<Piece>, tail: bytes)
    requires Chained(ps) && AllHold(files, ps, tail) && forall i :: 0 <= i < |ps| - 1 ==> ps[i].base < ps[i].next
    ensures Rising(Bases(files))
  {
    hide Chained, AllHold;
    assert |files| == |ps| by { FilesMatch(files, ps, tail); }
    forall i, j | 0 <= i < j < |ps| ensures Bases(files)[i] < Bases(files)[j] {
      FileBase(files, ps, tail, i);
      FileBase(files, ps, tail, j);
      BasesRiseStrictly(ps, i, j);
    }
  }

  lemma WrittenFills(ps: seq<Piece>, rs: seq<Record>)
    requires Written(ps, rs)
    ensures forall i :: 0 <= i < |ps| - 1 ==> ps[i].base < ps[i].next
  {
    hide HoldRecords, Solid;
  }

  lemma ContinuousFills(ps: seq<Piece>)
    requires Continuous(ps)
    ensures forall i :: 0 <= i < |ps| - 1 ==> ps[i].base < ps[i].next
  {
    hide Unbroken;
  }

  // The files of a partition that misses no offset are a directory that stores it.
  method Checkpoint(p: Partition, tail: bytes) returns (files: seq<SegmentFiles>)
    requires p.Valid() && Continuous(Pieces(p.Segs())) && Segments.Torn(tail)
    ensures Stores(DirOf(files), Stored(files, Pieces(p.Segs()), tail))
  {
    hide Partition.Valid, AllHold, Chained, Continuous, Pieces, AllValid, Unbroken, Shows, Rising, Segments.Torn;
    ghost var ps := Pieces(p.Segs());
    ContinuousSegments(p);
    ContinuousFills(ps);
    files := FilesOf(p.closedSegments + [p.activeSegment], tail);
    FilesRise(files, ps, tail);
    DirShows(files);
  }

  // The writer's last batch, and the files it leaves.
  method Finish(w: CompactWriter, now: int64) returns (files: seq<SegmentFiles>, ghost ps: seq<Piece>)
    requires w.Valid() && Writable(w.added)
    modifies w, w.out, w.out.activeSegment, w.out.activeSegment.index
    ensures AllHold(files, ps, []) && Chained(ps) && Rising(Bases(files))
    ensures Written(ps, old(w.added))
  {
    hide Written, Writable, Rising, AllHold, Chained;
    w.Flush(now);
    assert w.Flushed() == w.added;
    ps := Pieces(w.out.Segs());
    SegmentsOut(w.out, w.added);
    NothingTorn();
    files := FilesOf(w.out.closedSegments + [w.out.activeSegment], []);
    WrittenFills(ps, old(w.added));
    FilesRise(files, ps, []);
  }

  lemma SegmentsOut(out: Partition, rs: seq<Record>)
    requires out.Valid() && Written(Pieces(out.Segs()), rs)
    ensures AllValid(out.Segs()) && Chained(Pieces(out.Segs()))
    ensures forall i :: 0 <= i < |out.Segs()| ==>
      Unbroken(out.Segs()[i].batches, out.Segs()[i].baseOffset, out.Segs()[i].nextOffset)
  {
    hide Segment.Valid, Chained, HoldRecords, Span, Flatten;
    assert forall i :: 0 <= i < |out.Segs()| ==> Solid(Pieces(out.Segs())[i]);
  }

  // The partition takes over the segments that recovery has opened.
  method TakeOver(p: Partition, q: Partition)
    requires q.Valid() && p != q && p.maxSegmentBytes == q.maxSegmentBytes
    modifies p
    ensures p.Valid() && p.Segs() == q.Segs() && Pieces(p.Segs()) == old(Pieces(q.Segs()))
      && p.nextOffset == q.nextOffset
  {
    hide Segment.Valid, Chained, Separate, Pieces, Indexes;
    Distinct(p, q.Segs());
    p.closedSegments, p.activeSegment := q.closedSegments, q.activeSegment;
    p.nextOffset, p.highWatermark := q.nextOffset, q.highWatermark;
    assert p.Segs() == q.Segs();
  }

  // The writer can take, after its records, those of any run of batches at the end of these.
  ghost predicate RoomFor(rs: seq<Record>, bs: seq<batch>)
  {
    AllDecode(bs) && forall l :: 0 <= l <= |bs| ==> AllDecode(bs[l..]) && Writable(rs + RecordsOf(bs[l..]))
  }

  lemma TailFits(rs: seq<Record>, bs: seq<batch>, late: nat, from: int)
    requires RoomFor(rs, bs) && late <= |bs| && AllDecode(bs[late..]) && AllDecode(From(bs[late..], from))
    ensures Writable(rs + RecordsOf(From(bs[late..], from)))
  {
    hide Writable, RecordsOf, From, Decoded, WellFormed;
    var m := FromSplit(bs[late..], from);
    assert bs[late..][m..] == bs[late + m..];
  }

  // What has been appended to the active segment since the snapshot goes to the writer as it is.
  method InstallTail(active: Segment, w: CompactWriter, snapshotEnd: int, now: int64) returns (ghost late: nat)
    requires active.Valid() && w.Valid() && RoomFor(w.added, active.batches)
    modifies w, w.out, w.out.activeSegment, w.out.activeSegment.index
    ensures late <= |old(active.batches)| && (active.baseOffset <= snapshotEnd ==> late == 0)
    ensures var bs := old(active.batches);
      && AllDecode(bs[late..]) && AllDecode(From(bs[late..], snapshotEnd))
      && w.added == old(w.added) + RecordsOf(From(bs[late..], snapshotEnd))
    ensures w.Valid() && Writable(w.added) && Extends(w.out)
  {
    hide CompactWriter.Valid, Writable, Segment.Valid, RecordsOf, From, AllDecode;
    ghost var bs := active.batches;
    assert AllDecode(bs) by { RoomDecodes(w.added, bs); }
    assert forall x :: x in Indexes(w.out.Segs()) ==> allocated(x);
    var recs;
    recs, late := ForEachBatchRange(active, snapshotEnd, active.nextOffset);
    TailFits(w.added, bs, late, snapshotEnd);
    w.AddAll(recs, now);
  }

  lemma RoomDecodes(rs: seq<Record>, bs: seq<batch>)
    requires RoomFor(rs, bs)
    ensures AllDecode(bs)
  {
  }

  // A crash before the manifest is complete: each segment is two files, each staged by a rename.
  predicate BeforeManifest(crash: nat, s: Stored) { crash <= 2 * |s.files| + 1 }

  // What compaction does under the write lock. A crash on the way leaves a directory that recovers;
  // without one the partition holds what the writer held and the tail, from offset 0 on.
  method InstallCompaction(p: Partition, w: CompactWriter, d: Disk, snapshotEnd: int, listing: seq<FileName>,
                           crash: nat, now: int64)
    returns (crashed: bool, ghost late: nat, ghost rs: seq<Record>, ghost after: Files, ghost compacted: Stored)
    requires p.Valid() && w.Valid() && p.maxSegmentBytes == w.out.maxSegmentBytes
      && RoomFor(w.added, p.activeSegment.batches)
    requires d.manifest == Absent && forall n :: n in listing <==> n in d.dir
    modifies p, w, w.out, w.out.activeSegment, w.out.activeSegment.index, d
    ensures late <= |old(p.activeSegment.batches)| && (old(p.activeSegment).baseOffset <= snapshotEnd ==> late == 0)
    ensures var bs := old(p.activeSegment.batches);
      && AllDecode(bs[late..]) && AllDecode(From(bs[late..], snapshotEnd))
      && rs == old(w.added) + RecordsOf(From(bs[late..], snapshotEnd))
    ensures Stores(after, compacted) && compacted.tail == [] && Written(compacted.pieces, rs)
    ensures Recoverable(d.dir, d.tmp, d.manifest, old(d.dir), after)
    ensures if BeforeManifest(crash, compacted) then !d.manifest.Whole? && d.dir == old(d.dir)
            else d.manifest.Whole? || d.dir == after
    ensures !crashed ==>
      && d.dir == after && d.manifest == Absent
      && p.Valid() && Pieces(p.Segs()) == compacted.pieces && p.nextOffset == |rs| && p.Earliest() == 0
  {
    hide CompactWriter.Valid, Partition.Valid, Writable, RecordsOf, From, AllDecode, Written, Chained, AllHold, Shows,
      RoomFor, Recoverable, Ready, Rising, Pieces;
    ActiveLimit(p);
    ActiveValid(p);
    late := InstallTail(p.activeSegment, w, snapshotEnd, now);
    rs := w.added;
    var files, ps := Finish(w, now);
    after, compacted := DirOf(files), Stored(files, ps, []);
    DirShows(files);
    WrittenSome(ps, rs);
    var names, tmp := LayOut(files);
    d.tmp := tmp;
    var left := d.Install(names, listing, crash, after);
    crashed := left == 0;
    if !crashed {
      var q := OpenDirectory(d.dir, p.maxSegmentBytes, p.indexInterval, compacted);
      TakeOver(p, q.value);
      StartsAtZero(p, rs);
    }
  }

  lemma ActiveValid(p: Partition)
    requires p.Valid()
    ensures p.activeSegment.Valid()
  {
    hide Segment.Valid, Chained, Separate;
    assert p.Segs()[|p.closedSegments|] == p.activeSegment;
  }

  lemma WrittenSome(ps: seq<Piece>, rs: seq<Record>)
    requires Written(ps, rs)
    ensures ps != [] && ps[|ps| - 1].next == |rs|
  {
  }

  lemma StartsAtZero(p: Partition, rs: seq<Record>)
    requires Written(Pieces(p.Segs()), rs)
    ensures p.Earliest() == 0
  {
    hide HoldRecords, Solid;
    assert Pieces(p.Segs())[0] == PieceOf(p.Segs()[0]);
  }

  // ------------------------------------------------------------ the whole of a compaction

  // Survivors of the snapshot, and after them what was installed of the active segment.
  ghost predicate Installs(ps: seq<Piece>, snapshot: seq<batch>, end: int, late: nat, rs: seq<Record>)
    requires ps != [] && late <= |ps[|ps| - 1].batches| && AllDecode(snapshot)
  {
    var bs := ps[|ps| - 1].batches;
    && AllDecode(bs[late..]) && AllDecode(From(bs[late..], end))
    && rs == Kept(RecordsOf(snapshot)) + RecordsOf(From(bs[late..], end))
  }

  // If no roll has come between, the compacted log gives every key the latest value that the log,
  // with everything appended meanwhile, gave it.
  lemma CompactedLog(ps: seq<Piece>, snapshot: seq<batch>, from: int, end: int, compacted: seq<Piece>, rs: seq<Record>,
                     k: bytes)
    requires Chained(ps) && ps != [] && AppendedSince(Joined(ps), ps[|ps| - 1].next, snapshot, end)
    requires InOrder(snapshot, from, end) && AllDecode(Joined(ps)) && AllDecode(snapshot)
    requires ps[|ps| - 1].base <= end && Installs(ps, snapshot, end, 0, rs) && Written(compacted, rs)
    ensures AllDecode(Joined(compacted))
    ensures var was, remains := RecordsOf(Joined(ps)), RecordsOf(Joined(compacted));
      ContentOption(LatestOf(remains, k))
      == ContentOption(if k == [] then RereadOption(LatestOrNull(was)) else LatestOf(was, k))
  {
    hide Chained, Joined, AllDecode, RecordsOf, InOrder, From, Gapless, Kept, LatestOf, LatestOrNull, Contents,
      AllReread, Dense, Span;
    TailIsWhole(ps, snapshot, from, end, 0);
    var more := Joined(ps)[|snapshot|..];
    assert ps[|ps| - 1].batches[0..] == ps[|ps| - 1].batches;
    assert Joined(ps) == snapshot + more;
    RecordsOfConcat(snapshot, more);
    CompactionKeepsMeaning(RecordsOf(snapshot), RecordsOf(more), RecordsOf(Joined(compacted)), k);
  }

  // Batches that decode to small records, as many as offsets can count.
  ghost predicate SmallBatches(bs: seq<batch>)
  {
    AllDecode(bs) && |RecordsOf(bs)| < TWO_62 && forall r :: r in RecordsOf(bs) ==> Small(r)
  }

  const TWO_62 := 0x4000_0000_0000_0000

  lemma SmallSuffix(bs: seq<batch>, i: nat)
    requires SmallBatches(bs) && i <= |bs|
    ensures SmallBatches(bs[i..])
  {
    hide Small, RecordsOf, Decoded, WellFormed;
    DecodeSlice(bs, 0, i);
    DecodeSlice(bs, i, |bs|);
    assert bs[i..|bs|] == bs[i..] && bs[0..i] == bs[..i] && bs[..i] + bs[i..] == bs;
    RecordsOfConcat(bs[..i], bs[i..]);
  }

  // Small records can be written after small records.
  lemma SmallRoom(rs: seq<Record>, bs: seq<batch>)
    requires |rs| < TWO_62 && (forall r :: r in rs ==> Small(r)) && SmallBatches(bs)
    ensures RoomFor(rs, bs)
  {
    hide Small, RecordsOf, AllDecode, Writable;
    forall l | 0 <= l <= |bs| ensures AllDecode(bs[l..]) && Writable(rs + RecordsOf(bs[l..])) {
      SmallSuffix(bs, l);
      SmallIsWritable(rs + RecordsOf(bs[l..]));
    }
  }

  lemma {:induction false} SurvivorsAmong(rs: seq<Record>, n: nat)
    requires n <= |rs|
    ensures |Survivors(rs, n)| <= n && forall r :: r in Survivors(rs, n) ==> r in rs
    decreases n
  {
    hide Latest;
    if n > 0 { SurvivorsAmong(rs, n - 1); }
  }

  // The batches of the active segment end the log.
  lemma ActiveEnds(p: Partition)
    ensures |p.activeSegment.batches| <= |p.Log()|
    ensures p.Log()[|p.Log()| - |p.activeSegment.batches|..] == p.activeSegment.batches
  {
    hide Joined;
    var ps := Pieces(p.Segs());
    var n := |ps| - 1;
    assert ps == ps[..n] + [ps[n]] && p.Segs()[n] == p.activeSegment;
    JoinedAppend(ps[..n], ps[n]);
  }

  // A batch whose fields are true, with small records. The produce path checks neither its length
  // field nor its delta.
  ghost predicate Produced(raw: bytes)
  {
    WellFormed(raw) && Decoded(raw).Some? && forall r :: r in Decoded(raw).value ==> Small(r)
  }

  ghost function RecordCount(raws: seq<bytes>): nat
  {
    if raws == [] then 0 else
    var last := Decoded(raws[|raws| - 1]);
    RecordCount(raws[..|raws| - 1]) + if last.Some? then |last.value| else 0
  }

  lemma {:induction false} CountGrows(raws: seq<bytes>, i: nat)
    requires i < |raws|
    ensures RecordCount(raws[..i + 1]) <= RecordCount(raws)
    ensures RecordCount(raws[..i + 1])
         == RecordCount(raws[..i]) + if Decoded(raws[i]).Some? then |Decoded(raws[i]).value| else 0
    decreases |raws|
  {
    hide Decoded;
    var n := |raws| - 1;
    assert raws[..i + 1][..i] == raws[..i];
    if i < n {
      CountGrows(raws[..n], i);
      assert raws[..n][..i + 1] == raws[..i + 1] && raws[..n][..i] == raws[..i];
    } else {
      assert raws[..i + 1] == raws;
    }
  }

  lemma SmallAppend(bs: seq<batch>, raw: bytes, at: int64)
    requires SmallBatches(bs) && Produced(raw) && |RecordsOf(bs)| + |Decoded(raw).value| < TWO_62
    ensures SmallBatches(bs + [Assigned(raw, at)])
    ensures RecordsOf(bs + [Assigned(raw, at)]) == RecordsOf(bs) + Decoded(raw).value
  {
    hide Small, RecordsOf, Decoded, Base, Delta, LengthField, Assigned, AllDecode;
    AssignedFields(raw, at);
    AssignedRecords(raw, at);
    OneBatchRecords(bs, Assigned(raw, at), Decoded(raw).value);
  }

  // A batch that arrives while a compaction is under way.
  method AppendProduced(p: Partition, raw: bytes, ghost snapshot: seq<batch>, ghost end: int)
    requires p.Valid() && SmallBatches(p.Log()) && Produced(raw) && AppendedSince(p.Log(), p.nextOffset, snapshot, end)
    requires |RecordsOf(p.Log())| + |Decoded(raw).value| < TWO_62 && 0 <= p.nextOffset < TWO_63
    modifies p, p.activeSegment, p.activeSegment.index
    ensures p.Valid() && SmallBatches(p.Log()) && AppendedSince(p.Log(), p.nextOffset, snapshot, end)
    ensures AllDecode(old(p.Log())) && |RecordsOf(p.Log())| <= |RecordsOf(old(p.Log()))| + |Decoded(raw).value|
    ensures old(p.nextOffset) <= p.nextOffset <= old(p.nextOffset) + TWO_31
    ensures p.activeSegment == old(p.activeSegment) || (fresh(p.activeSegment) && fresh(p.activeSegment.index))
  {
    hide Partition.Valid, Partition.Log, SmallBatches, RecordsOf, Produced, AppendedSince, Delta, Assigned, AllDecode,
      Continuous, AllIndexed, Decoded, LengthField;
    ghost var before, next := p.Log(), p.nextOffset;
    SmallCount(before);
    ProducedFacts(raw);
    SmallAppend(before, raw, next);
    AppendedOne(before, next, snapshot, end, raw);
    ValidFormed(p);
    var r := p.Append(raw);
    SmallCount(p.Log());
  }

  method AppendArriving(p: Partition, raws: seq<bytes>)
    requires p.Valid() && SmallBatches(p.Log()) && (forall raw :: raw in raws ==> Produced(raw))
    requires |RecordsOf(p.Log())| + RecordCount(raws) < TWO_62 && p.nextOffset + |raws| * TWO_31 < TWO_63
    modifies p, p.activeSegment, p.activeSegment.index
    ensures p.Valid() && SmallBatches(p.Log()) && AppendedSince(p.Log(), p.nextOffset, old(p.Log()), old(p.nextOffset))
    ensures p.activeSegment == old(p.activeSegment) || (fresh(p.activeSegment) && fresh(p.activeSegment.index))
  {
    hide Partition.Valid, Partition.Log, SmallBatches, RecordCount, RecordsOf, Produced, AppendedSince, AllDecode,
      Decoded;
    SmallCount(p.Log());
    ghost var log, count := p.Log(), |RecordsOf(p.Log())|;
    NothingSince(log, p.nextOffset);
    CountNone(raws);
    ActiveLimit(p);
    for i := 0 to |raws|
      invariant p.Valid() && SmallBatches(p.Log()) && AllDecode(p.Log())
      invariant AppendedSince(p.Log(), p.nextOffset, log, old(p.nextOffset))
      invariant |RecordsOf(p.Log())| <= count + RecordCount(raws[..i])
        && 0 <= p.nextOffset <= old(p.nextOffset) + i * TWO_31
      invariant p.activeSegment == old(p.activeSegment) || (fresh(p.activeSegment) && fresh(p.activeSegment.index))
    {
      CountGrows(raws, i);
      ProducedFacts(raws[i]);
      AppendProduced(p, raws[i], log, old(p.nextOffset));
      SmallCount(p.Log());
    }
  }

  lemma SmallCount(bs: seq<batch>)
    requires SmallBatches(bs)
    ensures AllDecode(bs) && |RecordsOf(bs)| < TWO_62
  {
    hide RecordsOf, Small, AllDecode;
  }

  lemma CountNone(raws: seq<bytes>)
    ensures RecordCount(raws[..0]) == 0
  {
  }

  lemma ProducedFacts(raw: bytes)
    requires Produced(raw)
    ensures WellFormed(raw) && Decoded(raw).Some? && 0 <= Delta(raw) < TWO_31
  {
    hide Decoded, Small;
  }

  lemma {:induction false} PiecesDecode(ps: seq<Piece>, i: nat)
    requires AllDecode(Joined(ps)) && i < |ps|
    ensures AllDecode(ps[i].batches)
    decreases |ps|
  {
    hide Decoded, WellFormed;
    var n := |ps| - 1;
    var front, last := Joined(ps[..n]), ps[n].batches;
    assert Joined(ps) == front + last;
    DecodeSlice(Joined(ps), 0, |front|);
    DecodeSlice(Joined(ps), |front|, |front| + |last|);
    assert Joined(ps)[0..|front|] == front && Joined(ps)[|front|..|front| + |last|] == last;
    if i < n { PiecesDecode(ps[..n], i); }
  }

  lemma ReadyToPlan(p: Partition)
    requires p.Valid() && SmallBatches(p.Log())
    ensures AllDecode(p.Log()) && Source(p.Segs(), p.nextOffset, p.Log()) && Writable(Kept(RecordsOf(p.Log())))
    ensures |Kept(RecordsOf(p.Log()))| < TWO_62 && forall r :: r in Kept(RecordsOf(p.Log())) ==> Small(r)
  {
    hide Partition.Valid, Source, AllDecode, RecordsOf, Small, Survivors, Writable, Joined;
    var ps, recs := Pieces(p.Segs()), RecordsOf(p.Log());
    forall i | 0 <= i < |p.Segs()| ensures AllDecode(p.Segs()[i].batches) { PiecesDecode(ps, i); }
    SourceReady(p);
    SurvivorsAmong(recs, |recs|);
    SmallIsWritable(Kept(recs));
  }

  // The part of a compaction before the install, and the appends that come in meanwhile.
  method StageThenAppend(p: Partition, crc: Checksum, now: int64, arriving: seq<bytes>) returns (r: Outcome)
    requires p.Valid() && SmallBatches(p.Log()) && (forall raw :: raw in arriving ==> Produced(raw))
    requires |RecordsOf(p.Log())| + RecordCount(arriving) < TWO_62 && p.nextOffset + |arriving| * TWO_31 < TWO_63
    modifies p, p.activeSegment, p.activeSegment.index
    ensures p.Valid() && SmallBatches(p.Log()) && AppendedSince(p.Log(), p.nextOffset, old(p.Log()), old(p.nextOffset))
    ensures p.activeSegment == old(p.activeSegment) || (fresh(p.activeSegment) && fresh(p.activeSegment.index))
    ensures AllDecode(old(p.Log()))
    ensures r.Staged? ==> r.writer.Valid() && r.writer.added == Kept(RecordsOf(old(p.Log())))
    ensures r.Staged? ==>
      && fresh(r.writer) && fresh(r.writer.out) && r.writer.out.maxSegmentBytes == p.maxSegmentBytes
      && fresh(r.writer.out.activeSegment) && fresh(r.writer.out.activeSegment.index)
  {
    hide Partition.Valid, Partition.Log, SmallBatches, RecordCount, RecordsOf, Produced, AppendedSince, AllDecode,
      Source, Writable, Kept, CompactWriter.Valid, KeyBytesOf;
    ReadyToPlan(p);
    assert forall x :: x in Indexes(p.Segs()) ==> allocated(x);
    r := PlanAndStage(p, crc, now, p.Log());
    if r.Staged? {
      ghost var out := r.writer.out;
      assert out.Segs()[|out.closedSegments|] == out.activeSegment && out.activeSegment in out.Segs();
      assert fresh(out.activeSegment) && fresh(out.activeSegment.index);
      assert forall x :: x in Indexes(out.Segs()) ==> fresh(x);
    }
    AppendArriving(p, arriving);
  }

  // Every key has the latest content it had, except that the empty key inherits the records without one.
  ghost predicate KeepsLatest(was: seq<Record>, compacted: seq<Record>) { forall k :: KeepsKey(was, compacted, k) }

  ghost predicate KeepsKey(was: seq<Record>, compacted: seq<Record>, k: bytes)
  {
    ContentOption(LatestOf(compacted, k))
    == ContentOption(if k == [] then RereadOption(LatestOrNull(was)) else LatestOf(was, k))
  }

  lemma SnapshotInOrder(p: Partition)
    requires p.Valid()
    ensures InOrder(p.Log(), p.Earliest(), p.nextOffset)
  {
    hide InOrder, Joined, Segment.Valid, Chained, Separate;
    var ps := Pieces(p.Segs());
    assert ps[0] == PieceOf(p.Segs()[0]) && ps[|ps| - 1] == PieceOf(p.activeSegment);
    LogInOrder(ps);
  }

  lemma WholeLog(whole: seq<batch>, next: int, snapshot: seq<batch>, end: int)
    requires AppendedSince(whole, next, snapshot, end)
    ensures snapshot <= whole
  {
    hide Dense, Span, AllWellFormed;
  }

  lemma BeforeInstall(p: Partition)
    requires p.Valid()
    ensures var ps := Pieces(p.Segs());
      && ps != [] && Chained(ps) && ps[|ps| - 1] == PieceOf(p.activeSegment) && ps[|ps| - 1].next == p.nextOffset
  {
    hide InOrder, Segment.Valid, Chained, Separate;
  }

  lemma WrittenCount(ps: seq<Piece>, rs: seq<Record>)
    requires Written(ps, rs)
    ensures AllDecode(Joined(ps)) && |RecordsOf(Joined(ps))| == |rs|
  {
    hide Gapless, AllDecode, RecordsOf, Joined;
    assert |Contents(RecordsOf(Joined(ps)))| == |Contents(AllReread(rs))|;
  }

  // What was installed keeps every key's latest content.
  lemma InstalledKeeps(ps: seq<Piece>, snapshot: seq<batch>, from: int, end: int, compacted: seq<Piece>,
                       rs: seq<Record>)
    requires Chained(ps) && ps != [] && AppendedSince(Joined(ps), ps[|ps| - 1].next, snapshot, end)
    requires InOrder(snapshot, from, end) && AllDecode(Joined(ps)) && AllDecode(snapshot)
    requires ps[|ps| - 1].base <= end && Installs(ps, snapshot, end, 0, rs) && Written(compacted, rs)
    ensures AllDecode(Joined(compacted)) && KeepsLatest(RecordsOf(Joined(ps)), RecordsOf(Joined(compacted)))
  {
    hide Chained, Joined, AllDecode, RecordsOf, InOrder, AppendedSince, Written, Installs, LatestOf, LatestOrNull;
    assert AllDecode(Joined(compacted)) by { WrittenCount(compacted, rs); }
    forall k ensures KeepsKey(RecordsOf(Joined(ps)), RecordsOf(Joined(compacted)), k) {
      CompactedLog(ps, snapshot, from, end, compacted, rs, k);
    }
  }

  // Without a roll, what was installed are the survivors of the snapshot and after them everything
  // appended since.
  lemma InstalledIs(ps: seq<Piece>, snapshot: seq<batch>, from: int, end: int, rs: seq<Record>)
    requires Chained(ps) && ps != [] && AppendedSince(Joined(ps), ps[|ps| - 1].next, snapshot, end)
    requires InOrder(snapshot, from, end) && AllDecode(snapshot)
    requires ps[|ps| - 1].base <= end && Installs(ps, snapshot, end, 0, rs)
    ensures |snapshot| <= |Joined(ps)| && AllDecode(Joined(ps)[|snapshot|..])
    ensures rs == Kept(RecordsOf(snapshot)) + RecordsOf(Joined(ps)[|snapshot|..])
  {
    hide Chained, Joined, RecordsOf, InOrder, From, Kept, Dense, Span, Decoded;
    TailIsWhole(ps, snapshot, from, end, 0);
    assert ps[|ps| - 1].batches[0..] == ps[|ps| - 1].batches;
  }

  // A whole compaction with batches arriving between its two critical sections, and a crash anywhere
  // in the second. `whole` is the log the install finds, `rolled` whether a new segment has begun,
  // `rs` what the writer is given to store in the directory `after`.
  method Compact(p: Partition, d: Disk, crc: Checksum, now: int64, arriving: seq<bytes>, listing: seq<FileName>,
                 crash: nat)
    returns (r: Outcome, crashed: bool, ghost whole: seq<batch>, ghost rolled: bool, ghost rs: seq<Record>,
             ghost after: Files, ghost compacted: Stored)
    requires p.Valid() && SmallBatches(p.Log()) && (forall raw :: raw in arriving ==> Produced(raw))
    requires |RecordsOf(p.Log())| + RecordCount(arriving) < TWO_62 && p.nextOffset + |arriving| * TWO_31 < TWO_63
    requires d.manifest == Absent && forall n :: n in listing <==> n in d.dir
    modifies p, p.activeSegment, p.activeSegment.index, d
    ensures AllDecode(whole) && old(p.Log()) <= whole
    ensures !r.Staged? ==> !crashed && p.Valid() && p.Log() == whole
    ensures r.Staged? ==>
      && Stores(after, compacted) && HoldRecords(Joined(compacted.pieces), rs)
      && Recoverable(d.dir, d.tmp, d.manifest, old(d.dir), after)
      && (crashed && BeforeManifest(crash, compacted) ==> d.dir == old(d.dir))
      && (!BeforeManifest(crash, compacted) ==> d.manifest.Whole? || d.dir == after)
    ensures r.Staged? && !rolled ==>
      && AllDecode(old(p.Log())) && AllDecode(whole[|old(p.Log())|..])
      && rs == Kept(RecordsOf(old(p.Log()))) + RecordsOf(whole[|old(p.Log())|..])
    ensures r.Staged? && !crashed ==>
      && p.Valid() && HoldRecords(p.Log(), rs) && p.Earliest() == 0 && p.nextOffset == |rs|
      && AllDecode(p.Log()) && p.nextOffset == |RecordsOf(p.Log())|
      && (!rolled ==> KeepsLatest(RecordsOf(whole), RecordsOf(p.Log())))
  {
    hide Partition.Valid, SmallBatches, RecordCount, RecordsOf, Produced, AppendedSince, AllDecode, Kept,
      CompactWriter.Valid, KeepsLatest, RoomFor, Stores, Recoverable, Written, From, Joined, Pieces, Small, Chained,
      InOrder, HoldRecords;
    ghost var snapshot, first := p.Log(), p.Earliest();
    var end := p.nextOffset;
    ReadyToPlan(p);
    SnapshotInOrder(p);
    r := StageThenAppend(p, crc, now, arriving);
    whole, rolled, crashed := p.Log(), p.activeSegment.baseOffset > end, false;
    rs, after, compacted := [], map[], Stored([], [], []);
    WholeLog(whole, p.nextOffset, snapshot, end);
    SmallCount(whole);
    if r.Staged? {
      var w := r.writer;
      ActiveEnds(p);
      SmallSuffix(whole, |whole| - |p.activeSegment.batches|);
      SmallRoom(w.added, p.activeSegment.batches);
      ghost var ps := Pieces(p.Segs());
      BeforeInstall(p);
      ghost var late;
      crashed, late, rs, after, compacted := InstallCompaction(p, w, d, end, listing, crash, now);
      WrittenHeld(compacted.pieces, rs);
      WrittenCount(compacted.pieces, rs);
      if !rolled {
        assert Installs(ps, snapshot, end, 0, rs);
        InstalledIs(ps, snapshot, first, end, rs);
        InstalledKeeps(ps, snapshot, first, end, compacted.pieces, rs);
      }
    }
  }

  // The directory of a live partition.
  method LiveDirectory(p: Partition) returns (d: Disk, listing: seq<FileName>, ghost stored: Stored)
    requires p.Valid() && Continuous(Pieces(p.Segs()))
    ensures fresh(d) && d.manifest == Absent && (forall n :: n in listing <==> n in d.dir)
    ensures Stores(d.dir, stored) && stored.pieces == Pieces(p.Segs()) && stored.tail == []
  {
    hide Partition.Valid, Continuous, Stores, Ready, Pieces, Segments.Torn;
    NothingTorn();
    ghost var ps := Pieces(p.Segs());
    var files := Checkpoint(p, []);
    stored := Stored(files, ps, []);
    assert Rising(Bases(files)) by { StoredRise(DirOf(files), stored); }
    var built;
    listing, built := LayOut(files);
    NamesAre(listing, built, DirOf(files));
    d := new Disk(DirOf(files));
  }

  // A live partition, its own directory, an install cut by a crash, and restarts until one gets
  // through: the log is the one it had, or the compacted one.
  method InstallCrashRestart(p: Partition, w: CompactWriter, snapshotEnd: int, crash: nat, crashes: seq<nat>,
                             now: int64)
    returns (crashed: bool, finished: bool, r: Option<Partition>, ghost rs: seq<Record>, ghost compacted: Stored)
    requires p.Valid() && Continuous(Pieces(p.Segs())) && w.Valid() && p.maxSegmentBytes == w.out.maxSegmentBytes
    requires RoomFor(w.added, p.activeSegment.batches)
    modifies p, w, w.out, w.out.activeSegment, w.out.activeSegment.index
    ensures HoldRecords(Joined(compacted.pieces), rs)
    ensures crashed && finished ==>
      && r.Some? && r.value.Valid()
      && (if BeforeManifest(crash, compacted)
          then r.value.Log() == old(p.Log()) && r.value.nextOffset == old(p.nextOffset)
          else r.value.Log() == Joined(compacted.pieces) && r.value.nextOffset == |rs|)
  {
    hide Partition.Valid, CompactWriter.Valid, Continuous, RoomFor, Stores, Recoverable, Ready, Written, HoldRecords,
      AllDecode, RecordsOf, From, Pieces, Joined, Segments.Torn;
    BeforeInstall(p);
    ActiveLimit(p);
    assert forall x :: x in Indexes(p.Segs()) ==> allocated(x);
    assert forall x :: x in Indexes(w.out.Segs()) ==> allocated(x);
    var d, listing, was := LiveDirectory(p);
    ghost var before := d.dir;
    ghost var late, after;
    crashed, late, rs, after, compacted := InstallCompaction(p, w, d, snapshotEnd, listing, crash, now);
    finished, r := false, None;
    WrittenSome(compacted.pieces, rs);
    WrittenHeld(compacted.pieces, rs);
    if crashed {
      ghost var s := if BeforeManifest(crash, compacted) then was else compacted;
      finished, r := Restart(d, crashes, p.maxSegmentBytes, p.indexInterval, before, after, s);
    }
  }

  lemma StoredRise(dir: Files, s: Stored)
    requires Stores(dir, s)
    ensures Rising(Bases(s.files))
  {
    hide AllHold, Chained;
  }

  lemma WrittenHeld(ps: seq<Piece>, rs: seq<Record>)
    requires Written(ps, rs)
    ensures HoldRecords(Joined(ps), rs)
  {
  }
}
