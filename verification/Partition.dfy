/**
 A partition: closed segments and an active one, read, appended to, cut and trimmed as one log.
 */
module Partitions {
  import opened Bytes
  import opened BatchLog
  import opened OffsetIndex
  import opened Segments

  // ------------------------------------------------------------ one log over several segments

  // What a segment contributes to the partition's log.
  datatype Piece = Piece(base: int, next: int, batches: seq<batch>)

  // The pieces follow one another without a gap between segments.
  ghost predicate Chained(ps: seq<Piece>)
  {
    && (forall i :: 0 <= i < |ps| ==> InOrder(ps[i].batches, ps[i].base, ps[i].next))
    && (forall i :: 0 <= i < |ps| - 1 ==> ps[i].next == ps[i + 1].base)
  }

  ghost function Joined(ps: seq<Piece>): (bs: seq<batch>)
  {
    if ps == [] then [] else Joined(ps[..|ps| - 1]) + ps[|ps| - 1].batches
  }

  lemma {:induction false} JoinedInOrder(ps: seq<Piece>)
    requires Chained(ps) && ps != []
    ensures InOrder(Joined(ps), ps[0].base, ps[|ps| - 1].next)
    decreases |ps|
  {
    hide InOrder;
    var n := |ps| - 1;
    if n == 0 {
      assert Joined(ps[..0]) == [];
      assert [] + ps[0].batches == ps[0].batches;
    } else {
      JoinedInOrder(ps[..n]);
      assert ps[n - 1].next == ps[n - 1 + 1].base;
      InOrderJoin(Joined(ps[..n]), ps[n].batches, ps[0].base, ps[n].base, ps[n].next);
    }
  }

  lemma JoinedAppend(ps: seq<Piece>, p: Piece)
    ensures Joined(ps + [p]) == Joined(ps) + p.batches
  {
    assert (ps + [p])[..|ps|] == ps;
  }

  lemma {:induction false} JoinedSplit(ps: seq<Piece>, qs: seq<Piece>)
    ensures Joined(ps + qs) == Joined(ps) + Joined(qs)
    decreases |qs|
  {
    if qs == [] {
      assert ps + qs == ps;
    } else {
      var n := |qs| - 1;
      assert (ps + qs)[..|ps + qs| - 1] == ps + qs[..n];
      JoinedSplit(ps, qs[..n]);
    }
  }

  lemma ChainedSlice(ps: seq<Piece>, i: nat, j: nat)
    requires Chained(ps) && i <= j <= |ps|
    ensures Chained(ps[i..j])
  {
    hide InOrder;
    forall k | 0 <= k < j - i - 1 ensures ps[i..j][k].next == ps[i..j][k + 1].base {
      assert ps[i + k].next == ps[i + k + 1].base;
    }
  }

  // ------------------------------------------------------------ what the flat reading gives

  // It is a prefix of the batches from the offset on: all of them, or the shortest whose size
  // reaches the limit.
  lemma {:induction false} FillingIsShortest(bs: seq<batch>, limit: int)
    ensures var f := Filling(bs, limit);
      && f <= bs && (f == bs || |Flatten(f)| >= limit)
      && (f != [] ==> |Flatten(f[..|f| - 1])| < limit)
    decreases |bs|
  {
    hide Flatten;
    FlattenNone();
    if bs != [] && limit > 0 {
      var b, rest := bs[0], Filling(bs[1..], limit - |bs[0]|);
      FillingIsShortest(bs[1..], limit - |b|);
      FlattenAppend([b], rest);
      FlattenOne(b);
      var f := [b] + rest;
      if rest == [] {
        assert f[..|f| - 1] == [];
      } else {
        assert f[..|f| - 1] == [b] + rest[..|rest| - 1];
        FlattenAppend([b], rest[..|rest| - 1]);
      }
    }
  }

  // If no offset has been skipped, it is not empty and begins with the batch that holds the offset.
  lemma ScanHoldsOffset(bs: seq<batch>, from: int, offset: int, limit: int)
    requires AllWellFormed(bs) && Dense(bs, from) && from <= offset < from + Span(bs) && limit > 0
    ensures var r := Scan(bs, offset, limit);
      r != [] && r[0] in bs && Base(r[0]) <= offset <= LastOffset(r[0])
  {
    hide Base, Delta, Dense;
    var k := HolderOf(bs, from, offset);
    BelowIsPrefix(bs, offset, k);
  }

  // ------------------------------------------------------------ scanning across a boundary

  lemma {:induction false} FillingConcat(xs: seq<batch>, ys: seq<batch>, limit: int)
    ensures Filling(xs + ys, limit) == Filling(xs, limit) + Filling(ys, limit - |Flatten(Filling(xs, limit))|)
    decreases |xs|
  {
    hide Flatten;
    FlattenNone();
    if xs == [] {
      assert xs + ys == ys;
    } else if limit > 0 {
      assert (xs + ys)[1..] == xs[1..] + ys;
      FillingConcat(xs[1..], ys, limit - |xs[0]|);
      FlattenAppend([xs[0]], Filling(xs[1..], limit - |xs[0]|));
      FlattenOne(xs[0]);
    }
  }

  lemma {:induction false} FromConcat(xs: seq<batch>, ys: seq<batch>, from: int, mid: int, to: int, offset: int)
    requires InOrder(xs, from, mid) && InOrder(ys, mid, to) && offset <= mid
    ensures AllWellFormed(xs + ys) && From(xs + ys, offset) == From(xs, offset) + ys
    decreases |xs|
  {
    hide Base, Delta;
    if xs == [] {
      assert xs + ys == ys;
    } else if LastOffset(xs[0]) < offset {
      assert (xs + ys)[1..] == xs[1..] + ys;
      FromConcat(xs[1..], ys, from, mid, to, offset);
    }
  }

  // Reading one segment and then going on at its end is reading across the boundary.
  lemma ScanConcat(xs: seq<batch>, ys: seq<batch>, from: int, mid: int, to: int, offset: int, limit: int)
    requires InOrder(xs, from, mid) && InOrder(ys, mid, to) && offset <= mid
    ensures AllWellFormed(xs + ys)
    ensures Scan(xs + ys, offset, limit)
         == Scan(xs, offset, limit) + Scan(ys, mid, limit - |Flatten(Scan(xs, offset, limit))|)
  {
    hide Base, Delta, Flatten, Filling, From;
    FromConcat(xs, ys, from, mid, to, offset);
    FromConcat([], ys, mid, mid, to, mid);
    FromNothing(mid);
    assert [] + ys == ys;
    FillingConcat(From(xs, offset), ys, limit);
  }

  lemma FromNothing(offset: int)
    ensures From([], offset) == []
  {
  }

  lemma {:induction false} FromPast(xs: seq<batch>, from: int, to: int, offset: int)
    requires InOrder(xs, from, to) && to <= offset
    ensures From(xs, offset) == []
    decreases |xs|
  {
    hide Base, Delta;
    if xs != [] { FromPast(xs[1..], from, to, offset); }
  }

  lemma {:induction false} TailInOrder(ps: seq<Piece>, i: nat)
    requires Chained(ps) && i <= |ps| && ps != []
    ensures InOrder(Joined(ps[i..]), if i < |ps| then ps[i].base else ps[|ps| - 1].next, ps[|ps| - 1].next)
  {
    hide InOrder, Chained;
    if i == |ps| {
      NothingKept(ps[|ps| - 1].next, 0);
    } else {
      ChainedSlice(ps, i, |ps|);
      assert ps[i..] == ps[i..|ps|];
      JoinedInOrder(ps[i..]);
    }
  }

  lemma JoinedHead(ps: seq<Piece>, i: nat)
    requires i < |ps|
    ensures Joined(ps[i..]) == ps[i].batches + Joined(ps[i + 1..])
  {
    hide Joined;
    assert ps[i..] == [ps[i]] + ps[i + 1..];
    JoinedSplit([ps[i]], ps[i + 1..]);
    JoinedAppend([], ps[i]);
    JoinedNone();
    assert [] + [ps[i]] == [ps[i]] && [] + ps[i].batches == ps[i].batches;
  }

  lemma JoinedNone()
    ensures Joined([]) == []
  {
  }

  // Segment after segment: the rest of the reading starts at the end of this one. The first k
  // batches of this one may have been passed over.
  lemma ReadOn(ps: seq<Piece>, i: nat, k: nat, offset: int, limit: int)
    requires Chained(ps) && i < |ps| && offset <= ps[i].next && k <= |ps[i].batches|
    ensures Joined(ps[i..]) == ps[i].batches + Joined(ps[i + 1..])
    ensures AllWellFormed(Joined(ps[i..])) && AllWellFormed(Joined(ps[i + 1..])) && AllWellFormed(ps[i].batches)
    ensures Scan(Joined(ps[i..])[k..], offset, limit)
         == Scan(ps[i].batches[k..], offset, limit)
            + Scan(Joined(ps[i + 1..]), ps[i].next, limit - |Flatten(Scan(ps[i].batches[k..], offset, limit))|)
  {
    hide Scan, Flatten, Joined, Base, Delta;
    TailInOrder(ps, i + 1);
    JoinedHead(ps, i);
    assert i + 1 < |ps| ==> ps[i].next == ps[i + 1].base;
    var here, rest := ps[i].batches, Joined(ps[i + 1..]);
    InOrderJoin(here, rest, ps[i].base, ps[i].next, ps[|ps| - 1].next);
    InOrderSlice(here, k, |here|, ps[i].base, ps[i].next);
    assert here[k..] == here[k..|here|];
    ScanConcat(here[k..], rest, ps[i].base, ps[i].next, ps[|ps| - 1].next, offset, limit);
    assert (here + rest)[k..] == here[k..] + rest;
  }

  // Segments that end at or before the offset have nothing to give.
  lemma {:induction false} SkipPieces(ps: seq<Piece>, i: nat, offset: int, limit: int)
    requires Chained(ps) && i <= |ps| && ps != [] && forall j :: 0 <= j < i ==> ps[j].next <= offset
    ensures AllWellFormed(Joined(ps)) && AllWellFormed(Joined(ps[i..]))
    ensures Scan(Joined(ps), offset, limit) == Scan(Joined(ps[i..]), offset, limit)
    decreases i
  {
    hide Joined, Base, Delta, Flatten, Filling, From;
    TailInOrder(ps, 0);
    TailInOrder(ps, i);
    assert ps[0..] == ps;
    if i > 0 {
      SkipPieces(ps, i - 1, offset, limit);
      JoinedHead(ps, i - 1);
      var xs, ys := ps[i - 1].batches, Joined(ps[i..]);
      forall j | 0 <= j < |xs| ensures LastOffset((xs + ys)[j]) < offset { assert (xs + ys)[j] == xs[j]; }
      FromSkips(xs + ys, offset, |xs|);
      assert (xs + ys)[|xs|..] == ys;
    }
  }

  // Reading that starts k batches late is the flat reading only if k is 0.
  lemma LateStart(bs: seq<batch>, from: int, to: int, offset: int, limit: int, k: nat)
    requires InOrder(bs, from, to) && offset <= from && 0 < k <= |bs| && limit > 0
    ensures Flatten(Scan(bs[k..], offset, limit)) != Flatten(Scan(bs, offset, limit))
  {
    hide Base, Delta, Flatten;
    InOrderSlice(bs, k, |bs|, from, to);
    assert bs[k..] == bs[k..|bs|];
    assert From(bs, offset) == bs && From(bs[k..], offset) == bs[k..];
    StartsWith(bs, limit);
    if k == |bs| {
      FlattenNone();
    } else {
      StartsWith(bs[k..], limit);
      assert End(bs[0]) <= Base(bs[k]);
      if Flatten(Scan(bs[k..], offset, limit)) == Flatten(Scan(bs, offset, limit)) { BaseOfPrefix(bs[0], bs[k]); }
    }
  }

  // Two batches from offset 1 on, the second of them indexed: a read at offset 0 wraps round to that
  // entry and misses the first.
  lemma ReadBelowSkips(limit: int)
    requires limit > 0
    ensures var bs := [Plain(1, 0), Plain(2, 0)];
      && InOrder(bs, 1, 3) && SparseIndex(bs, 1, HEADER_SIZE) == [Entry(1, HEADER_SIZE)]
      && PositionFor([Entry(1, HEADER_SIZE)], (0 - 1) % TWO_32) == Pos(bs, 1)
      && Flatten(Scan(bs[1..], 0, limit)) != Flatten(Scan(bs, 0, limit))
  {
    hide Plain, Base, Delta, LengthField, Scan;
    PlainFields(1, 0);
    PlainFields(2, 0);
    var bs: seq<batch> := [Plain(1, 0), Plain(2, 0)];
    assert bs[..1] == [Plain(1, 0)] && bs[..1][..0] == [] && bs[..0] == [];
    assert SparseIndex([], 1, HEADER_SIZE) == [];
    assert SparseIndex(bs[..1], 1, HEADER_SIZE) == [];
    LateStart(bs, 1, 3, 0, limit, 1);
  }

  lemma StartsWith(bs: seq<batch>, limit: int)
    requires bs != [] && AllWellFormed(bs) && limit > 0
    ensures |Flatten(Filling(bs, limit))| >= HEADER_SIZE && |bs[0]| >= HEADER_SIZE
    ensures Flatten(Filling(bs, limit))[..HEADER_SIZE] == bs[0][..HEADER_SIZE]
  {
    hide Flatten, Base, Delta, LengthField;
    FlattenAppend([bs[0]], Filling(bs[1..], limit - |bs[0]|));
    FlattenOne(bs[0]);
  }

  lemma BaseOfPrefix(a: batch, b: batch)
    requires |a| >= HEADER_SIZE && |b| >= HEADER_SIZE && a[..HEADER_SIZE] == b[..HEADER_SIZE]
    ensures Base(a) == Base(b)
  {
    hide FromBigEndian, Int64;
    SliceSlice(a, 0, HEADER_SIZE, 0, 8);
    SliceSlice(b, 0, HEADER_SIZE, 0, 8);
    assert a[0..HEADER_SIZE] == a[..HEADER_SIZE] && b[0..HEADER_SIZE] == b[..HEADER_SIZE];
  }

  // Dropping whole segments from the front leaves every read above them as it was.
  lemma RetentionKeepsReads(ps: seq<Piece>, n: nat, offset: int, limit: int)
    requires Chained(ps) && n < |ps| && ps[n].base <= offset
    ensures AllWellFormed(Joined(ps)) && AllWellFormed(Joined(ps[n..]))
    ensures Scan(Joined(ps[n..]), offset, limit) == Scan(Joined(ps), offset, limit)
  {
    hide Joined, Scan, InOrder;
    forall j | 0 <= j < n ensures ps[j].next <= offset {
      assert ps[j].next == ps[j + 1].base;
      ChainedSlice(ps, j + 1, |ps|);
      BasesGrow(ps[j + 1..|ps|], n - j - 1);
    }
    SkipPieces(ps, n, offset, limit);
  }

  // ------------------------------------------------------------ logs without gaps

  // No offset is missing anywhere, and no segment but the last is empty.
  ghost predicate Continuous(ps: seq<Piece>)
  {
    && (forall i :: 0 <= i < |ps| ==> Unbroken(ps[i].batches, ps[i].base, ps[i].next))
    && (forall i :: 0 <= i < |ps| - 1 ==> ps[i].base < ps[i].next)
  }

  lemma NothingContinuous(base: int)
    ensures Unbroken([], base, base) && Continuous([Piece(base, base, [])])
  {
  }

  lemma ContinuousRoll(ps: seq<Piece>, next: int)
    requires Continuous(ps) && ps != [] && ps[|ps| - 1].base < ps[|ps| - 1].next
    ensures Continuous(ps + [Piece(next, next, [])])
  {
    hide Unbroken;
    NothingContinuous(next);
  }

  lemma ContinuousReplace(ps: seq<Piece>, q: Piece)
    requires Continuous(ps) && ps != [] && Unbroken(q.batches, q.base, q.next)
    ensures Continuous(ps[|ps| - 1 := q])
  {
    hide Unbroken;
  }

  lemma ContinuousSlice(ps: seq<Piece>, n: nat)
    requires Continuous(ps) && n < |ps|
    ensures Continuous(ps[n..])
  {
    hide Unbroken;
  }

  lemma {:induction false} SpanConcat(a: seq<batch>, b: seq<batch>)
    requires AllWellFormed(a) && AllWellFormed(b)
    ensures AllWellFormed(a + b) && Span(a + b) == Span(a) + Span(b)
    decreases |b|
  {
    hide Delta, LengthField;
    if b == [] {
      assert a + b == a;
    } else {
      var n := |b| - 1;
      assert (a + b)[..|a + b| - 1] == a + b[..n];
      SpanConcat(a, b[..n]);
    }
  }

  // The log as a whole misses no offset either.
  lemma {:induction false} ContinuousLog(ps: seq<Piece>)
    requires Continuous(ps) && Chained(ps) && ps != []
    ensures Unbroken(Joined(ps), ps[0].base, ps[|ps| - 1].next)
    decreases |ps|
  {
    hide InOrder, Span, AllWellFormed;
    var n := |ps| - 1;
    if n == 0 {
      assert ps == [ps[0]];
      LonePiece(ps);
    } else {
      ChainedSlice(ps, 0, n);
      assert ps[0..n] == ps[..n];
      assert ps[n - 1].next == ps[n - 1 + 1].base;
      ContinuousLog(ps[..n]);
      SpanConcat(Joined(ps[..n]), ps[n].batches);
    }
  }

  // So a reading inside it is not empty and begins with the batch that holds the offset.
  lemma ReadHolds(ps: seq<Piece>, offset: int, limit: int)
    requires Continuous(ps) && Chained(ps) && ps != [] && ps[0].base <= offset < ps[|ps| - 1].next && limit > 0
    ensures AllWellFormed(Joined(ps))
    ensures var r := Scan(Joined(ps), offset, limit);
      r != [] && r[0] in Joined(ps) && Base(r[0]) <= offset <= LastOffset(r[0])
  {
    hide Joined, Chained, Base, Delta, Scan, Continuous, Dense, InOrder, Span, AllWellFormed;
    LogInOrder(ps);
    ContinuousLog(ps);
    UnbrokenDense(Joined(ps), ps[0].base, ps[|ps| - 1].next);
    ScanHoldsOffset(Joined(ps), ps[0].base, offset, limit);
  }

  // ------------------------------------------------------------ cutting across a boundary

  lemma {:induction false} BelowConcat(xs: seq<batch>, ys: seq<batch>, target: int)
    requires AllWellFormed(xs) && AllWellFormed(ys) && forall k :: 0 <= k < |xs| ==> LastOffset(xs[k]) < target
    ensures AllWellFormed(xs + ys) && Below(xs + ys, target) == xs + Below(ys, target)
    decreases |xs|
  {
    hide Base, Delta;
    if xs == [] {
      assert xs + ys == ys;
    } else {
      assert (xs + ys)[1..] == xs[1..] + ys;
      BelowConcat(xs[1..], ys, target);
    }
  }

  lemma {:induction false} BelowCut(xs: seq<batch>, ys: seq<batch>, target: int)
    requires AllWellFormed(xs) && AllWellFormed(ys) && (ys != [] ==> LastOffset(ys[0]) >= target)
    ensures AllWellFormed(xs + ys) && Below(xs + ys, target) == Below(xs, target)
    decreases |xs|
  {
    hide Base, Delta;
    if xs == [] {
      assert xs + ys == ys;
    } else if LastOffset(xs[0]) < target {
      assert (xs + ys)[1..] == xs[1..] + ys;
      BelowCut(xs[1..], ys, target);
    }
  }

  lemma BelowAll(bs: seq<batch>, from: int, to: int, target: int)
    requires InOrder(bs, from, to) && to <= target
    ensures Below(bs, target) == bs
  {
    hide Base, Delta;
    assert bs + [] == bs;
    BelowConcat(bs, [], target);
  }

  // The segments that begin below the target, the last of them cut, hold what lies below it.
  lemma CutPieces(ps: seq<Piece>, m: nat, target: int)
    requires Chained(ps) && ps != [] && m <= |ps|
    requires (forall i :: 0 <= i < m ==> ps[i].base < target) && (m < |ps| ==> target <= ps[m].base)
    ensures AllWellFormed(Joined(ps)) && (m > 0 ==> AllWellFormed(ps[m - 1].batches))
    ensures Below(Joined(ps), target) == if m == 0 then [] else Joined(ps[..m - 1]) + Below(ps[m - 1].batches, target)
  {
    hide Joined, Base, Delta, Below;
    TailInOrder(ps, 0);
    TailInOrder(ps, m);
    assert ps[0..] == ps;
    if m == 0 {
      NoneBelow(Joined(ps), target, ps[0].base, ps[|ps| - 1].next);
    } else {
      var front, mid, tail := Joined(ps[..m - 1]), ps[m - 1].batches, Joined(ps[m..]);
      assert ps == ps[..m - 1] + ps[m - 1..];
      JoinedSplit(ps[..m - 1], ps[m - 1..]);
      JoinedHead(ps, m - 1);
      FrontBelow(ps, m - 1);
      BelowConcat(front, mid + tail, target);
      BelowCut(mid, tail, target);
    }
  }

  lemma FrontBelow(ps: seq<Piece>, i: nat)
    requires Chained(ps) && i < |ps|
    ensures AllWellFormed(Joined(ps[..i]))
    ensures forall k :: 0 <= k < |Joined(ps[..i])| ==> LastOffset(Joined(ps[..i])[k]) < ps[i].base
  {
    hide Joined, Base, Delta;
    if i > 0 {
      ChainedSlice(ps, 0, i);
      assert ps[0..i] == ps[..i];
      JoinedInOrder(ps[..i]);
      assert ps[i - 1].next == ps[i - 1 + 1].base;
    } else {
      JoinedNone();
    }
  }

  lemma FirstKept(ps: seq<Piece>, m: nat, target: int)
    requires ps != [] && m <= |ps| && (forall i :: 0 <= i < m ==> ps[i].base < target)
      && (m < |ps| ==> target <= ps[m].base)
    ensures m > 0 <==> ps[0].base < target
  {
  }

  lemma FreshContinuous(target: int)
    ensures Continuous([Piece(0, target, [])]) <==> target == 0
  {
    var p := Piece(0, target, []);
    assert [p][0] == p;
  }

  lemma StraddledConcat(a: seq<batch>, b: seq<batch>, target: int)
    requires AllWellFormed(a) && AllWellFormed(b)
    ensures AllWellFormed(a + b) && (Straddled(a + b, target) <==> Straddled(a, target) || Straddled(b, target))
  {
    hide Base, Delta, LengthField;
    forall k | 0 <= k < |a| ensures (a + b)[k] == a[k] { }
    forall k | 0 <= k < |b| ensures (a + b)[|a| + k] == b[k] { }
  }

  lemma NotStraddled(bs: seq<batch>, from: int, to: int, target: int)
    requires InOrder(bs, from, to) && (target <= from || to <= target)
    ensures !Straddled(bs, target)
  {
    hide Base, Delta;
  }

  // Only the segment that is cut can have the batch that is cut.
  lemma StraddledIn(ps: seq<Piece>, m: nat, target: int)
    requires Chained(ps) && 0 < m <= |ps| && ps[m - 1].base < target <= ps[m - 1].next
    ensures AllWellFormed(Joined(ps)) && AllWellFormed(ps[m - 1].batches)
    ensures Straddled(Joined(ps), target) <==> Straddled(ps[m - 1].batches, target)
  {
    hide Joined, Chained, InOrder, Straddled, AllWellFormed;
    var front, mid, tail := Joined(ps[..m - 1]), ps[m - 1].batches, Joined(ps[m..]);
    PieceInOrder(ps, m - 1);
    assert ps == ps[..m - 1] + ps[m - 1..];
    JoinedSplit(ps[..m - 1], ps[m - 1..]);
    JoinedHead(ps, m - 1);
    FrontInOrder(ps, m - 1);
    TailInOrder(ps, m);
    NextBase(ps, m);
    InOrderWell(front, ps[0].base, ps[m - 1].base);
    InOrderWell(tail, ps[m - 1].next, ps[|ps| - 1].next);
    StraddledConcat(mid, tail, target);
    StraddledConcat(front, mid + tail, target);
    NotStraddled(front, ps[0].base, ps[m - 1].base, target);
    NotStraddled(tail, ps[m - 1].next, ps[|ps| - 1].next, target);
  }

  lemma NextBase(ps: seq<Piece>, m: nat)
    requires Chained(ps) && 0 < m <= |ps|
    ensures m < |ps| ==> ps[m].base == ps[m - 1].next
  {
    hide InOrder;
    if m < |ps| { assert ps[m - 1].next == ps[m - 1 + 1].base; }
  }

  lemma FrontInOrder(ps: seq<Piece>, i: nat)
    requires Chained(ps) && i < |ps|
    ensures InOrder(Joined(ps[..i]), ps[0].base, ps[i].base)
  {
    hide Joined, InOrder;
    if i > 0 {
      ChainedSlice(ps, 0, i);
      assert ps[0..i] == ps[..i];
      JoinedInOrder(ps[..i]);
      NextBase(ps, i);
    } else {
      JoinedNone();
      NothingKept(ps[0].base, 0);
    }
  }

  lemma PieceInOrder(ps: seq<Piece>, i: nat)
    requires Chained(ps) && i < |ps|
    ensures InOrder(ps[i].batches, ps[i].base, ps[i].next) && AllWellFormed(ps[i].batches) && ps[i].base <= ps[i].next
  {
    hide Base, Delta;
  }

  // What is left of a log after a cut misses no offset exactly if the cut was between batches.
  lemma CutContinuous(ps: seq<Piece>, m: nat, target: int)
    requires Chained(ps) && Continuous(ps) && 0 < m <= |ps| && ps[m - 1].base < target <= ps[m - 1].next
    ensures AllWellFormed(Joined(ps)) && AllWellFormed(ps[m - 1].batches)
    ensures Continuous(ps[..m - 1] + [Piece(ps[m - 1].base, target, Below(ps[m - 1].batches, target))]) <==>
            !Straddled(Joined(ps), target)
  {
    hide Joined, Chained, InOrder, Straddled, AllWellFormed, Unbroken, Below;
    PieceInOrder(ps, m - 1);
    var cut, q := ps[m - 1], Piece(ps[m - 1].base, target, Below(ps[m - 1].batches, target));
    StraddledIn(ps, m, target);
    CutUnbroken(cut.batches, cut.base, cut.next, target);
    var qs := ps[..m - 1] + [q];
    assert qs[m - 1] == q;
    forall i | 0 <= i < m - 1 ensures qs[i] == ps[i] { }
  }

  // Cutting the last piece keeps the chain.
  lemma ChainedCut(ps: seq<Piece>, m: nat, q: Piece)
    requires Chained(ps) && 0 < m <= |ps| && q.base == ps[m - 1].base && InOrder(q.batches, q.base, q.next)
    ensures Chained(ps[..m - 1] + [q]) && Joined(ps[..m - 1] + [q]) == Joined(ps[..m - 1]) + q.batches
  {
    hide InOrder, Joined;
    ChainedSlice(ps, 0, m);
    assert ps[0..m] == ps[..m - 1] + [ps[m - 1]];
    ChainedReplace(ps[..m - 1], ps[m - 1], q);
    JoinedAppend(ps[..m - 1], q);
  }

  // ------------------------------------------------------------ the partition

  // Age limit and size limit; a limit that is not positive is off.
  datatype Retention = Retention(time: int, bytes: int)

  predicate Expired(mtime: Option<int>, ret: Retention, now: int)
  {
    mtime.Some? && mtime.value < now - ret.time
  }

  function Sum(sizes: seq<nat>): nat
  {
    if sizes == [] then 0 else Sum(sizes[..|sizes| - 1]) + sizes[|sizes| - 1]
  }

  lemma SumNone()
    ensures Sum([]) == 0
  {
  }

  lemma SumStep(sizes: seq<nat>, i: nat)
    requires i < |sizes|
    ensures Sum(sizes[..i + 1]) == Sum(sizes[..i]) + sizes[i]
  {
    assert sizes[..i + 1][..i] == sizes[..i];
  }

  // The leading segments past the age limit.
  predicate Leading(n: nat, ret: Retention, now: int, mtimes: seq<Option<int>>)
    requires n <= |mtimes|
  {
    if ret.time <= 0 then n == 0
    else (forall i :: 0 <= i < n ==> Expired(mtimes[i], ret, now)) && (n < |mtimes| ==> !Expired(mtimes[n], ret, now))
  }

  predicate UnderLimit(n: nat, ret: Retention, sizes: seq<nat>, active: nat)
    requires n <= |sizes|
  {
    ret.bytes <= 0 || n == |sizes| || Sum(sizes) + active - Sum(sizes[..n]) <= ret.bytes
  }

  // The least number of segments that takes every leading expired one and gets under the limit.
  ghost predicate IsRetentionCount(n: nat, ret: Retention, now: int, mtimes: seq<Option<int>>, sizes: seq<nat>,
                                   active: nat)
    requires |mtimes| == |sizes|
  {
    && n <= |sizes| && UnderLimit(n, ret, sizes, active)
    && exists aged: nat :: aged <= n && Leading(aged, ret, now, mtimes)
         && forall j :: aged <= j < n ==> !UnderLimit(j, ret, sizes, active)
  }

  // No smaller number would do.
  lemma RetentionCountIsLeast(n: nat, aged: nat, m: nat, ret: Retention, now: int, mtimes: seq<Option<int>>,
                              sizes: seq<nat>, active: nat)
    requires |mtimes| == |sizes| && IsRetentionCount(n, ret, now, mtimes, sizes, active)
    requires aged <= m <= |sizes| && Leading(aged, ret, now, mtimes) && UnderLimit(m, ret, sizes, active)
    ensures aged <= n <= m
  {
    hide Sum;
    var a: nat :| a <= n && Leading(a, ret, now, mtimes)
      && forall j :: a <= j < n ==> !UnderLimit(j, ret, sizes, active);
    assert a == aged;
  }

  // What the policy leaves: without limits everything; with a size limit no more than it allows, or
  // the active segment alone; with an age limit alone, everything from the first segment on that is
  // not older than it.
  lemma RetentionMeans(n: nat, ret: Retention, now: int, mtimes: seq<Option<int>>, sizes: seq<nat>, active: nat)
    requires |mtimes| == |sizes| && IsRetentionCount(n, ret, now, mtimes, sizes, active)
    ensures ret.bytes <= 0 && ret.time <= 0 ==> n == 0
    ensures ret.bytes > 0 ==> n == |sizes| || Sum(sizes[n..]) + active <= ret.bytes
    ensures ret.bytes <= 0 && ret.time > 0 ==>
      && (forall i :: 0 <= i < n ==> mtimes[i].Some? && now > mtimes[i].value + ret.time)
      && (n < |mtimes| ==> mtimes[n].None? || now <= mtimes[n].value + ret.time)
  {
    hide Sum;
    DebtIsFreed(sizes, n);
    var a: nat :| a <= n && Leading(a, ret, now, mtimes)
      && forall j :: a <= j < n ==> !UnderLimit(j, ret, sizes, active);
    assert ret.bytes <= 0 ==> UnderLimit(a, ret, sizes, active);
  }

  // The policy picks one number of segments only, so the debt is what enforcing it frees.
  lemma RetentionCountUnique(n: nat, m: nat, ret: Retention, now: int, mtimes: seq<Option<int>>, sizes: seq<nat>,
                             active: nat)
    requires |mtimes| == |sizes| && IsRetentionCount(n, ret, now, mtimes, sizes, active)
    requires IsRetentionCount(m, ret, now, mtimes, sizes, active)
    ensures n == m
  {
    hide Leading, UnderLimit;
    var a: nat :| a <= n && Leading(a, ret, now, mtimes)
      && forall j :: a <= j < n ==> !UnderLimit(j, ret, sizes, active);
    var b: nat :| b <= m && Leading(b, ret, now, mtimes)
      && forall j :: b <= j < m ==> !UnderLimit(j, ret, sizes, active);
    RetentionCountIsLeast(n, b, m, ret, now, mtimes, sizes, active);
    RetentionCountIsLeast(m, a, n, ret, now, mtimes, sizes, active);
  }

  lemma {:induction false} DebtIsFreed(sizes: seq<nat>, n: nat)
    requires n <= |sizes|
    ensures Sum(sizes) == Sum(sizes[..n]) + Sum(sizes[n..])
    decreases |sizes|
  {
    if n == |sizes| {
      assert sizes[..n] == sizes && sizes[n..] == [];
    } else {
      var k := |sizes| - 1;
      DebtIsFreed(sizes[..k], n);
      assert sizes[..k][..n] == sizes[..n] && sizes[..k][n..] == sizes[n..][..k - n];
    }
  }

  ghost function PieceOf(s: Segment): Piece
    reads s
  {
    Piece(s.baseOffset, s.nextOffset, s.batches)
  }

  ghost function Pieces(segs: seq<Segment>): (ps: seq<Piece>)
    reads segs
    ensures |ps| == |segs| && forall i :: 0 <= i < |segs| ==> ps[i] == PieceOf(segs[i])
  {
    if segs == [] then [] else Pieces(segs[..|segs| - 1]) + [PieceOf(segs[|segs| - 1])]
  }

  ghost function Indexes(segs: seq<Segment>): set<IndexFile>
  {
    set i | 0 <= i < |segs| :: segs[i].index
  }

  // No two segments share anything.
  predicate Separate(segs: seq<Segment>)
  {
    forall i, j :: 0 <= i < j < |segs| ==> segs[i] != segs[j] && segs[i].index != segs[j].index
  }

  predicate SameLimit(segs: seq<Segment>, limit: int)
  {
    forall i :: 0 <= i < |segs| ==> segs[i].maxSegmentBytes == limit
  }

  ghost predicate AllValid(segs: seq<Segment>)
    reads segs, Indexes(segs)
  {
    forall i :: 0 <= i < |segs| ==> segs[i].Valid()
  }

  ghost predicate AllFormed(segs: seq<Segment>)
    reads segs, Indexes(segs)
  {
    forall i :: 0 <= i < |segs| ==> segs[i].Formed()
  }

  // Every index is what its segment's batches alone determine.
  ghost predicate AllIndexed(segs: seq<Segment>)
    reads segs, Indexes(segs)
  {
    forall i :: 0 <= i < |segs| ==> segs[i].Valid() && segs[i].Indexed()
  }

  class Partition {
    const maxSegmentBytes: int
    const indexInterval: int
    var activeSegment: Segment
    var closedSegments: seq<Segment>
    var nextOffset: int
    var highWatermark: int

    ghost function Segs(): seq<Segment>
      reads this
    {
      closedSegments + [activeSegment]
    }

    ghost predicate Valid()
      reads this, Segs(), Indexes(Segs())
    {
      && 0 < maxSegmentBytes <= TWO_32 && SameLimit(Segs(), maxSegmentBytes)
      && Separate(Segs()) && AllValid(Segs()) && Chained(Pieces(Segs()))
      && nextOffset == activeSegment.nextOffset && highWatermark == nextOffset
    }

    // What an append needs and always leaves, whatever has been appended before.
    ghost predicate Formed()
      reads this, activeSegment, Segs(), Indexes(Segs())
    {
      Separate(Segs()) && AllFormed(Segs()) && nextOffset == activeSegment.nextOffset == highWatermark
    }

    // The partition's log as one sequence of batches.
    ghost function Log(): seq<batch>
      reads this, Segs()
    {
      Joined(Pieces(Segs()))
    }

    function Earliest(): int
      reads this
    {
      if |closedSegments| > 0 then closedSegments[0].baseOffset else activeSegment.baseOffset
    }

    constructor (maxSegmentBytes: int, indexInterval: int)
      requires 0 < maxSegmentBytes <= TWO_32
      ensures Valid() && Log() == [] && nextOffset == 0 && closedSegments == []
        && this.maxSegmentBytes == maxSegmentBytes
      ensures fresh(activeSegment) && fresh(activeSegment.index) && activeSegment.size == 0
      ensures Pieces(Segs()) == [Piece(0, 0, [])] && Continuous(Pieces(Segs())) && AllIndexed(Segs())
    {
      this.maxSegmentBytes, this.indexInterval := maxSegmentBytes, indexInterval;
      activeSegment := new Segment(0, maxSegmentBytes, indexInterval);
      closedSegments, nextOffset, highWatermark := [], 0, 0;
      new;
      hide Valid, Segment.Valid, Segment.Indexed, Pieces, Joined, Continuous, AllIndexed;
      LoneSegment(this);
      LoneIndexed(this);
      NothingContinuous(0);
    }

    // The last segment found becomes the active one.
    constructor Reopened(segs: seq<Segment>, maxSegmentBytes: int, indexInterval: int)
      requires segs != []
      ensures Segs() == segs && nextOffset == highWatermark == activeSegment.nextOffset
      ensures this.maxSegmentBytes == maxSegmentBytes
    {
      this.maxSegmentBytes, this.indexInterval := maxSegmentBytes, indexInterval;
      activeSegment, closedSegments := segs[|segs| - 1], segs[..|segs| - 1];
      nextOffset, highWatermark := segs[|segs| - 1].nextOffset, segs[|segs| - 1].nextOffset;
    }

    // A full active segment is closed and a new one starts at the next offset.
    method Roll()
      requires Formed()
      modifies this`closedSegments, this`activeSegment
      ensures Formed() && Log() == old(Log()) && nextOffset == old(nextOffset)
      ensures activeSegment.maxSegmentBytes == maxSegmentBytes
      ensures closedSegments == old(closedSegments) + [old(activeSegment)]
      ensures fresh(activeSegment) && fresh(activeSegment.index)
      ensures activeSegment.batches == [] && activeSegment.size == 0 && activeSegment.baseOffset == nextOffset
      ensures Pieces(Segs()) == old(Pieces(Segs())) + [Piece(nextOffset, nextOffset, [])]
      ensures old(Valid()) ==> Valid() && (old(AllIndexed(Segs())) ==> AllIndexed(Segs()))
    {
      hide InOrder, Chained, Joined, Segment.Valid, Segment.Indexed, Segment.Formed, Separate, AllFormed, AllValid,
        AllIndexed, SameLimit, Pieces;
      ghost var segs, ps := Segs(), Pieces(Segs());
      if Valid() { ActiveLimit(this); }
      var active := new Segment(nextOffset, maxSegmentBytes, indexInterval);
      OneMore(segs, active, maxSegmentBytes);
      InParts(segs, active);
      Distinct(this, segs + [active]);
      closedSegments, activeSegment := closedSegments + [activeSegment], active;
      assert Segs() == segs + [activeSegment];
      JoinedAppend(ps, PieceOf(activeSegment));
      if old(Valid()) {
        SegmentFacts(activeSegment);
        ChainedExtend(ps, PieceOf(activeSegment));
      }
    }

    // The active segment takes the batch, the others stay as they are.
    method PutLast(raw: bytes) returns (r: Option<int>)
      requires Formed() && -TWO_63 <= nextOffset < TWO_63
      modifies this`nextOffset, this`highWatermark, activeSegment, activeSegment.index
      ensures Formed() && r == if old(activeSegment.Accepts(raw)) then Some(old(nextOffset)) else None
      ensures nextOffset == old(nextOffset) + if r.Some? then Delta(raw) + 1 else 0
      ensures activeSegment.batches == old(activeSegment.batches) +
        if r.Some? then [Assigned(raw, old(nextOffset))] else []
      ensures Pieces(Segs()) == old(Pieces(Segs()))[|closedSegments| := PieceOf(activeSegment)]
      ensures old(AllValid(Segs())) && old(activeSegment.size) < TWO_32 && (r.None? || WellFormed(raw)) ==>
        && AllValid(Segs()) && (old(AllIndexed(Segs())) ==> AllIndexed(Segs()))
        && (old(Unbroken(activeSegment.batches, activeSegment.baseOffset, activeSegment.nextOffset)) ==>
              Unbroken(activeSegment.batches, activeSegment.baseOffset, activeSegment.nextOffset))
    {
      hide InOrder, Base, Delta, Assigned, WellFormed, Segment.Valid, Segment.Indexed, Segment.Formed, Pieces, Unbroken,
        Separate, AllFormed, AllValid, AllIndexed;
      Elsewhere(this);
      InParts(closedSegments, activeSegment);
      Distinct(this, closedSegments + [activeSegment]);
      r := activeSegment.Append(raw);
      nextOffset := activeSegment.nextOffset;
      highWatermark := nextOffset;
      InParts(closedSegments, activeSegment);
    }

    // Appending to the active segment, the others staying as they are.
    method AppendActive(raw: bytes) returns (r: Option<int>)
      requires Formed() && -TWO_63 <= nextOffset < TWO_63
      modifies this`nextOffset, this`highWatermark, activeSegment, activeSegment.index
      ensures Formed() && r == if old(activeSegment.Accepts(raw)) then Some(old(nextOffset)) else None
      ensures r.Some? ==>
        Log() == old(Log()) + [Assigned(raw, old(nextOffset))] && nextOffset == old(nextOffset) + Delta(raw) + 1
      ensures r.None? ==> Log() == old(Log()) && nextOffset == old(nextOffset) && Pieces(Segs()) == old(Pieces(Segs()))
      ensures r.Some? ==> Pieces(Segs()) == old(Pieces(Segs()))[|closedSegments| :=
        Piece(activeSegment.baseOffset, nextOffset, old(activeSegment.batches) + [Assigned(raw, old(nextOffset))])]
      ensures old(Valid()) && old(activeSegment.size) < TWO_32 && (r.None? || WellFormed(raw)) ==>
        && Valid() && (old(AllIndexed(Segs())) ==> AllIndexed(Segs()))
        && (old(Continuous(Pieces(Segs()))) ==> Continuous(Pieces(Segs())))
    {
      hide InOrder, Chained, Joined, Base, Delta, Assigned, WellFormed, Pieces, SameLimit, Continuous, Unbroken,
        Separate, AllFormed, AllValid, AllIndexed, Formed;
      ghost var ps, n := Pieces(Segs()), |closedSegments|;
      assert ps[n] == PieceOf(activeSegment);
      FormedEnd(this);
      if Continuous(ps) { ContinuousAt(ps, n); }
      r := PutLast(raw);
      FormedEnd(this);
      ghost var q := PieceOf(activeSegment);
      assert r.None? ==> q == ps[n];
      JoinedGrow(ps, q, if r.Some? then [Assigned(raw, old(nextOffset))] else []);
      if old(Valid()) && old(activeSegment.size) < TWO_32 && (r.None? || WellFormed(raw)) {
        LastInOrder(this);
        ChainedGrow(ps, q);
        if Continuous(ps) { ContinuousReplace(ps, q); }
      }
    }

    // The log grows by the batch under the next offset. It stays in order, without a gap and truly
    // indexed, if the batch's length field is true and its delta not negative, which is not checked.
    method Append(raw: bytes) returns (r: Option<int>)
      requires Formed() && -TWO_63 <= nextOffset < TWO_63
      modifies this, activeSegment, activeSegment.index
      ensures Formed()
      ensures r.Some? ==>
        && r.value == old(nextOffset) && HeaderOk(raw) && nextOffset == old(nextOffset) + Delta(raw) + 1
        && Log() == old(Log()) + [Assigned(raw, old(nextOffset))]
      ensures r.None? ==> Log() == old(Log()) && nextOffset == old(nextOffset)
      ensures var base := if old(activeSegment.Full()) then old(nextOffset) else old(activeSegment).baseOffset;
        r.Some? <==> HeaderOk(raw) && old(nextOffset) + Delta(raw) + 1 - base < TWO_31
      ensures activeSegment == old(activeSegment) || (fresh(activeSegment) && fresh(activeSegment.index))
      ensures old(Valid()) && (r.None? || WellFormed(raw)) ==>
        && Valid() && (old(AllIndexed(Segs())) ==> AllIndexed(Segs()))
        && (old(Continuous(Pieces(Segs()))) ==> Continuous(Pieces(Segs())))
    {
      hide InOrder, Chained, Joined, Base, Delta, Assigned, WellFormed, Segment.Valid, Segment.Indexed, Pieces,
        Continuous, AllIndexed, Valid, Formed;
      if Valid() { ActiveLimit(this); }
      if activeSegment.Full() {
        if Valid() { FullRolls(this); }
        Roll();
      }
      FormedEnd(this);
      r := AppendActive(raw);
    }

    // Reads at or above the earliest offset are the flat reading of the whole log. Below it they
    // are so only when the index lookup, its word wrapped, happens to give the start of the log.
    method Read(startOffset: int, maxBytes: int) returns (out: bytes, hwm: int)
      requires Valid()
      ensures hwm == highWatermark && AllWellFormed(Log())
      ensures var start, first := if startOffset < 0 then 0 else startOffset, Segs()[0];
        out == Flatten(Scan(Log(), start, maxBytes)) <==>
        Earliest() <= start || maxBytes <= 0
          || PositionFor(first.index.entries, (start - first.baseOffset) % TWO_32) == 0
      ensures var start := if startOffset < 0 then 0 else startOffset;
        Continuous(Pieces(Segs())) && Earliest() <= start < highWatermark && maxBytes > 0 ==>
          var read := Scan(Log(), start, maxBytes);
          read != [] && read[0] in Log() && Base(read[0]) <= start <= LastOffset(read[0])
    {
      hide Scan, Flatten, Joined, Base, Delta, Segment.Valid, InOrder, PositionFor, Pos, AllWellFormed, Chained,
        Continuous, Pieces;
      var start := if startOffset < 0 then 0 else startOffset;
      ghost var ps := Pieces(Segs());
      LogInOrder(ps);
      if start >= highWatermark {
        ScanPast(Log(), ps[0].base, nextOffset, start, maxBytes);
        assert Earliest() <= start;
        return [], highWatermark;
      }
      if Continuous(ps) && Earliest() <= start && maxBytes > 0 { ReadHolds(ps, start, maxBytes); }
      var idx := FindSegment(start);
      ghost var late;
      out, late := ReadSegments(closedSegments + [activeSegment], idx, start, maxBytes);
      assert Segs() == closedSegments + [activeSegment];
      ReadIsFlat(ps, idx, start, maxBytes, late,
                 PositionFor(Segs()[0].index.entries, (start - Segs()[0].baseOffset) % TWO_32));
      return out, highWatermark;
    }

    // The closed segments that begin below the target: a prefix, since bases only grow.
    method KeepBelow(target: int) returns (kept: seq<Segment>)
      requires Valid()
      ensures |kept| <= |closedSegments| && kept == closedSegments[..|kept|]
      ensures forall j :: 0 <= j < |kept| ==> closedSegments[j].baseOffset < target
      ensures |kept| < |closedSegments| ==>
        closedSegments[|kept|].baseOffset >= target && activeSegment.baseOffset >= target
    {
      hide Segment.Valid, Chained, InOrder, AllValid, Separate, SameLimit;
      BasesRise(Pieces(Segs()), target);
      assert forall i :: 0 <= i < |closedSegments| ==> Pieces(Segs())[i].base == closedSegments[i].baseOffset;
      assert Pieces(Segs())[|closedSegments|].base == activeSegment.baseOffset;
      kept := [];
      for i := 0 to |closedSegments|
        invariant |kept| <= i && kept == closedSegments[..|kept|]
        invariant forall j :: 0 <= j < |kept| ==> closedSegments[j].baseOffset < target
        invariant |kept| < i ==> closedSegments[|kept|].baseOffset >= target
      {
        if closedSegments[i].baseOffset < target {
          kept := kept + [closedSegments[i]];
        }
      }
    }

    // Giving up the segments that begin at or above the target, and picking the one to cut.
    method DropAbove(target: int) returns (m: nat)
      requires Valid() && 0 <= target < nextOffset
      modifies this`closedSegments, this`activeSegment
      ensures m <= |old(Segs())| && (forall i :: 0 <= i < m ==> old(Segs())[i].baseOffset < target)
      ensures m < |old(Segs())| ==> target <= old(Segs())[m].baseOffset
      ensures m > 0 ==> Segs() == old(Segs())[..m]
      ensures m == 0 ==>
        && closedSegments == [] && fresh(activeSegment) && fresh(activeSegment.index) && activeSegment.Valid()
        && activeSegment.batches == [] && activeSegment.baseOffset == 0
        && activeSegment.maxSegmentBytes == maxSegmentBytes
    {
      hide Valid, Segment.Valid;
      var kept := KeepBelow(target);
      m := |kept|;
      closedSegments := kept;
      if activeSegment.baseOffset < target {
        m := m + 1;
      } else if |closedSegments| > 0 {
        var last := closedSegments[|closedSegments| - 1];
        closedSegments := closedSegments[..|closedSegments| - 1];
        activeSegment := last;
      } else {
        activeSegment := new Segment(0, maxSegmentBytes, indexInterval);
      }
    }

    // Exactly the batches wholly below the target stay, and the log ends at it.
    method TruncateTo(offset: int)
      requires Valid()
      modifies this, Segs(), Indexes(Segs())
      ensures Valid() && AllWellFormed(old(Log()))
      ensures var target := if offset <= 0 then 0 else offset;
        && Log() == Below(old(Log()), target)
        && nextOffset == (if target >= old(nextOffset) then old(nextOffset) else target)
        && (old(Continuous(Pieces(Segs()))) ==>
              (Continuous(Pieces(Segs())) <==>
               target >= old(nextOffset) || target == 0
                 || (old(Earliest()) < target && !Straddled(old(Log()), target))))
      ensures old(AllIndexed(Segs())) ==> AllIndexed(Segs())
    {
      hide Segment.Valid, Segment.Indexed, InOrder, Chained, Joined, Below, Base, Delta, Pieces, Continuous, Straddled,
        AllWellFormed;
      var target := if offset <= 0 then 0 else offset;
      ghost var ps := Pieces(Segs());
      LogInOrder(ps);
      if target >= nextOffset {
        BelowAll(Log(), ps[0].base, nextOffset, target);
        return;
      }
      assert Earliest() == Segs()[0].baseOffset == ps[0].base;
      SegmentFacts(Segs()[0]);
      var m := DropAbove(target);
      assert m > 0 ==> old(Segs())[m - 1].baseOffset == ps[m - 1].base;
      CutPieces(ps, m, target);
      CutReaches(ps, m, target);
      FirstKept(ps, m, target);
      if m > 0 {
        if Continuous(ps) { CutContinuous(ps, m, target); }
        ghost var segs := old(Segs());
        assert Pieces(segs) == ps && PieceOf(segs[m - 1]) == ps[m - 1];
        CutKept(target, segs, m);
        assert Pieces(Segs()) == ps[..m - 1] + [Piece(ps[m - 1].base, target, Below(ps[m - 1].batches, target))];
      } else {
        CutFresh(target);
        FreshContinuous(target);
      }
    }

    // Cutting the last of the segments kept.
    method CutKept(target: int, ghost segs: seq<Segment>, ghost m: nat)
      requires 0 < m <= |segs| && Segs() == segs[..m] && Separate(segs) && AllValid(segs)
      requires 0 < maxSegmentBytes <= TWO_32 && SameLimit(segs, maxSegmentBytes)
      requires Chained(Pieces(segs)) && segs[m - 1].baseOffset < target <= segs[m - 1].nextOffset
      modifies this`nextOffset, this`highWatermark, activeSegment, activeSegment.index
      ensures Valid() && nextOffset == target && AllWellFormed(old(segs[m - 1].batches))
      ensures Log() == Joined(old(Pieces(segs)[..m - 1])) + Below(old(segs[m - 1].batches), target)
      ensures Pieces(Segs())
           == old(Pieces(segs))[..m - 1]
              + [Piece(segs[m - 1].baseOffset, target, Below(old(segs[m - 1].batches), target))]
      ensures old(AllIndexed(segs)) ==> AllIndexed(Segs())
    {
      hide Segment.Valid, Segment.Indexed, InOrder, Chained, Joined, Below, Base, Delta, Pieces;
      ghost var ps := Pieces(segs);
      assert forall i :: 0 <= i < m ==> Segs()[i] == segs[i];
      assert activeSegment == segs[m - 1];
      CutActive(target);
      nextOffset := target;
      highWatermark := target;
      assert Pieces(Segs()) == ps[..m - 1] + [PieceOf(activeSegment)];
      SegmentFacts(activeSegment);
      ChainedCut(ps, m, PieceOf(activeSegment));
    }

    // Nothing is kept: a new segment from offset 0, empty up to the target.
    method CutFresh(target: int)
      requires closedSegments == [] && activeSegment.Valid() && activeSegment.batches == [] && 0 <= target
      requires activeSegment.baseOffset == 0 && activeSegment.maxSegmentBytes == maxSegmentBytes
        && 0 < maxSegmentBytes <= TWO_32
      modifies this`nextOffset, this`highWatermark, activeSegment, activeSegment.index
      ensures Valid() && nextOffset == target && Log() == [] && Pieces(Segs()) == [Piece(0, target, [])]
        && AllIndexed(Segs())
    {
      hide Segment.Valid, Segment.Indexed, InOrder, Chained, Joined, Base, Delta, Pieces;
      CutActive(target);
      nextOffset := target;
      highWatermark := target;
      assert Segs()[0] == activeSegment;
      SegmentFacts(activeSegment);
      LonePiece(Pieces(Segs()));
    }

    // Cutting the active segment, the others staying as they are.
    method CutActive(target: int)
      requires Separate(Segs()) && AllValid(Segs())
        && (activeSegment.batches != [] ==> target <= activeSegment.nextOffset)
      modifies activeSegment, activeSegment.index
      ensures AllValid(Segs()) && AllWellFormed(old(activeSegment.batches))
      ensures activeSegment.batches == Below(old(activeSegment.batches), target)
      ensures activeSegment.nextOffset
           == if target <= activeSegment.baseOffset then activeSegment.baseOffset else target
      ensures activeSegment.Valid() && activeSegment.Indexed()
    {
      hide Segment.Valid, InOrder, Chained, Joined, Below, Base, Delta, Pieces;
      assert Segs()[|closedSegments|] == activeSegment;
      SegmentFacts(activeSegment);
      SegmentWellFormed(activeSegment);
      activeSegment.TruncateTo(target);
    }

    function ClosedSizes(): (sizes: seq<nat>)
      reads this, closedSegments
      ensures |sizes| == |closedSegments| && forall i :: 0 <= i < |sizes| ==> sizes[i] == closedSegments[i].size
    {
      seq(|closedSegments|, i requires 0 <= i < |closedSegments| reads this, closedSegments => closedSegments[i].size)
    }

    // The bytes of all segments.
    ghost function Size(): nat
      reads this, closedSegments, activeSegment
    {
      Sum(ClosedSizes()) + activeSegment.size
    }

    method TotalSize() returns (total: nat)
      ensures total == Size()
    {
      total := 0;
      for i := 0 to |closedSegments|
        invariant total == Sum(ClosedSizes()[..i])
      {
        assert ClosedSizes()[..i + 1][..i] == ClosedSizes()[..i];
        total := total + closedSegments[i].size;
      }
      assert ClosedSizes()[..|closedSegments|] == ClosedSizes();
      total := total + activeSegment.size;
    }

    // Closed segments from the oldest: first those past the age limit, then as many more as it
    // takes to get under the size limit.
    method RetentionPlan(ret: Retention, now: int, mtimes: seq<Option<int>>) returns (plan: seq<nat>)
      requires |mtimes| == |closedSegments|
      ensures |plan| <= |closedSegments|
        && IsRetentionCount(|plan|, ret, now, mtimes, ClosedSizes(), activeSegment.size)
      ensures forall i :: 0 <= i < |plan| ==> plan[i] == i
    {
      hide Sum;
      plan := [];
      var total := TotalSize();
      ghost var sizes, all := ClosedSizes(), total;
      SumNone();
      if ret.time > 0 {
        var cutoff := now - ret.time;
        for i := 0 to |closedSegments|
          invariant |plan| == i && (forall j :: 0 <= j < i ==> plan[j] == j && Expired(mtimes[j], ret, now))
          invariant total == all - Sum(sizes[..i])
        {
          if mtimes[i].None? || mtimes[i].value >= cutoff {
            break;
          }
          SumStep(sizes, i);
          plan := plan + [i];
          total := total - closedSegments[i].size;
        }
      }
      ghost var aged := |plan|;
      assert Leading(aged, ret, now, mtimes);
      if ret.bytes > 0 {
        var i := |plan|;
        while i < |closedSegments| && total > ret.bytes
          invariant aged <= i <= |closedSegments| && |plan| == i && total == all - Sum(sizes[..i])
          invariant forall j :: 0 <= j < i ==> plan[j] == j
          invariant forall j :: aged <= j < i ==> all - Sum(sizes[..j]) > ret.bytes
        {
          SumStep(sizes, i);
          plan := plan + [i];
          total := total - closedSegments[i].size;
          i := i + 1;
        }
      }
      assert UnderLimit(|plan|, ret, sizes, activeSegment.size);
      assert forall j :: aged <= j < |plan| ==> !UnderLimit(j, ret, sizes, activeSegment.size);
    }

    // What enforcing the policy would free.
    method RetentionDebt(ret: Retention, now: int, mtimes: seq<Option<int>>) returns (debt: nat)
      requires |mtimes| == |closedSegments|
      ensures exists n: nat ::
        IsRetentionCount(n, ret, now, mtimes, ClosedSizes(), activeSegment.size) && debt == Sum(ClosedSizes()[..n])
    {
      hide Leading, UnderLimit;
      var plan := RetentionPlan(ret, now, mtimes);
      debt := 0;
      for i := 0 to |plan|
        invariant debt == Sum(ClosedSizes()[..i])
      {
        assert ClosedSizes()[..i + 1][..i] == ClosedSizes()[..i];
        debt := debt + closedSegments[plan[i]].size;
      }
    }

    // Removing the planned segments, the newest of them first.
    method RemoveClosed(plan: seq<nat>)
      requires |plan| <= |closedSegments| && forall i :: 0 <= i < |plan| ==> plan[i] == i
      modifies this`closedSegments
      ensures closedSegments == old(closedSegments)[|plan|..]
    {
      var i := |plan|;
      while i > 0
        invariant 0 <= i <= |plan| && closedSegments == old(closedSegments)[..i] + old(closedSegments)[|plan|..]
      {
        i := i - 1;
        closedSegments := closedSegments[..plan[i]] + closedSegments[plan[i] + 1..];
      }
    }

    // The planned segments go; the active segment and the log end stay.
    method EnforceRetention(ret: Retention, now: int, mtimes: seq<Option<int>>) returns (ghost n: nat)
      requires Valid() && |mtimes| == |closedSegments|
      modifies this`closedSegments
      ensures Valid() && n <= |old(closedSegments)| && closedSegments == old(closedSegments)[n..]
      ensures IsRetentionCount(n, ret, now, mtimes, old(ClosedSizes()), activeSegment.size)
      ensures Log() == Joined(old(Pieces(Segs()))[n..])
      ensures old(Size()) - Size() == Sum(old(ClosedSizes())[..n])
      ensures (old(Continuous(Pieces(Segs()))) ==> Continuous(Pieces(Segs())))
        && (old(AllIndexed(Segs())) ==> AllIndexed(Segs()))
    {
      hide Segment.Valid, Segment.Indexed, InOrder, Joined, IsRetentionCount, Sum, Pieces, Chained, Continuous;
      ghost var ps := Pieces(Segs());
      var plan := RetentionPlan(ret, now, mtimes);
      n := |plan|;
      DebtIsFreed(ClosedSizes(), n);
      if Continuous(ps) { ContinuousSlice(ps, n); }
      RemoveClosed(plan);
      assert ClosedSizes() == old(ClosedSizes())[n..];
      assert Segs() == old(Segs())[n..];
      assert Pieces(Segs()) == ps[n..];
      ChainedSlice(ps, n, |ps|);
      assert ps[n..|ps|] == ps[n..];
    }

    // The first segment that reaches the offset.
    method FindSegment(offset: int) returns (idx: nat)
      requires Valid() && offset < nextOffset
      ensures idx < |Segs()| && offset < Segs()[idx].nextOffset
      ensures forall j :: 0 <= j < idx ==> Segs()[j].nextOffset <= offset
    {
      hide Segment.Valid, Chained;
      var segs := closedSegments + [activeSegment];
      idx := 0;
      while idx < |segs|
        invariant idx <= |segs| && forall j :: 0 <= j < idx ==> segs[j].nextOffset <= offset
      {
        if offset < segs[idx].nextOffset {
          return;
        }
        idx := idx + 1;
      }
    }
  }

  // What the segments from idx on add to the batches taken so far.
  ghost function WithRest(ps: seq<Piece>, idx: nat, taken: seq<batch>, limit: int): seq<batch>
    requires Chained(ps) && 0 < idx <= |ps|
  {
    TailInOrder(ps, idx);
    taken + Scan(Joined(ps[idx..]), ps[idx - 1].next, limit - |Flatten(taken)|)
  }

  lemma RestStep(ps: seq<Piece>, idx: nat, taken: seq<batch>, limit: int)
    requires Chained(ps) && 0 < idx < |ps|
    ensures AllWellFormed(ps[idx].batches)
    ensures var part := Scan(ps[idx].batches, ps[idx - 1].next, limit - |Flatten(taken)|);
      && WithRest(ps, idx, taken, limit) == WithRest(ps, idx + 1, taken + part, limit)
      && Flatten(taken + part) == Flatten(taken) + Flatten(part)
  {
    hide Scan, Flatten, Joined, Base, Delta;
    var start, left := ps[idx - 1].next, limit - |Flatten(taken)|;
    assert start == ps[idx - 1 + 1].base;
    ReadOn(ps, idx, 0, start, left);
    assert Joined(ps[idx..])[0..] == Joined(ps[idx..]) && ps[idx].batches[0..] == ps[idx].batches;
    var part := Scan(ps[idx].batches, start, left);
    FlattenAppend(taken, part);
    var rest := Scan(Joined(ps[idx + 1..]), ps[idx].next, left - |Flatten(part)|);
    assert taken + (part + rest) == taken + part + rest;
  }

  lemma RestDone(ps: seq<Piece>, idx: nat, taken: seq<batch>, limit: int)
    requires Chained(ps) && 0 < idx <= |ps| && (idx == |ps| || |Flatten(taken)| >= limit)
    ensures WithRest(ps, idx, taken, limit) == taken
  {
    hide Flatten, Joined, Base, Delta;
    TailInOrder(ps, idx);
    if idx == |ps| {
      assert ps[idx..] == [];
      JoinedNone();
    }
  }

  // The segments from idx on, each read from its beginning, until the limit is reached.
  method ReadRest(segs: seq<Segment>, from: nat, maxBytes: int, head: bytes, ghost taken: seq<batch>)
    returns (out: bytes)
    requires AllValid(segs) && Chained(Pieces(segs)) && 0 < from <= |segs| && head == Flatten(taken)
    ensures out == Flatten(WithRest(Pieces(segs), from, taken, maxBytes))
  {
    hide Scan, Flatten, Joined, Base, Delta, Segment.Valid, InOrder, PositionFor, WithRest;
    ghost var ps, got := Pieces(segs), taken;
    out := head;
    var idx, start := from, segs[from - 1].nextOffset;
    while idx < |segs|
      invariant from <= idx <= |segs| && start == ps[idx - 1].next && out == Flatten(got)
      invariant WithRest(ps, idx, got, maxBytes) == WithRest(ps, from, taken, maxBytes)
    {
      if |out| >= maxBytes {
        break;
      }
      RestStep(ps, idx, got, maxBytes);
      assert start == ps[idx - 1 + 1].base;
      var data, k := segs[idx].Read(start, maxBytes - |out|);
      got := got + Scan(ps[idx].batches, start, maxBytes - |out|);
      out := out + data;
      start := segs[idx].nextOffset;
      idx := idx + 1;
    }
    RestDone(ps, idx, got, maxBytes);
  }

  // The segments' readings put together, from one that reaches the offset. If that segment starts
  // above the offset, the reading starts `late` batches into it.
  method ReadSegments(segs: seq<Segment>, from: nat, startOffset: int, maxBytes: int)
    returns (out: bytes, ghost late: nat)
    requires AllValid(segs) && Chained(Pieces(segs)) && from < |segs| && startOffset < segs[from].nextOffset
    ensures var bs := Joined(Pieces(segs)[from..]);
      && AllWellFormed(bs) && late <= |segs[from].batches| <= |bs|
      && out == Flatten(Scan(bs[late..], startOffset, maxBytes))
    ensures if segs[from].baseOffset <= startOffset || maxBytes <= 0 then late == 0
            else Pos(segs[from].batches, late)
                 == PositionFor(segs[from].index.entries, (startOffset - segs[from].baseOffset) % TWO_32)
  {
    hide Scan, Flatten, Joined, Base, Delta, Segment.Valid, InOrder, PositionFor;
    ghost var ps := Pieces(segs);
    SegmentFacts(segs[from]);
    var data;
    data, late := segs[from].Read(startOffset, maxBytes);
    if segs[from].baseOffset <= startOffset || maxBytes <= 0 { late := 0; }
    if maxBytes <= 0 {
      ReadOn(ps, from, 0, startOffset, maxBytes);
      ScanNothing(Joined(ps[from..])[0..], startOffset, maxBytes);
      FlattenNone();
      return [], 0;
    }
    assert ps[from].batches[0..] == ps[from].batches;
    ReadOn(ps, from, late, startOffset, maxBytes);
    ghost var taken := Scan(ps[from].batches[late..], startOffset, maxBytes);
    out := ReadRest(segs, from + 1, maxBytes, data, taken);
  }

  lemma JoinedGrow(ps: seq<Piece>, q: Piece, more: seq<batch>)
    requires ps != [] && q.batches == ps[|ps| - 1].batches + more
    ensures Joined(ps[|ps| - 1 := q]) == Joined(ps) + more
  {
    hide Joined;
    var n := |ps| - 1;
    var front := ps[..n];
    assert ps == front + [ps[n]] && ps[n := q] == front + [q];
    JoinedAppend(front, ps[n]);
    JoinedAppend(front, q);
    assert Joined(front) + (ps[n].batches + more) == Joined(front) + ps[n].batches + more;
  }

  lemma ChainedGrow(ps: seq<Piece>, q: Piece)
    requires Chained(ps) && ps != [] && q.base == ps[|ps| - 1].base && InOrder(q.batches, q.base, q.next)
    ensures Chained(ps[|ps| - 1 := q])
  {
    hide InOrder, Chained;
    var n := |ps| - 1;
    assert ps == ps[..n] + [ps[n]] && ps[n := q] == ps[..n] + [q];
    ChainedReplace(ps[..n], ps[n], q);
  }

  lemma ContinuousAt(ps: seq<Piece>, i: nat)
    requires Continuous(ps) && i < |ps|
    ensures Unbroken(ps[i].batches, ps[i].base, ps[i].next)
  {
    hide Unbroken;
  }

  lemma Elsewhere(p: Partition)
    requires Separate(p.Segs())
    ensures p.activeSegment !in p.closedSegments && p.activeSegment.index !in Indexes(p.closedSegments)
  {
    var segs, n := p.Segs(), |p.closedSegments|;
    forall i | 0 <= i < n
      ensures p.closedSegments[i] != p.activeSegment && p.closedSegments[i].index != p.activeSegment.index
    {
      assert segs[i] != segs[n] && segs[i].index != segs[n].index;
    }
  }

  lemma Distinct(p: Partition, segs: seq<Segment>)
    ensures forall i :: 0 <= i < |segs| ==> segs[i] as object != p
    ensures forall x: IndexFile :: x in Indexes(segs) ==> x as object != p
  {
  }

  // All segments, as those before the last one and the last one.
  lemma InParts(segs: seq<Segment>, s: Segment)
    ensures Pieces(segs + [s]) == Pieces(segs) + [PieceOf(s)]
    ensures AllFormed(segs + [s]) <==> AllFormed(segs) && s.Formed()
    ensures AllValid(segs + [s]) <==> AllValid(segs) && s.Valid()
    ensures AllIndexed(segs + [s]) <==> AllIndexed(segs) && s.Valid() && s.Indexed()
    ensures Indexes(segs + [s]) == Indexes(segs) + {s.index}
  {
    hide Segment.Valid, Segment.Indexed, Segment.Formed;
    var all := segs + [s];
    assert all[..|segs|] == segs && all[|segs|] == s;
    assert forall i :: 0 <= i < |segs| ==> all[i] == segs[i];
    PartIndexes(segs, s);
  }

  lemma PartIndexes(segs: seq<Segment>, s: Segment)
    ensures Indexes(segs + [s]) == Indexes(segs) + {s.index}
  {
    var all := segs + [s];
    forall x | x in Indexes(segs) ensures x in Indexes(all) {
      var i :| 0 <= i < |segs| && segs[i].index == x;
      assert all[i].index == x;
    }
    assert all[|segs|].index == s.index;
  }

  // A new segment shares nothing with the others.
  lemma OneMore(segs: seq<Segment>, s: Segment, limit: int)
    requires s !in segs && s.index !in Indexes(segs)
    ensures Separate(segs) ==> Separate(segs + [s])
    ensures SameLimit(segs, limit) && s.maxSegmentBytes == limit ==> SameLimit(segs + [s], limit)
  {
    assert forall i :: 0 <= i < |segs| ==> segs[i].index in Indexes(segs);
  }

  lemma LastInOrder(p: Partition)
    requires AllValid(p.Segs())
    ensures InOrder(p.activeSegment.batches, p.activeSegment.baseOffset, p.activeSegment.nextOffset)
  {
    hide InOrder, Segment.Valid;
    assert p.Segs()[|p.closedSegments|] == p.activeSegment;
    SegmentFacts(p.activeSegment);
  }

  lemma FormedEnd(p: Partition)
    requires p.Formed()
    ensures p.activeSegment.nextOffset == p.nextOffset == p.highWatermark
  {
  }

  lemma ValidFormed(p: Partition)
    requires p.Valid()
    ensures p.Formed()
  {
    hide Chained, InOrder, Sound, Addressable, Flatten;
  }

  // A full segment is not empty, so rolling it leaves the log continuous.
  lemma FullRolls(p: Partition)
    requires p.Valid() && p.activeSegment.Full()
    ensures Continuous(Pieces(p.Segs())) ==> Continuous(Pieces(p.Segs()) + [Piece(p.nextOffset, p.nextOffset, [])])
  {
    hide InOrder, Chained, Segment.Valid, Unbroken;
    var ps, active := Pieces(p.Segs()), p.activeSegment;
    assert p.Segs()[|p.closedSegments|] == active;
    if Continuous(ps) {
      ContinuousAt(ps, |ps| - 1);
      NotEmpty(active);
      ContinuousRoll(ps, p.nextOffset);
    }
  }

  lemma NotEmpty(s: Segment)
    requires s.Valid() && s.size > 0 && Unbroken(s.batches, s.baseOffset, s.nextOffset)
    ensures s.baseOffset < s.nextOffset
  {
    hide Base, Delta, Sound, Addressable, InOrder, LengthField;
    FlattenNone();
  }

  // The reading of the segments from idx on, put against the flat reading of the whole log.
  lemma ReadIsFlat(ps: seq<Piece>, idx: nat, start: int, limit: int, late: nat, position: nat)
    requires Chained(ps) && idx < |ps| && start < ps[idx].next && forall j :: 0 <= j < idx ==> ps[j].next <= start
    requires late <= |ps[idx].batches| <= |Joined(ps[idx..])| && AllWellFormed(Joined(ps[idx..]))
    requires if ps[idx].base <= start || limit <= 0 then late == 0
             else idx == 0 ==> Pos(ps[idx].batches, late) == position
    ensures AllWellFormed(Joined(ps))
    ensures Flatten(Scan(Joined(ps[idx..])[late..], start, limit)) == Flatten(Scan(Joined(ps), start, limit)) <==>
            ps[0].base <= start || limit <= 0 || position == 0
  {
    hide Scan, Flatten, Joined, Base, Delta;
    SkipPieces(ps, idx, start, limit);
    var bs := Joined(ps[idx..]);
    assert bs[0..] == bs;
    if idx > 0 {
      assert ps[idx - 1].next == ps[idx - 1 + 1].base;
      assert ps[0].next <= start;
      BasesGrow(ps, idx);
    }
    PosZero(ps[idx].batches, late);
    if late > 0 {
      TailInOrder(ps, idx);
      LateStart(bs, ps[idx].base, ps[|ps| - 1].next, start, limit, late);
    }
  }

  // Once a segment begins at or above the target, so do all later ones.
  lemma BasesRise(ps: seq<Piece>, target: int)
    requires Chained(ps)
    ensures forall i, j :: 0 <= i < j < |ps| && ps[i].base >= target ==> ps[j].base >= target
  {
    hide InOrder;
    forall i, j | 0 <= i < j < |ps| && ps[i].base >= target ensures ps[j].base >= target {
      ChainedSlice(ps, i, |ps|);
      BasesGrow(ps[i..|ps|], j - i);
    }
  }

  lemma {:induction false} BasesGrow(ps: seq<Piece>, i: nat)
    requires Chained(ps) && i < |ps|
    ensures ps[0].base <= ps[i].base
    decreases i
  {
    hide Base, Delta;
    if i > 0 {
      BasesGrow(ps, i - 1);
      assert ps[i - 1].next == ps[i - 1 + 1].base;
    }
  }

  lemma PosZero(bs: seq<batch>, k: nat)
    requires AllWellFormed(bs) && k <= |bs|
    ensures Pos(bs, k) == 0 <==> k == 0
  {
    hide Flatten;
    PosEnds(bs);
    PosGrows(bs, 0, k);
  }

  lemma SegmentWellFormed(s: Segment)
    requires s.Valid()
    ensures AllWellFormed(s.batches)
  {
  }

  lemma CutReaches(ps: seq<Piece>, m: nat, target: int)
    requires Chained(ps) && ps != [] && m <= |ps| && target < ps[|ps| - 1].next && (m < |ps| ==> target <= ps[m].base)
    ensures m > 0 ==> target <= ps[m - 1].next
  {
    hide InOrder;
    if 0 < m < |ps| { assert ps[m - 1].next == ps[m - 1 + 1].base; }
  }

  lemma LogInOrder(ps: seq<Piece>)
    requires Chained(ps) && ps != []
    ensures AllWellFormed(Joined(ps)) && InOrder(Joined(ps), ps[0].base, ps[|ps| - 1].next)
  {
    JoinedInOrder(ps);
  }

  lemma ScanPast(bs: seq<batch>, from: int, to: int, offset: int, limit: int)
    requires InOrder(bs, from, to) && to <= offset
    ensures Flatten(Scan(bs, offset, limit)) == []
  {
    FromPast(bs, from, to, offset);
  }

  lemma SegmentFacts(s: Segment)
    requires s.Valid()
    ensures InOrder(s.batches, s.baseOffset, s.nextOffset) && 0 <= s.baseOffset <= s.nextOffset
    ensures s.batches != [] ==> s.nextOffset < s.baseOffset + TWO_31
  {
  }

  lemma ActiveLimit(p: Partition)
    requires p.Valid()
    ensures p.activeSegment.maxSegmentBytes == p.maxSegmentBytes && 0 < p.maxSegmentBytes <= TWO_32
    ensures 0 <= p.activeSegment.baseOffset <= p.activeSegment.nextOffset == p.nextOffset == p.highWatermark
  {
    hide Segment.Valid, Chained, Separate, InOrder;
    assert p.Segs()[|p.closedSegments|] == p.activeSegment;
    SegmentFacts(p.activeSegment);
  }

  lemma FoundSegments(p: Partition)
    requires AllValid(p.Segs()) && Separate(p.Segs()) && SameLimit(p.Segs(), p.maxSegmentBytes)
      && Chained(Pieces(p.Segs()))
    requires 0 < p.maxSegmentBytes <= TWO_32 && p.nextOffset == p.highWatermark == p.activeSegment.nextOffset
    ensures p.Valid()
  {
    hide AllValid, Separate, SameLimit, Chained;
  }

  lemma LoneSegment(p: Partition)
    requires p.closedSegments == [] && p.activeSegment.Valid() && p.activeSegment.maxSegmentBytes == p.maxSegmentBytes
    requires 0 < p.maxSegmentBytes <= TWO_32 && p.nextOffset == p.highWatermark == p.activeSegment.nextOffset
    ensures p.Valid() && p.Log() == p.activeSegment.batches && Pieces(p.Segs()) == [PieceOf(p.activeSegment)]
  {
    hide InOrder, Chained, Joined, Segment.Valid;
    assert p.Segs() == [p.activeSegment];
    SegmentFacts(p.activeSegment);
    LonePiece(Pieces(p.Segs()));
  }

  lemma LoneIndexed(p: Partition)
    requires p.closedSegments == [] && p.activeSegment.Valid() && p.activeSegment.Indexed()
    ensures AllIndexed(p.Segs())
  {
    hide Segment.Valid, Segment.Indexed;
    assert p.Segs() == [p.activeSegment];
  }

  lemma LonePiece(ps: seq<Piece>)
    requires |ps| == 1 && InOrder(ps[0].batches, ps[0].base, ps[0].next)
    ensures Chained(ps) && Joined(ps) == ps[0].batches
  {
    hide InOrder;
    assert ps[..0] == [];
    assert Joined(ps[..0]) == [];
  }

  lemma ChainedExtend(ps: seq<Piece>, p: Piece)
    requires Chained(ps) && ps != [] && InOrder(p.batches, p.base, p.next) && ps[|ps| - 1].next == p.base
    ensures Chained(ps + [p]) && Joined(ps + [p]) == Joined(ps) + p.batches
  {
    hide InOrder, Joined;
    JoinedAppend(ps, p);
    var qs := ps + [p];
    forall i | 0 <= i < |qs| - 1 ensures qs[i].next == qs[i + 1].base {
      if i < |ps| - 1 { assert ps[i].next == ps[i + 1].base; }
    }
    forall i | 0 <= i < |qs| ensures InOrder(qs[i].batches, qs[i].base, qs[i].next) {
      if i < |ps| { assert qs[i] == ps[i]; }
    }
  }

  lemma ChainedReplace(front: seq<Piece>, p: Piece, q: Piece)
    requires Chained(front + [p]) && q.base == p.base && InOrder(q.batches, q.base, q.next)
    ensures Chained(front + [q])
  {
    hide InOrder;
    forall i | 0 <= i < |front| ensures (front + [q])[i].next == (front + [q])[i + 1].base {
      assert (front + [p])[i].next == (front + [p])[i + 1].base;
    }
    forall i | 0 <= i < |front| ensures InOrder(front[i].batches, front[i].base, front[i].next) {
      assert front[i] == (front + [p])[i];
    }
  }

  // ------------------------------------------------------------ reopening

  datatype SegmentFiles = SegmentFiles(base: int, log: bytes, index: bytes)

  // A segment's files hold its batches, with no offset skipped, and an index that points truly;
  // `tail` is what a crash has left of one more batch.
  ghost predicate Holds(f: SegmentFiles, p: Piece, tail: bytes)
  {
    && f.base == p.base >= 0 && InOrder(p.batches, p.base, p.next)
    && f.log == Flatten(p.batches) + tail && Torn(tail) && Addressable(p.batches)
    && p.next == p.base + Span(p.batches) && Span(p.batches) < TWO_31
    && |f.index| % ENTRY_SIZE == 0 && Sound(DecodeEntries(f.index, |f.index| / ENTRY_SIZE), p.batches, p.base)
  }

  lemma HoldsDense(f: SegmentFiles, p: Piece, tail: bytes)
    requires Holds(f, p, tail)
    ensures Dense(p.batches, p.base)
  {
    SpanFallsShort(p.batches, p.base, p.next);
  }

  method OpenHeld(f: SegmentFiles, maxSegmentBytes: int, interval: int, ghost p: Piece, ghost tail: bytes)
    returns (r: Option<Segment>)
    requires Holds(f, p, tail)
    ensures r.Some? <==> !(1 <= |tail| < 12)
    ensures r.Some? ==> fresh(r.value) && fresh(r.value.index) && r.value.Valid()
    ensures r.Some? ==> PieceOf(r.value) == p && r.value.maxSegmentBytes == maxSegmentBytes
  {
    hide InOrder, Sound, Flatten, Torn, DecodeEntries, Addressable, Span, Dense, AllWellFormed, Segment.Valid;
    HoldsDense(f, p, tail);
    HoldsWellFormed(f, p, tail);
    r := OpenSegment(f.base, maxSegmentBytes, interval, f.log, f.index, p.batches, tail);
  }

  lemma HoldsWellFormed(f: SegmentFiles, p: Piece, tail: bytes)
    requires Holds(f, p, tail)
    ensures AllWellFormed(p.batches)
  {
  }

  // The files of a segment that misses no offset hold it.
  lemma LiveHolds(s: Segment, tail: bytes)
    requires s.Valid() && Unbroken(s.batches, s.baseOffset, s.nextOffset) && Torn(tail)
    ensures Holds(SegmentFiles(s.baseOffset, s.log + tail, s.index.file), PieceOf(s), tail)
  {
    hide Flatten, InOrder, Sound, Addressable, Span, Words, DecodeEntries, EncodeEntries, AllWellFormed, Torn;
    EntriesRoundTrip(s.index.entries);
    assert s.batches == [] ==> Span(s.batches) == 0 by { SpanEmpty(); }
  }

  // Whether all but possibly the last of the files are whole.
  ghost predicate AllHold(files: seq<SegmentFiles>, ps: seq<Piece>, tail: bytes)
  {
    && |files| == |ps|
    && forall i :: 0 <= i < |ps| ==> Holds(files[i], ps[i], if i == |ps| - 1 then tail else [])
  }

  // The files of all segments, the last of them with a torn batch at its end.
  method FilesOf(segs: seq<Segment>, tail: bytes) returns (files: seq<SegmentFiles>)
    requires AllValid(segs) && Torn(tail)
    requires forall i :: 0 <= i < |segs| ==> Unbroken(segs[i].batches, segs[i].baseOffset, segs[i].nextOffset)
    ensures AllHold(files, Pieces(segs), tail)
  {
    hide Segment.Valid, Unbroken, Holds, Torn;
    files := [];
    NothingTorn();
    for i := 0 to |segs|
      invariant |files| == i
      invariant forall k :: 0 <= k < i ==> Holds(files[k], PieceOf(segs[k]), if k == |segs| - 1 then tail else [])
    {
      var end := if i == |segs| - 1 then tail else [];
      LiveHolds(segs[i], end);
      files := files + [SegmentFiles(segs[i].baseOffset, segs[i].log + end, segs[i].index.file)];
    }
  }

  lemma NothingTorn()
    ensures Torn([])
  {
  }

  // Opening every segment found, in the order of their base offsets.
  method OpenSegments(files: seq<SegmentFiles>, maxSegmentBytes: int, interval: int, ghost ps: seq<Piece>,
                      ghost tail: bytes)
    returns (r: Option<seq<Segment>>)
    requires AllHold(files, ps, tail)
    ensures r.Some? <==> files == [] || !(1 <= |tail| < 12)
    ensures r.Some? ==> AllValid(r.value) && Separate(r.value) && SameLimit(r.value, maxSegmentBytes)
    ensures r.Some? ==> Pieces(r.value) == ps
  {
    hide Holds, Segment.Valid, Pieces;
    var segs := [];
    for i := 0 to |files|
      invariant |segs| == i && AllValid(segs) && Separate(segs) && SameLimit(segs, maxSegmentBytes)
      invariant forall k :: 0 <= k < i ==> fresh(segs[k]) && fresh(segs[k].index) && PieceOf(segs[k]) == ps[k]
      invariant i == |files| > 0 ==> !(1 <= |tail| < 12)
    {
      var s := OpenHeld(files[i], maxSegmentBytes, interval, ps[i], if i == |ps| - 1 then tail else []);
      if s.None? {
        return None;
      }
      segs := segs + [s.value];
    }
    assert Pieces(segs) == ps;
    return Some(segs);
  }

  // Reopening a partition whose segments have skipped no offset restores every segment, and with
  // them the log and its end; it fails exactly when the torn tail is too short to hold a length.
  method OpenPartition(files: seq<SegmentFiles>, maxSegmentBytes: int, interval: int, ghost ps: seq<Piece>,
                       ghost tail: bytes)
    returns (r: Option<Partition>)
    requires AllHold(files, ps, tail) && Chained(ps) && 0 < maxSegmentBytes <= TWO_32
    ensures r.Some? <==> files == [] || !(1 <= |tail| < 12)
    ensures r.Some? ==> fresh(r.value) && r.value.Valid() && r.value.maxSegmentBytes == maxSegmentBytes
    ensures r.Some? && files != [] ==>
      Pieces(r.value.Segs()) == ps && r.value.Log() == Joined(ps) && r.value.nextOffset == ps[|ps| - 1].next
    ensures r.Some? && files == [] ==> r.value.Log() == [] && r.value.nextOffset == 0
  {
    hide Holds, Segment.Valid, Partition.Valid, Pieces, Chained, Joined, AllValid, Separate, SameLimit;
    if |files| == 0 {
      var p := new Partition(maxSegmentBytes, interval);
      return Some(p);
    }
    var segs := OpenSegments(files, maxSegmentBytes, interval, ps, tail);
    if segs.None? {
      return None;
    }
    assert forall x :: x in Indexes(segs.value) ==> allocated(x);
    var p := new Partition.Reopened(segs.value, maxSegmentBytes, interval);
    FoundSegments(p);
    return Some(p);
  }

  lemma ContinuousSegments(p: Partition)
    requires p.Valid() && Continuous(Pieces(p.Segs()))
    ensures AllValid(p.Segs()) && Chained(Pieces(p.Segs()))
    ensures forall i :: 0 <= i < |p.Segs()| ==>
      Unbroken(p.Segs()[i].batches, p.Segs()[i].baseOffset, p.Segs()[i].nextOffset)
  {
    hide Segment.Valid, Chained, Separate, Unbroken;
  }

  // A partition that misses no offset, cut by a crash inside an append, opens with the log and the
  // end it had.
  method CrashAndOpen(p: Partition, tail: bytes) returns (r: Option<Partition>)
    requires p.Valid() && Continuous(Pieces(p.Segs())) && Torn(tail)
    ensures r.Some? <==> !(1 <= |tail| < 12)
    ensures r.Some? ==>
      && fresh(r.value) && r.value.Valid() && Pieces(r.value.Segs()) == Pieces(p.Segs())
      && r.value.Log() == p.Log() && r.value.nextOffset == p.nextOffset
  {
    hide Holds, AllHold, Segment.Valid, Partition.Valid, Pieces, Chained, Joined, AllValid, Continuous, Torn, Unbroken;
    ContinuousSegments(p);
    ActiveLimit(p);
    ghost var ps := Pieces(p.Segs());
    assert ps[|ps| - 1] == PieceOf(p.activeSegment);
    var files := FilesOf(p.closedSegments + [p.activeSegment], tail);
    FilesMatch(files, ps, tail);
    r := OpenPartition(files, p.maxSegmentBytes, p.indexInterval, ps, tail);
  }

  // A crash after a batch has been written to the log and before its index entry: the partition
  // opens with that batch too.
  method CrashBeforeIndex(p: Partition, raw: bytes) returns (r: Option<Partition>)
    requires p.Valid() && Continuous(Pieces(p.Segs())) && WellFormed(raw) && p.nextOffset < TWO_63
    requires |p.activeSegment.log| < TWO_32
    requires p.nextOffset + Delta(raw) + 1 - p.activeSegment.baseOffset < TWO_31
    ensures r.Some? && fresh(r.value) && r.value.Valid()
    ensures r.value.Log() == p.Log() + [Assigned(raw, p.nextOffset)]
    ensures r.value.nextOffset == p.nextOffset + Delta(raw) + 1
  {
    hide Holds, AllHold, Segment.Valid, Partition.Valid, Chained, Joined, AllValid, Continuous, Torn, Unbroken,
      Assigned, Delta, Base, LengthField, Pieces;
    ContinuousSegments(p);
    ActiveLimit(p);
    ghost var ps := Pieces(p.Segs());
    ghost var n := |ps| - 1;
    assert ps[n] == PieceOf(p.activeSegment);
    NothingTorn();
    ActiveLog(p);
    var files := FilesOf(p.closedSegments + [p.activeSegment], []);
    FilesMatch(files, ps, []);
    var f := files[|files| - 1];
    var written := Assigned(raw, p.nextOffset);
    ghost var grown := Piece(ps[n].base, p.nextOffset + Delta(raw) + 1, ps[n].batches + [written]);
    LastWritten(files, ps, raw, grown);
    var left := files[..|files| - 1] + [f.(log := f.log + written)];
    r := OpenPartition(left, p.maxSegmentBytes, p.indexInterval, ps[..n] + [grown], []);
    GrownLog(ps, grown, written);
  }

  lemma ActiveLog(p: Partition)
    requires p.Valid()
    ensures p.activeSegment.log == Flatten(p.activeSegment.batches)
  {
    hide Chained, Separate, InOrder, Sound, Flatten, Addressable;
    assert p.Segs()[|p.closedSegments|] == p.activeSegment;
  }

  lemma GrownLog(ps: seq<Piece>, grown: Piece, b: batch)
    requires ps != [] && grown.batches == ps[|ps| - 1].batches + [b]
    ensures Joined(ps[..|ps| - 1] + [grown]) == Joined(ps) + [b]
  {
    hide Joined;
    var n := |ps| - 1;
    assert ps[..n] + [ps[n]] == ps;
    JoinedAppend(ps[..n], ps[n]);
    JoinedAppend(ps[..n], grown);
    assert Joined(ps[..n]) + (ps[n].batches + [b]) == Joined(ps[..n]) + ps[n].batches + [b];
  }

  // The files with one more batch at the end of the last log hold it.
  lemma LastWritten(files: seq<SegmentFiles>, ps: seq<Piece>, raw: bytes, grown: Piece)
    requires AllHold(files, ps, []) && Chained(ps) && ps != [] && WellFormed(raw)
    requires var p := ps[|ps| - 1];
      && 0 <= p.next < TWO_63 && |Flatten(p.batches)| < TWO_32 && p.next + Delta(raw) + 1 - p.base < TWO_31
      && grown == Piece(p.base, p.next + Delta(raw) + 1, p.batches + [Assigned(raw, p.next)])
    ensures |files| == |ps| && var n := |ps| - 1;
      && AllHold(files[..n] + [files[n].(log := files[n].log + Assigned(raw, ps[n].next))], ps[..n] + [grown], [])
      && Chained(ps[..n] + [grown])
  {
    hide Holds, Assigned, Delta, InOrder, Base, LengthField;
    var n := |ps| - 1;
    assert Holds(files[n], ps[n], []);
    OneWritten(files[n], ps[n], raw);
    HeldInOrder(files[n].(log := files[n].log + Assigned(raw, ps[n].next)), grown);
  }

  lemma HeaderWhole(raw: bytes)
    requires WellFormed(raw)
    ensures |raw| >= HEADER_SIZE
  {
  }

  lemma OrderedFormed(bs: seq<batch>, base: int, next: int)
    requires InOrder(bs, base, next)
    ensures AllWellFormed(bs)
  {
  }

  lemma HeldInOrder(f: SegmentFiles, p: Piece)
    requires Holds(f, p, [])
    ensures InOrder(p.batches, p.base, p.next)
  {
    hide InOrder;
  }

  lemma OneWritten(f: SegmentFiles, p: Piece, raw: bytes)
    requires Holds(f, p, []) && WellFormed(raw)
    requires 0 <= p.next < TWO_63 && |Flatten(p.batches)| < TWO_32 && p.next + Delta(raw) + 1 - p.base < TWO_31
    ensures var b := Assigned(raw, p.next);
      Holds(f.(log := f.log + b), Piece(p.base, p.next + Delta(raw) + 1, p.batches + [b]), [])
  {
    hide Flatten, Sound, Addressable, DecodeEntries, Delta, Base, Assigned, Torn, WellFormed, Due, SparseIndex,
      InOrder, Span;
    assert |raw| >= HEADER_SIZE by { HeaderWhole(raw); }
    assert AllWellFormed(p.batches) by { OrderedFormed(p.batches, p.base, p.next); }
    var es := DecodeEntries(f.index, |f.index| / ENTRY_SIZE);
    var b := Assigned(raw, p.next);
    AppendKeeps(p.batches, raw, es, p.base, p.next, 0);
    SoundAppended(es, p.batches, b, p.base);
    UnbrokenAppend(p.batches, b, p.base, p.next);
    AssignedFields(raw, p.next);
    assert Flatten(p.batches) + [] + b == Flatten(p.batches) + b + [];
  }

  lemma FilesMatch(files: seq<SegmentFiles>, ps: seq<Piece>, tail: bytes)
    requires AllHold(files, ps, tail)
    ensures |files| == |ps|
  {
  }
}
