/**
 Key compaction: which records survive, what a log holds after they have been rewritten, and the
 two passes and the rewriting as the source runs them.
 */
module Compaction {
  import opened Bytes
  import opened BatchLog
  import opened OffsetIndex
  import opened Segments
  import opened Partitions
  import opened RecordBatches

  const BATCH_RECORDS := 500
  const BATCH_BYTES := 0x10_0000
  const READ_BYTES := 0x10_0000
  const MAX_KEY_BYTES := 0x1000_0000

  // ------------------------------------------------------------ what survives

  // A record without a key, or the last one of its key.
  predicate Latest(rs: seq<Record>, i: nat)
    requires i < |rs|
  {
    rs[i].key.None? || forall j :: i < j < |rs| ==> rs[j].key != rs[i].key
  }

  // The survivors among the first n records, in their order.
  function Survivors(rs: seq<Record>, n: nat): seq<Record>
    requires n <= |rs|
  {
    if n == 0 then [] else Survivors(rs, n - 1) + if Latest(rs, n - 1) then [rs[n - 1]] else []
  }

  function Kept(rs: seq<Record>): seq<Record> { Survivors(rs, |rs|) }

  // The latest record of a key.
  function LatestOf(rs: seq<Record>, k: bytes): Option<Record>
  {
    if rs == [] then None
    else if rs[|rs| - 1].key == Some(k) then Some(rs[|rs| - 1])
    else LatestOf(rs[..|rs| - 1], k)
  }

  lemma {:induction false} LatestOfIs(rs: seq<Record>, k: bytes) returns (i: int)
    ensures -1 <= i < |rs| && (forall j :: i < j < |rs| ==> rs[j].key != Some(k))
    ensures if i < 0 then LatestOf(rs, k) == None else rs[i].key == Some(k) && LatestOf(rs, k) == Some(rs[i])
    decreases |rs|
  {
    i := |rs| - 1;
    if rs != [] && rs[i].key != Some(k) { i := LatestOfIs(rs[..i], k); }
  }

  lemma {:induction false} SurvivorsLatest(rs: seq<Record>, n: nat, k: bytes, i: int)
    requires n <= |rs| && -1 <= i < |rs| && forall j :: i < j < |rs| ==> rs[j].key != Some(k)
    requires i >= 0 ==> rs[i].key == Some(k)
    ensures LatestOf(Survivors(rs, n), k) == if 0 <= i < n then Some(rs[i]) else None
    decreases n
  {
    if n > 0 {
      SurvivorsLatest(rs, n - 1, k, i);
      var front := Survivors(rs, n - 1);
      assert front + [] == front && (front + [rs[n - 1]])[..|front|] == front;
      assert rs[n - 1].key == Some(k) ==> (Latest(rs, n - 1) <==> i == n - 1);
    }
  }

  // Compaction changes no key's latest record.
  lemma KeptLatest(rs: seq<Record>, k: bytes)
    ensures LatestOf(Kept(rs), k) == LatestOf(rs, k)
  {
    hide Survivors, LatestOf;
    var i := LatestOfIs(rs, k);
    SurvivorsLatest(rs, |rs|, k, i);
  }

  // ------------------------------------------------------------ the plan

  // For each key among the first n records the index of its last record there.
  ghost predicate IsLast(last: map<bytes, nat>, rs: seq<Record>, n: nat)
    requires n <= |rs|
  {
    && (forall k :: k in last ==>
          last[k] < n && rs[last[k]].key == Some(k) && forall j :: last[k] < j < n ==> rs[j].key != Some(k))
    && (forall i :: 0 <= i < n && rs[i].key.Some? ==> rs[i].key.value in last)
  }

  function Nulls(rs: seq<Record>): nat
  {
    if rs == [] then 0 else Nulls(rs[..|rs| - 1]) + if rs[|rs| - 1].key.None? then 1 else 0
  }

  lemma LatestIsLast(last: map<bytes, nat>, rs: seq<Record>, i: nat)
    requires IsLast(last, rs, |rs|) && i < |rs|
    ensures rs[i].key.Some? ==> rs[i].key.value in last
    ensures Latest(rs, i) <==> rs[i].key.None? || last[rs[i].key.value] == i
  {
    if rs[i].key.Some? {
      var k := rs[i].key.value;
      assert k in last;
      if last[k] > i { assert rs[last[k]].key == rs[i].key; }
    }
  }

  // Keys whose last record is among the first n.
  ghost function Ended(last: map<bytes, nat>, n: nat): set<bytes> { set k | k in last && last[k] < n }

  lemma EndedStep(last: map<bytes, nat>, rs: seq<Record>, i: nat)
    requires IsLast(last, rs, |rs|) && i < |rs|
    ensures |Ended(last, i + 1)| == |Ended(last, i)| + if rs[i].key.Some? && Latest(rs, i) then 1 else 0
  {
    LatestIsLast(last, rs, i);
    if rs[i].key.Some? && Latest(rs, i) {
      assert Ended(last, i + 1) == Ended(last, i) + {rs[i].key.value};
    } else {
      assert Ended(last, i + 1) == Ended(last, i);
    }
  }

  lemma {:induction false} SurvivorCount(last: map<bytes, nat>, rs: seq<Record>, n: nat)
    requires IsLast(last, rs, |rs|) && n <= |rs|
    ensures |Survivors(rs, n)| == Nulls(rs[..n]) + |Ended(last, n)|
    decreases n
  {
    hide Ended, IsLast;
    if n == 0 {
      NoneEnded(last);
      assert rs[..0] == [];
    } else {
      SurvivorCount(last, rs, n - 1);
      EndedStep(last, rs, n - 1);
      assert rs[..n][..n - 1] == rs[..n - 1];
    }
  }

  lemma NoneEnded(last: map<bytes, nat>)
    ensures Ended(last, 0) == {}
  {
  }

  // The plan counts the survivors exactly.
  lemma PlannedIsKept(last: map<bytes, nat>, rs: seq<Record>)
    requires IsLast(last, rs, |rs|)
    ensures |Kept(rs)| == Nulls(rs) + |last|
  {
    hide Survivors, Nulls;
    SurvivorCount(last, rs, |rs|);
    assert rs[..|rs|] == rs;
    assert Ended(last, |rs|) == last.Keys;
  }

  lemma {:induction false} SurvivorsAll(rs: seq<Record>, n: nat)
    requires n <= |rs|
    ensures |Survivors(rs, n)| <= n && (|Survivors(rs, n)| == n ==> Survivors(rs, n) == rs[..n])
    decreases n
  {
    hide Latest;
    if n > 0 {
      SurvivorsAll(rs, n - 1);
      assert rs[..n] == rs[..n - 1] + [rs[n - 1]];
    }
  }

  // As many survivors as records means that every record survives.
  lemma CompactAlready(rs: seq<Record>)
    ensures |Kept(rs)| >= |rs| <==> Kept(rs) == rs
  {
    SurvivorsAll(rs, |rs|);
    assert rs[..|rs|] == rs;
  }

  // ------------------------------------------------------------ rewriting

  // What compaction is to preserve of a record: not its attributes, timestamp or offset.
  datatype Content = Content(key: Option<bytes>, value: Option<bytes>, headers: seq<Header>)

  function ContentOf(r: Record): Content { Content(r.key, r.value, r.headers) }

  function Contents(rs: seq<Record>): (cs: seq<Content>)
    ensures |cs| == |rs| && forall i :: 0 <= i < |rs| ==> cs[i] == ContentOf(rs[i])
  {
    seq(|rs|, i requires 0 <= i < |rs| => ContentOf(rs[i]))
  }

  // The record as the writer numbers it inside a batch.
  function Numbered(r: Record, i: int32): Record { Record(0, 0, i, r.key, r.value, r.headers) }

  function NumberedAll(rs: seq<Record>): (ns: seq<Record>)
    requires |rs| < TWO_31
    ensures |ns| == |rs| && forall i :: 0 <= i < |rs| ==> ns[i] == Numbered(rs[i], i)
  {
    seq(|rs|, i requires 0 <= i < |rs| => Numbered(rs[i], i))
  }

  // After being written and read back a record without a key has the empty key.
  lemma RewrittenContents(rs: seq<Record>)
    requires |rs| < TWO_31
    ensures Contents(AllReread(NumberedAll(rs))) == Contents(AllReread(rs))
  {
  }

  // The empty key's latest record is then the latest among those that had it and those that had none.
  function LatestOrNull(rs: seq<Record>): Option<Record>
  {
    if rs == [] then None
    else if rs[|rs| - 1].key.None? || rs[|rs| - 1].key == Some([]) then Some(rs[|rs| - 1])
    else LatestOrNull(rs[..|rs| - 1])
  }

  function RereadOption(r: Option<Record>): Option<Record> { if r.None? then None else Some(AsReread(r.value)) }

  // Rewriting keeps every key's latest record, except that the empty key also inherits the records
  // that had no key.
  lemma {:induction false} RereadLatest(rs: seq<Record>, k: bytes)
    ensures LatestOf(AllReread(rs), k) == if k == [] then RereadOption(LatestOrNull(rs)) else LatestOf(rs, k)
    decreases |rs|
  {
    if rs != [] {
      var n := |rs| - 1;
      assert AllReread(rs)[..n] == AllReread(rs[..n]);
      RereadLatest(rs[..n], k);
    }
  }

  lemma {:induction false} LatestConcat(a: seq<Record>, b: seq<Record>, k: bytes)
    ensures LatestOf(a + b, k) == if LatestOf(b, k).Some? then LatestOf(b, k) else LatestOf(a, k)
    ensures LatestOrNull(a + b) == if LatestOrNull(b).Some? then LatestOrNull(b) else LatestOrNull(a)
    decreases |b|
  {
    if b == [] {
      assert a + b == a;
    } else {
      var n := |b| - 1;
      assert (a + b)[..|a + b| - 1] == a + b[..n];
      LatestConcat(a, b[..n], k);
    }
  }

  lemma {:induction false} SurvivorsOrNull(rs: seq<Record>, n: nat)
    requires n <= |rs| && forall j :: n <= j < |rs| ==> rs[j].key.Some? && rs[j].key != Some([])
    ensures LatestOrNull(Survivors(rs, n)) == LatestOrNull(rs[..n])
    decreases n
  {
    if n > 0 {
      var front, r := Survivors(rs, n - 1), rs[n - 1];
      assert rs[..n][..n - 1] == rs[..n - 1];
      assert front + [] == front && (front + [r])[..|front|] == front;
      if r.key.Some? && r.key != Some([]) { SurvivorsOrNull(rs, n - 1); }
    }
  }

  function ContentOption(r: Option<Record>): Option<Content> { if r.None? then None else Some(ContentOf(r.value)) }

  lemma {:induction false} SameLatest(a: seq<Record>, b: seq<Record>, k: bytes)
    requires Contents(a) == Contents(b)
    ensures ContentOption(LatestOf(a, k)) == ContentOption(LatestOf(b, k))
    decreases |a|
  {
    assert |a| == |b| by { assert |Contents(a)| == |Contents(b)|; }
    if a != [] {
      var n := |a| - 1;
      assert Contents(a)[n] == Contents(b)[n];
      assert Contents(a[..n]) == Contents(a)[..n] && Contents(b[..n]) == Contents(b)[..n];
      SameLatest(a[..n], b[..n], k);
    }
  }

  // What compaction is for: whatever was appended while it ran, every key still has the latest
  // value it had. Only the empty key differs, since records without a key have become its own.
  lemma CompactionKeepsMeaning(snapshot: seq<Record>, tail: seq<Record>, installed: seq<Record>, k: bytes)
    requires Contents(installed) == Contents(AllReread(Kept(snapshot) + tail))
    ensures ContentOption(LatestOf(installed, k))
         == ContentOption(if k == [] then RereadOption(LatestOrNull(snapshot + tail)) else LatestOf(snapshot + tail, k))
  {
    hide LatestOf, LatestOrNull, Survivors, Contents, AllReread;
    var kept := Kept(snapshot);
    SameLatest(installed, AllReread(kept + tail), k);
    RereadLatest(kept + tail, k);
    LatestConcat(kept, tail, k);
    LatestConcat(snapshot, tail, k);
    KeptLatest(snapshot, k);
    SurvivorsOrNull(snapshot, |snapshot|);
    assert snapshot[..|snapshot|] == snapshot;
  }

  // ------------------------------------------------------------ compacting again

  predicate KeylessOrEmpty(r: Record) { r.key.None? || r.key == Some([]) }

  lemma {:induction false} SurvivorsAllLatest(rs: seq<Record>, n: nat)
    requires n <= |rs|
    ensures Survivors(rs, n) == rs[..n] <==> forall i :: 0 <= i < n ==> Latest(rs, i)
    decreases n
  {
    hide Latest;
    if n > 0 {
      SurvivorsAllLatest(rs, n - 1);
      SurvivorsAll(rs, n - 1);
      assert rs[..n] == rs[..n - 1] + [rs[n - 1]];
      var front := Survivors(rs, n - 1);
      if Survivors(rs, n) == rs[..n] {
        assert |Survivors(rs, n)| == n;
        assert front == rs[..n - 1];
      }
    }
  }

  ghost predicate OneOfEachKey(ks: seq<Record>)
  {
    forall i, j :: 0 <= i < j < |ks| && ks[i].key.Some? ==> ks[i].key != ks[j].key
  }

  // No two survivors have the same key.
  lemma {:induction false} SurvivorsDistinct(rs: seq<Record>, n: nat)
    requires n <= |rs|
    ensures OneOfEachKey(Survivors(rs, n))
    ensures forall r, j :: r in Survivors(rs, n) && n <= j < |rs| && r.key.Some? ==> r.key != rs[j].key
    decreases n
  {
    if n > 0 {
      SurvivorsDistinct(rs, n - 1);
      var front, ss, r := Survivors(rs, n - 1), Survivors(rs, n), rs[n - 1];
      if Latest(rs, n - 1) {
        assert ss == front + [r];
        forall i, j | 0 <= i < j < |ss| && ss[i].key.Some? ensures ss[i].key != ss[j].key {
          if j == |front| { assert ss[i] in front && ss[j] == r; }
        }
      } else {
        assert ss == front;
      }
    }
  }

  // A compacted log that has been read back is compact, and another compaction leaves it as it is,
  // exactly if at most one of its records has no key or the empty one.
  lemma CompactTwice(rs: seq<Record>)
    ensures Kept(AllReread(Kept(rs))) == AllReread(Kept(rs)) <==>
      forall i, j :: 0 <= i < j < |Kept(rs)| ==> !(KeylessOrEmpty(Kept(rs)[i]) && KeylessOrEmpty(Kept(rs)[j]))
  {
    hide Survivors, OneOfEachKey, Latest;
    var ks := Kept(rs);
    var again := AllReread(ks);
    SurvivorsDistinct(rs, |rs|);
    SurvivorsAllLatest(again, |again|);
    assert again[..|again|] == again;
    forall i | 0 <= i < |ks|
      ensures Latest(again, i) <==> forall j :: i < j < |ks| ==> !(KeylessOrEmpty(ks[i]) && KeylessOrEmpty(ks[j]))
    {
      RereadLatestAt(ks, i);
    }
  }

  lemma RereadLatestAt(ks: seq<Record>, i: nat)
    requires i < |ks| && OneOfEachKey(ks)
    ensures Latest(AllReread(ks), i) <==> forall j :: i < j < |ks| ==> !(KeylessOrEmpty(ks[i]) && KeylessOrEmpty(ks[j]))
  {
    var again := AllReread(ks);
    forall j | i < j < |ks| ensures again[j].key == again[i].key <==> KeylessOrEmpty(ks[i]) && KeylessOrEmpty(ks[j]) { }
  }

  // Records without a key survive one compaction, but the next one drops all but the last of them.
  lemma NullsCollapse(rs: seq<Record>)
    requires rs != [] && forall i :: 0 <= i < |rs| ==> rs[i].key.None?
    ensures Kept(rs) == rs && |Kept(AllReread(Kept(rs)))| == 1
  {
    hide Survivors;
    KeepsNulls(rs, |rs|);
    assert rs[..|rs|] == rs;
    KeepsOne(AllReread(rs), |rs|);
  }

  lemma {:induction false} KeepsNulls(rs: seq<Record>, n: nat)
    requires n <= |rs| && forall i :: 0 <= i < |rs| ==> rs[i].key.None?
    ensures Survivors(rs, n) == rs[..n]
    decreases n
  {
    if n > 0 {
      KeepsNulls(rs, n - 1);
      assert rs[..n] == rs[..n - 1] + [rs[n - 1]];
    }
  }

  lemma {:induction false} KeepsOne(rs: seq<Record>, n: nat)
    requires n <= |rs| && forall i :: 0 <= i < |rs| ==> rs[i].key == Some([])
    ensures Survivors(rs, n) == if n == |rs| && n > 0 then [rs[n - 1]] else []
    decreases n
  {
    if n > 0 {
      KeepsOne(rs, n - 1);
      if n < |rs| { assert rs[n].key == rs[n - 1].key; }
    }
  }

  // ------------------------------------------------------------ reading a log's records

  // Batches that decode, as the broker checks before appending them.
  ghost predicate AllDecode(bs: seq<batch>) { AllWellFormed(bs) && forall k :: 0 <= k < |bs| ==> Decoded(bs[k]).Some? }

  ghost function RecordsOf(bs: seq<batch>): seq<Record>
    requires AllDecode(bs)
  {
    if bs == [] then [] else RecordsOf(bs[..|bs| - 1]) + Decoded(bs[|bs| - 1]).value
  }

  lemma DecodeConcat(a: seq<batch>, b: seq<batch>)
    requires AllDecode(a) && AllDecode(b)
    ensures AllDecode(a + b)
  {
    hide Decoded, WellFormed;
  }

  lemma DecodeLast(bs: seq<batch>)
    requires AllDecode(bs) && bs != []
    ensures AllDecode(bs[..|bs| - 1]) && Decoded(bs[|bs| - 1]).Some?
    ensures RecordsOf(bs) == RecordsOf(bs[..|bs| - 1]) + Decoded(bs[|bs| - 1]).value
  {
    hide Decoded, WellFormed;
  }

  lemma {:induction false} RecordsOfConcat(a: seq<batch>, b: seq<batch>)
    requires AllDecode(a) && AllDecode(b)
    ensures AllDecode(a + b) && RecordsOf(a + b) == RecordsOf(a) + RecordsOf(b)
    decreases |b|
  {
    hide Decoded, AllDecode, RecordsOf;
    DecodeConcat(a, b);
    if b == [] {
      assert a + b == a;
      NoRecords();
      assert RecordsOf(a) + [] == RecordsOf(a);
    } else {
      var n := |b| - 1;
      DecodeLast(b);
      DecodeLast(a + b);
      assert (a + b)[..|a + b| - 1] == a + b[..n] && (a + b)[|a + b| - 1] == b[n];
      RecordsOfConcat(a, b[..n]);
    }
  }

  // The records of the batches that decode, and the offset after the last of these.
  ghost function RecordsIn(bs: seq<batch>): seq<Record>
  {
    if bs == [] then [] else
    var last := Decoded(bs[|bs| - 1]);
    RecordsIn(bs[..|bs| - 1]) + if last.Some? then last.value else []
  }

  ghost function EndOfDecoded(bs: seq<batch>, start: int): int
    requires AllWellFormed(bs)
  {
    if bs == [] then start
    else if Decoded(bs[|bs| - 1]).Some? then End(bs[|bs| - 1]) else EndOfDecoded(bs[..|bs| - 1], start)
  }

  lemma DecodedStep(bs: seq<batch>, k: nat, start: int)
    requires AllWellFormed(bs) && k < |bs|
    ensures var d := Decoded(bs[k]);
      && RecordsIn(bs[..k + 1]) == RecordsIn(bs[..k]) + (if d.Some? then d.value else [])
      && EndOfDecoded(bs[..k + 1], start) == if d.Some? then End(bs[k]) else EndOfDecoded(bs[..k], start)
  {
    hide Decoded, LengthField, Base, Delta;
    assert bs[..k + 1][..k] == bs[..k];
  }

  // If all of them decode, nothing is left out.
  lemma {:induction false} AllIn(bs: seq<batch>, start: int)
    requires AllDecode(bs)
    ensures RecordsIn(bs) == RecordsOf(bs) && EndOfDecoded(bs, start) == if bs == [] then start else End(bs[|bs| - 1])
    decreases |bs|
  {
    hide Decoded, LengthField, Base, Delta;
    if bs != [] { AllIn(bs[..|bs| - 1], start); }
  }

  // The whole batches in a chunk of the log; those that do not decode are passed over.
  method DecodeChunk(raw: bytes, start: int, ghost chunk: seq<batch>)
    returns (recs: seq<Record>, next: int, advanced: bool)
    requires AllWellFormed(chunk) && raw == Flatten(chunk)
    ensures recs == RecordsIn(chunk) && next == EndOfDecoded(chunk, start)
    ensures advanced <==> exists k :: 0 <= k < |chunk| && Decoded(chunk[k]).Some?
  {
    hide Decoded, Flatten, Word, Int32, Int64, Base, Delta, LengthField, RecordsIn, EndOfDecoded;
    recs, next, advanced := [], start, false;
    var pos := 0;
    ghost var k := 0;
    PosEnds(chunk);
    NoneDecoded(chunk, start);
    assert raw + [] == raw;
    while pos + 12 <= |raw|
      invariant k <= |chunk| && pos == Pos(chunk, k) && recs == RecordsIn(chunk[..k])
        && next == EndOfDecoded(chunk[..k], start)
      invariant advanced <==> exists j :: 0 <= j < k && Decoded(chunk[j]).Some?
      decreases |chunk| - k
    {
      NotAtEnd(chunk, k);
      HeaderAt(chunk, [], k);
      DecodedStep(chunk, k, start);
      if pos + HEADER_SIZE > |raw| || raw[pos + 16] != MAGIC {
        break;
      }
      var total: int := 12 + Int32(Word(raw, pos + 8, 4)) as int;
      if total <= 0 || pos + total > |raw| {
        break;
      }
      var b := raw[pos..pos + total];
      var decoded := Decoded(b);
      if decoded.Some? {
        recs := recs + decoded.value;
        advanced := true;
        next := Int64(Word(raw, pos, 8)) as int + Int32(Word(raw, pos + 23, 4)) as int + 1;
      } else {
        assert recs + [] == recs;
      }
      pos := pos + total;
      k := k + 1;
    }
    ChunkDone(chunk, k);
    assert chunk[..k] == chunk;
  }

  lemma NoneDecoded(chunk: seq<batch>, start: int)
    requires AllWellFormed(chunk)
    ensures RecordsIn(chunk[..0]) == [] && EndOfDecoded(chunk[..0], start) == start
  {
  }

  lemma ChunkDone(bs: seq<batch>, k: nat)
    requires AllWellFormed(bs) && k <= |bs| && Pos(bs, k) + 12 > |Flatten(bs)|
    ensures k == |bs|
  {
    hide Flatten, Base, Delta, LengthField;
    if k < |bs| { BatchAt(bs, k); }
  }

  lemma {:induction false} FromSplit(bs: seq<batch>, offset: int) returns (m: nat)
    requires AllWellFormed(bs)
    ensures m <= |bs| && From(bs, offset) == bs[m..] && forall j :: 0 <= j < m ==> LastOffset(bs[j]) < offset
    decreases |bs|
  {
    hide Base, Delta;
    m := 0;
    if bs != [] && LastOffset(bs[0]) < offset {
      m := FromSplit(bs[1..], offset);
      m := m + 1;
      assert bs[m..] == bs[1..][m - 1..];
    }
  }

  // After the first k of the batches from an offset on, the rest are those from the k-th one's end.
  lemma FromAfter(bs: seq<batch>, from: int, to: int, offset: int, k: nat)
    requires InOrder(bs, from, to) && 0 < k <= |From(bs, offset)|
    ensures From(bs, End(From(bs, offset)[k - 1])) == From(bs, offset)[k..]
    ensures from < End(From(bs, offset)[k - 1])
  {
    hide Base, Delta, From;
    var m := FromSplit(bs, offset);
    var next := End(bs[m + k - 1]);
    forall j | 0 <= j < m + k ensures LastOffset(bs[j]) < next {
      if j < m + k - 1 { assert End(bs[j]) <= Base(bs[m + k - 1]); }
    }
    if m + k < |bs| { assert next <= Base(bs[m + k]); }
    BelowIsPrefix(bs, next, m + k);
    assert bs[m..][k..] == bs[m + k..];
  }

  // One chunk of a reading and what is left after it.
  lemma ChunkStep(bs: seq<batch>, from: int, to: int, offset: int, limit: int)
    requires InOrder(bs, from, to) && limit > 0
    ensures var f, c := From(bs, offset), Scan(bs, offset, limit);
      && (c == [] <==> f == []) && |c| <= |f| && c == f[..|c|]
      && (c != [] ==> f[|c|..] == From(bs, End(c[|c| - 1])) && from < End(c[|c| - 1]))
  {
    hide Base, Delta, From, Flatten;
    var f, c := From(bs, offset), Scan(bs, offset, limit);
    FillingIsShortest(f, limit);
    if f != [] { FillingStep(f, limit); }
    if c != [] { FromAfter(bs, from, to, offset, |c|); }
  }

  lemma DecodeSlice(bs: seq<batch>, i: nat, j: nat)
    requires AllDecode(bs) && i <= j <= |bs|
    ensures AllDecode(bs[i..j])
  {
    hide Decoded, WellFormed;
  }

  lemma FromDecodes(bs: seq<batch>, offset: int)
    requires AllDecode(bs)
    ensures AllDecode(From(bs, offset))
  {
    hide Decoded, WellFormed, Base, Delta, From;
    var m := FromSplit(bs, offset);
    DecodeSlice(bs, m, |bs|);
    assert bs[m..] == bs[m..|bs|];
  }

  // What a reading from `from` has still to give once it has reached `next` and passed over the
  // first `late` batches for good.
  ghost predicate Reading(bs: seq<batch>, late: nat, from: int, done: seq<batch>, next: int)
    requires AllWellFormed(bs)
  {
    && late <= |bs| && (forall j :: 0 <= j < late ==> LastOffset(bs[j]) < next)
    && From(bs[late..], from) == done + From(bs, next)
  }

  lemma ReadingStarts(bs: seq<batch>, from: int)
    requires AllWellFormed(bs)
    ensures Reading(bs, 0, from, [], from)
  {
    assert bs[0..] == bs && [] + From(bs, from) == From(bs, from);
  }

  // The next chunk of a reading inside the segment's offsets.
  lemma NextChunk(bs: seq<batch>, base: int, to: int, late: nat, from: int, done: seq<batch>, next: int)
    requires InOrder(bs, base, to) && AllDecode(bs) && Reading(bs, late, from, done, next)
    ensures var c := Scan(bs, next, READ_BYTES);
      && AllDecode(c) && (c == [] ==> From(bs[late..], from) == done)
      && (c != [] ==> base < End(c[|c| - 1]) && |From(bs, End(c[|c| - 1]))| < |From(bs, next)|
                      && Reading(bs, late, from, done + c, End(c[|c| - 1])))
  {
    hide Decoded, LengthField, Base, Delta, From, Scan;
    var rest, c := From(bs, next), Scan(bs, next, READ_BYTES);
    ChunkStep(bs, base, to, next, READ_BYTES);
    FromDecodes(bs, next);
    DecodeSlice(rest, 0, |c|);
    assert rest[0..|c|] == c && done + [] == done;
    if c != [] {
      assert rest == c + rest[|c|..];
      assert done + (c + rest[|c|..]) == done + c + rest[|c|..];
      var m := FromSplit(bs, next);
      assert c[|c| - 1] == bs[m + |c| - 1];
      forall j | 0 <= j < late ensures LastOffset(bs[j]) < End(c[|c| - 1]) {
        assert LastOffset(bs[j]) < next;
        LastsGrow(bs, base, to, next, m + |c| - 1);
      }
    }
  }

  lemma LastsGrow(bs: seq<batch>, base: int, to: int, next: int, i: nat)
    requires InOrder(bs, base, to) && i < |bs| && From(bs, next) != [] && i >= |bs| - |From(bs, next)|
    ensures next <= LastOffset(bs[i])
  {
    hide Base, Delta, From;
    var m := FromSplit(bs, next);
    FromHead(bs, next);
    if m < i { assert End(bs[m]) <= Base(bs[i]); }
  }

  lemma {:induction false} FromHead(bs: seq<batch>, offset: int)
    requires AllWellFormed(bs) && From(bs, offset) != []
    ensures LastOffset(From(bs, offset)[0]) >= offset
    decreases |bs|
  {
    hide Base, Delta;
    if LastOffset(bs[0]) < offset { FromHead(bs[1..], offset); }
  }

  // The first chunk of a reading that begins below the segment and lands `late` batches into it.
  lemma FirstChunk(bs: seq<batch>, base: int, to: int, late: nat, from: int)
    requires InOrder(bs, base, to) && AllDecode(bs) && late <= |bs| && from < base
    ensures AllWellFormed(bs[late..])
    ensures var c := Scan(bs[late..], from, READ_BYTES);
      && AllDecode(c) && (c == [] ==> From(bs[late..], from) == [])
      && (c != [] ==> base < End(c[|c| - 1]) && |From(bs, End(c[|c| - 1]))| < |From(bs, from)|
                      && Reading(bs, late, from, c, End(c[|c| - 1])))
  {
    hide Decoded, LengthField, Base, Delta, From, Scan;
    var tail := bs[late..];
    InOrderSlice(bs, late, |bs|, base, to);
    DecodeSlice(bs, late, |bs|);
    assert tail == bs[late..|bs|];
    assert From(tail, from) == tail by { AllFromBelow(tail, base, to, from); }
    var c := Scan(tail, from, READ_BYTES);
    ChunkStep(tail, base, to, from, READ_BYTES);
    DecodeSlice(tail, 0, |c|);
    assert tail[0..|c|] == c;
    if c != [] {
      assert From(bs, from) == bs by { AllFromBelow(bs, base, to, from); }
      var next := End(c[|c| - 1]);
      assert c[|c| - 1] == bs[late + |c| - 1];
      forall j | 0 <= j < late ensures LastOffset(bs[j]) < next { assert End(bs[j]) <= Base(bs[late + |c| - 1]); }
      FromSkips(bs, next, late);
      assert tail == c + tail[|c|..];
    }
  }

  lemma AllFromBelow(bs: seq<batch>, base: int, to: int, offset: int)
    requires InOrder(bs, base, to) && offset <= base
    ensures From(bs, offset) == bs
  {
    hide Base, Delta;
  }

  // Every record of a segment from an offset on, read in chunks. If the segment begins above the
  // offset the first lookup may land on a later batch: the reading then starts `late` batches in.
  method ForEachBatchRange(seg: Segment, from: int, to: int) returns (recs: seq<Record>, ghost late: nat)
    requires seg.Valid() && to == seg.nextOffset && AllDecode(seg.batches)
    ensures late <= |seg.batches| && (seg.baseOffset <= from ==> late == 0) && AllDecode(seg.batches[late..])
    ensures AllDecode(From(seg.batches[late..], from)) && recs == RecordsOf(From(seg.batches[late..], from))
  {
    hide Decoded, WellFormed, Base, Delta, From, Flatten, Scan, Segment.Valid, InOrder, Reading, RecordsOf;
    ghost var bs, done: seq<batch> := seg.batches, [];
    SegmentFacts(seg);
    recs, late := [], 0;
    var next := from;
    ReadingStarts(bs, from);
    NoRecords();
    while next < to
      invariant late <= |bs| && (seg.baseOffset <= from ==> late == 0) && AllDecode(done) && recs == RecordsOf(done)
      invariant Reading(bs, late, from, done, next)
      invariant next < seg.baseOffset ==> next == from && done == [] && late == 0
      decreases |From(bs, next)|
    {
      var raw, k := seg.Read(next, READ_BYTES);
      ghost var chunk;
      if next < seg.baseOffset {
        late := k;
        FirstChunk(bs, seg.baseOffset, to, k, from);
        chunk := Scan(bs[k..], next, READ_BYTES);
        assert [] + chunk == chunk;
      } else {
        NextChunk(bs, seg.baseOffset, to, late, from, done, next);
        chunk := Scan(bs, next, READ_BYTES);
      }
      var more, after, advanced := DecodeChunk(raw, next, chunk);
      AllIn(chunk, next);
      SomeDecoded(chunk);
      if !advanced {
        ReadingEnds(bs, late, from, done);
        return;
      }
      RecordsOfConcat(done, chunk);
      done := done + chunk;
      recs := recs + more;
      next := after;
    }
    ReadingPast(bs, seg.baseOffset, to, late, from, done, next);
    ReadingEnds(bs, late, from, done);
  }

  lemma SomeDecoded(bs: seq<batch>)
    requires AllDecode(bs)
    ensures bs != [] <==> exists k :: 0 <= k < |bs| && Decoded(bs[k]).Some?
  {
    hide Decoded, WellFormed;
    assert bs != [] ==> Decoded(bs[0]).Some?;
  }

  lemma NoRecords()
    ensures RecordsOf([]) == []
  {
  }

  lemma ReadingPast(bs: seq<batch>, base: int, to: int, late: nat, from: int, done: seq<batch>, next: int)
    requires InOrder(bs, base, to) && Reading(bs, late, from, done, next) && to <= next
    ensures From(bs[late..], from) == done
  {
    hide From;
    FromPast(bs, base, to, next);
    assert done + [] == done;
  }

  lemma ReadingEnds(bs: seq<batch>, late: nat, from: int, done: seq<batch>)
    requires AllDecode(bs) && late <= |bs| && From(bs[late..], from) == done
    ensures AllDecode(bs[late..]) && AllDecode(From(bs[late..], from))
  {
    hide Decoded, WellFormed, From;
    DecodeSlice(bs, late, |bs|);
    assert bs[late..] == bs[late..|bs|];
    FromDecodes(bs[late..], from);
  }
}
