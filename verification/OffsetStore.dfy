/**
 The committed-offset store: offsets in memory, a snapshot file replaced atomically, and the
 write-ahead log. `State` is the store under its two locks, one step per critical section or file
 operation, so that a crash may fall between any two of them; `hist` and `settled` say what the
 callers know. The class below the state machine is the store as one caller at a time runs it.
 */
module OffsetStore {
  import opened Bytes
  import opened OffsetWal

  const COMPACT_THRESHOLD := 1024

  datatype Key = Key(group: bytes, topic: bytes, partition: int32)

  datatype Committed = Committed(offset: int64, metadata: Option<bytes>, leaderEpoch: int32, updatedAt: int64)

  type Offsets = map<Key, Committed>

  function KeyOf(r: WalRecord): Key { Key(r.group, r.topic, r.partition) }

  function ValueOf(r: WalRecord): Committed { Committed(r.offset, r.metadata, r.leaderEpoch, r.timestamp) }

  function Get(m: Offsets, k: Key): Option<Committed> { if k in m then Some(m[k]) else None }

  // The offsets after replaying records over m, later records winning.
  function Applied(m: Offsets, rs: seq<WalRecord>): (r: Offsets)
  {
    if rs == [] then m else Applied(m, rs[..|rs| - 1])[KeyOf(rs[|rs| - 1]) := ValueOf(rs[|rs| - 1])]
  }

  // No record after the i-th is of the same group, topic and partition.
  predicate LastOfKey(rs: seq<WalRecord>, i: nat)
  {
    && i < |rs|
    && forall j :: i < j < |rs| ==>
         !(rs[j].group == rs[i].group && rs[j].topic == rs[i].topic && rs[j].partition == rs[i].partition)
  }

  predicate About(r: WalRecord, k: Key) { r.group == k.group && r.topic == k.topic && r.partition == k.partition }

  // The offsets have taken the records in: the last one of each group, topic and partition is there,
  // field by field, and everything else is as it was.
  ghost predicate Took(before: Offsets, after: Offsets, rs: seq<WalRecord>)
  {
    && (forall i: nat :: LastOfKey(rs, i) ==>
          var r := rs[i];
          Get(after, Key(r.group, r.topic, r.partition))
          == Some(Committed(r.offset, r.metadata, r.leaderEpoch, r.timestamp)))
    && (forall k :: (forall i :: 0 <= i < |rs| ==> !About(rs[i], k)) ==> Get(after, k) == Get(before, k))
  }

  lemma {:induction false} AppliedLast(m: Offsets, rs: seq<WalRecord>, i: nat)
    requires LastOfKey(rs, i)
    ensures var r := rs[i];
      Get(Applied(m, rs), Key(r.group, r.topic, r.partition))
      == Some(Committed(r.offset, r.metadata, r.leaderEpoch, r.timestamp))
    decreases |rs|
  {
    var n := |rs| - 1;
    if i < n {
      assert KeyOf(rs[n]) != KeyOf(rs[i]);
      AppliedLast(m, rs[..n], i);
    }
  }

  lemma {:induction false} AppliedOther(m: Offsets, rs: seq<WalRecord>, k: Key)
    requires forall i :: 0 <= i < |rs| ==> !About(rs[i], k)
    ensures Get(Applied(m, rs), k) == Get(m, k)
    decreases |rs|
  {
    if rs != [] {
      assert !About(rs[|rs| - 1], k);
      AppliedOther(m, rs[..|rs| - 1], k);
    }
  }

  lemma AppliedTook(m: Offsets, rs: seq<WalRecord>)
    ensures Took(m, Applied(m, rs), rs)
  {
    hide Applied, About;
    forall i: nat | LastOfKey(rs, i)
      ensures var r := rs[i];
        Get(Applied(m, rs), Key(r.group, r.topic, r.partition))
        == Some(Committed(r.offset, r.metadata, r.leaderEpoch, r.timestamp))
    {
      AppliedLast(m, rs, i);
    }
    forall k | forall i :: 0 <= i < |rs| ==> !About(rs[i], k) ensures Get(Applied(m, rs), k) == Get(m, k) {
      AppliedOther(m, rs, k);
    }
  }

  // ------------------------------------------------------------ the concurrent store

  // One change of the offsets in memory, under `mu`.
  datatype Write = Put(record: WalRecord) | Drop(key: Key)
  {
    function Target(): Key { if Put? then KeyOf(record) else key }

    function Effect(): Option<Committed> { if Put? then Some(ValueOf(record)) else None }
  }

  datatype Lock =
    | Free
    | Appending(from: nat, batch: seq<WalRecord>, written: nat)     // a commit writing its records to the log
    | Snapshotting(buf: Offsets, at: nat, own: Option<nat>)          // a compaction that has encoded the offsets
    | Resetting(own: Option<nat>)                                    // ... and has installed the snapshot

  // The log file holds `wal`, then, if a crash has cut a record short, the torn part of it, and
  // behind that whatever has been appended since: opening the file does not cut the tail off.
  // `base` and `hist` are what memory held at the last start and every change of it since. An
  // operation is named by the place of its first change in `hist`: `waiting` are the commits yet to
  // come to the log, `removing` the removals, with the number of their changes, whose own
  // compaction is not over, and `settled` the changes whose operation may return. `snapAt` and `tag`
  // say how much of `hist` the snapshot has taken in, and the last record in the log of each key.
  datatype State = State(
    mem: Offsets, snap: Offsets, wal: seq<WalRecord>, torn: bool, behind: seq<WalRecord>, lock: Lock,
    base: Offsets, hist: seq<Write>, waiting: map<nat, seq<WalRecord>>, removing: map<nat, nat>,
    settled: set<nat>, snapAt: nat, tag: map<Key, nat>)

  // What a restart would find. A replay does not get past a torn record.
  function Recovered(s: State): Offsets { Applied(s.snap, s.wal) }

  datatype Op =
    | CommitMemory(batch: seq<WalRecord>) | AppendBegin(from: nat) | AppendRecord | CommitReturn
    | EncodeSnapshot(own: Option<nat>)  // by a removal, or because the log has grown
    | InstallSnapshot | ResetLog
    | RemoveMemory(keys: seq<Key>)
    | RemoveAbsent(keys: seq<Key>)     // a removal that finds nothing in memory and returns at once
    | Restart(cut: bool)               // a crash, cutting short the record being written or not

  function KeysOf(batch: seq<WalRecord>): set<Key> { set i | 0 <= i < |batch| :: KeyOf(batch[i]) }

  function Puts(batch: seq<WalRecord>): (r: seq<Write>)
    ensures |r| == |batch| && forall i :: 0 <= i < |r| ==> r[i] == Put(batch[i])
  {
    seq(|batch|, i requires 0 <= i < |batch| => Put(batch[i]))
  }

  function Drops(keys: seq<Key>): (r: seq<Write>)
    ensures |r| == |keys| && forall i :: 0 <= i < |r| ==> r[i] == Drop(keys[i])
  {
    seq(|keys|, i requires 0 <= i < |keys| => Drop(keys[i]))
  }

  function Range(from: nat, count: nat): (r: set<nat>)
    ensures forall n :: n in r <==> from <= n < from + count
  {
    if count == 0 then {} else Range(from, count - 1) + {from + count - 1}
  }

  predicate Enabled(s: State, op: Op)
  {
    match op
    case CommitMemory(batch) => batch != []
    case AppendBegin(from) => s.lock.Free? && from in s.waiting
    case AppendRecord => s.lock.Appending? && s.lock.written < |s.lock.batch|
    case CommitReturn => s.lock.Appending? && s.lock.written == |s.lock.batch|
    case EncodeSnapshot(own) => s.lock.Free? && (own.Some? ==> own.value in s.removing)
    case InstallSnapshot => s.lock.Snapshotting?
    case ResetLog => s.lock.Resetting? && (s.lock.own.Some? ==> s.lock.own.value in s.removing)
    case RemoveMemory(keys) => keys != []
    case RemoveAbsent(keys) => forall k :: k in keys ==> k !in s.mem
    case Restart(cut) => cut ==> s.lock.Appending? && s.lock.written < |s.lock.batch|
  }

  function Opened(snap: Offsets, wal: seq<WalRecord>): State
  {
    State(Applied(snap, wal), snap, wal, false, [], Free, Applied(snap, wal), [], map[], map[], {}, 0,
          map k | k in KeysOf(wal) :: 0)
  }

  function Appended(s: State): State
    requires s.lock.Appending? && s.lock.written < |s.lock.batch|
  {
    var r, n := s.lock.batch[s.lock.written], s.lock.from + s.lock.written;
    var s' := s.(lock := s.lock.(written := s.lock.written + 1));
    if s.torn then s'.(behind := s.behind + [r]) else s'.(wal := s.wal + [r], tag := s.tag[KeyOf(r) := n + 1])
  }

  function Reset(s: State): State
    requires s.lock.Resetting? && (s.lock.own.Some? ==> s.lock.own.value in s.removing)
  {
    var s' := s.(wal := [], torn := false, behind := [], tag := map[], lock := Free);
    match s.lock.own
    case None => s'
    case Some(n) => s'.(settled := s.settled + Range(n, s.removing[n]), removing := s.removing - {n})
  }

  function Next(s: State, op: Op): State
    requires Enabled(s, op)
  {
    match op
    case CommitMemory(batch) =>
      s.(mem := Applied(s.mem, batch), hist := s.hist + Puts(batch), waiting := s.waiting[|s.hist| := batch])
    case AppendBegin(from) =>
      s.(lock := Appending(from, s.waiting[from], 0), waiting := s.waiting - {from})
    case AppendRecord => Appended(s)
    case CommitReturn => s.(settled := s.settled + Range(s.lock.from, |s.lock.batch|), lock := Free)
    case EncodeSnapshot(own) => s.(lock := Snapshotting(s.mem, |s.hist|, own))
    case InstallSnapshot => s.(snap := s.lock.buf, snapAt := s.lock.at, lock := Resetting(s.lock.own))
    case ResetLog => Reset(s)
    case RemoveMemory(keys) =>
      s.(mem := s.mem - (set k | k in keys), hist := s.hist + Drops(keys),
         removing := s.removing[|s.hist| := |keys|])
    case RemoveAbsent(keys) => s
    case Restart(cut) => Opened(s.snap, s.wal).(torn := s.torn || cut, behind := s.behind)
  }

  // ------------------------------------------------------------ what every step keeps

  // What a key is after the first t changes.
  function ValueAt(base: Offsets, hist: seq<Write>, t: nat, k: Key): Option<Committed>
    requires t <= |hist|
  {
    if t == 0 then Get(base, k)
    else if hist[t - 1].Target() == k then hist[t - 1].Effect()
    else ValueAt(base, hist, t - 1, k)
  }

  // How many changes the files have taken in, as far as one key goes.
  function Held(s: State, k: Key): nat { if k in s.tag then s.tag[k] else s.snapAt }

  // The records of a commit are its changes.
  predicate Places(hist: seq<Write>, from: nat, batch: seq<WalRecord>)
  {
    from + |batch| <= |hist| && forall i :: 0 <= i < |batch| ==> hist[from + i] == Put(batch[i])
  }

  // A removal's compaction has encoded the offsets after the removal changed them.
  predicate Covers(s: State, own: Option<nat>, at: nat)
  {
    own.Some? ==> own.value in s.removing && own.value + s.removing[own.value] <= at
  }

  predicate Shape(s: State)
  {
    && s.snapAt <= |s.hist|
    && (forall f :: f in s.waiting ==> Places(s.hist, f, s.waiting[f]))
    && (forall f :: f in s.removing ==> f < f + s.removing[f] <= |s.hist|)
    && (forall n :: n in s.settled ==> n < |s.hist|)
    && (match s.lock
        case Free => true
        case Appending(from, batch, written) => Places(s.hist, from, batch) && written <= |batch| && !s.torn
        case Snapshotting(buf, at, own) => s.snapAt <= at <= |s.hist| && Covers(s, own, at)
        case Resetting(own) => Covers(s, own, s.snapAt))
  }

  // The files show a key as it was after some of the changes, and every change of it that has been
  // acknowledged is among those.
  predicate KeyInv(s: State, k: Key)
    requires Shape(s)
  {
    && Get(s.mem, k) == ValueAt(s.base, s.hist, |s.hist|, k)
    && (k in s.tag <==> k in KeysOf(s.wal))
    && Held(s, k) <= |s.hist|
    && Get(Recovered(s), k) == ValueAt(s.base, s.hist, Held(s, k), k)
    && (forall n :: n in s.settled && s.hist[n].Target() == k ==> n < Held(s, k))
    && LockInv(s, k)
  }

  predicate LockInv(s: State, k: Key)
    requires Shape(s)
  {
    match s.lock
    case Free => true
    case Appending(from, batch, written) =>
      forall i :: 0 <= i < written && KeyOf(batch[i]) == k ==> from + i < Held(s, k)
    case Snapshotting(buf, at, own) => Get(buf, k) == ValueAt(s.base, s.hist, at, k) && Held(s, k) <= at
    case Resetting(own) => Get(s.snap, k) == ValueAt(s.base, s.hist, s.snapAt, k) && Held(s, k) <= s.snapAt
  }

  predicate Inv(s: State, k: Key) { Shape(s) && s.behind == [] && KeyInv(s, k) }

  // An acknowledged change of the key came after change n.
  predicate Overtaken(s: State, n: nat, k: Key)
  {
    exists m :: m in s.settled && n < m < |s.hist| && s.hist[m].Target() == k
  }

  // What goes wrong is to append to a log whose last record is torn, and to append a commit of a
  // key after a later change of that key has been acknowledged.
  predicate Careful(s: State, op: Op, k: Key)
    requires Enabled(s, op)
  {
    && (op.AppendBegin? ==> !s.torn)
    && (op.AppendRecord? && KeyOf(s.lock.batch[s.lock.written]) == k ==>
          !Overtaken(s, s.lock.from + s.lock.written, k))
  }

  lemma {:induction false} AppliedKeys(m: Offsets, rs: seq<WalRecord>, k: Key)
    ensures k !in KeysOf(rs) ==> Get(Applied(m, rs), k) == Get(m, k)
    decreases |rs|
  {
    if rs != [] {
      var n := |rs| - 1;
      AppliedKeys(m, rs[..n], k);
      assert rs[..n][..] == rs[..n];
      assert KeyOf(rs[n]) in KeysOf(rs);
      assert forall i :: 0 <= i < n ==> KeyOf(rs[..n][i]) == KeyOf(rs[i]);
    }
  }

  // A key the records mention takes its value from them, whatever they are replayed over.
  lemma {:induction false} AppliedOver(m: Offsets, m': Offsets, rs: seq<WalRecord>, k: Key)
    requires k in KeysOf(rs)
    ensures k in Applied(m, rs) && Get(Applied(m, rs), k) == Get(Applied(m', rs), k)
    decreases |rs|
  {
    var n := |rs| - 1;
    if k != KeyOf(rs[n]) {
      var i :| 0 <= i < |rs| && KeyOf(rs[i]) == k;
      assert KeyOf(rs[..n][i]) == k;
      AppliedOver(m, m', rs[..n], k);
    }
  }

  lemma AppliedOne(m: Offsets, rs: seq<WalRecord>, r: WalRecord)
    ensures Applied(m, rs + [r]) == Applied(m, rs)[KeyOf(r) := ValueOf(r)]
  {
    assert (rs + [r])[..|rs|] == rs;
  }

  lemma KeysOne(rs: seq<WalRecord>, r: WalRecord)
    ensures KeysOf(rs + [r]) == KeysOf(rs) + {KeyOf(r)}
  {
    forall k | k in KeysOf(rs) + {KeyOf(r)} ensures k in KeysOf(rs + [r]) {
      if k in KeysOf(rs) {
        var i :| 0 <= i < |rs| && KeyOf(rs[i]) == k;
        assert (rs + [r])[i] == rs[i];
      } else {
        assert (rs + [r])[|rs|] == r;
      }
    }
  }

  // Later changes leave earlier ones as they were.
  lemma {:induction false} ValuePrefix(base: Offsets, hist: seq<Write>, more: seq<Write>, t: nat, k: Key)
    requires t <= |hist|
    ensures ValueAt(base, hist + more, t, k) == ValueAt(base, hist, t, k)
    decreases t
  {
    if t > 0 { ValuePrefix(base, hist, more, t - 1, k); }
  }

  // Changes of other keys do not matter.
  lemma {:induction false} ValueSkips(base: Offsets, hist: seq<Write>, t: nat, u: nat, k: Key)
    requires t <= u <= |hist| && forall n :: t <= n < u ==> hist[n].Target() != k
    ensures ValueAt(base, hist, u, k) == ValueAt(base, hist, t, k)
    decreases u
  {
    if t < u { ValueSkips(base, hist, t, u - 1, k); }
  }

  lemma {:induction false} ValuePuts(base: Offsets, hist: seq<Write>, m: Offsets, batch: seq<WalRecord>, k: Key)
    requires Get(m, k) == ValueAt(base, hist, |hist|, k)
    ensures Get(Applied(m, batch), k) == ValueAt(base, hist + Puts(batch), |hist| + |batch|, k)
    decreases |batch|
  {
    if batch == [] {
      ValuePrefix(base, hist, [], |hist|, k);
      assert hist + Puts(batch) == hist + [];
    } else {
      var n := |batch| - 1;
      ValuePuts(base, hist, m, batch[..n], k);
      assert hist + Puts(batch) == (hist + Puts(batch[..n])) + [Put(batch[n])];
      ValuePrefix(base, hist + Puts(batch[..n]), [Put(batch[n])], |hist| + n, k);
    }
  }

  lemma {:induction false} ValueDrops(base: Offsets, hist: seq<Write>, keys: seq<Key>, k: Key)
    ensures ValueAt(base, hist + Drops(keys), |hist| + |keys|, k)
         == if k in keys then None else ValueAt(base, hist, |hist|, k)
    decreases |keys|
  {
    if keys == [] {
      ValuePrefix(base, hist, [], |hist|, k);
      assert hist + Drops(keys) == hist + [];
    } else {
      var n := |keys| - 1;
      ValueDrops(base, hist, keys[..n], k);
      assert k in keys <==> k in keys[..n] || k == keys[n] by { assert keys == keys[..n] + [keys[n]]; }
      assert hist + Drops(keys) == (hist + Drops(keys[..n])) + [Drop(keys[n])];
      ValuePrefix(base, hist + Drops(keys[..n]), [Drop(keys[n])], |hist| + n, k);
    }
  }

  lemma ShapeKept(s: State, op: Op)
    requires Shape(s) && Enabled(s, op) && (op.AppendBegin? ==> !s.torn)
    ensures Shape(Next(s, op))
  {
    hide Shape, Next, Enabled;
    match op
    case CommitMemory(batch) => ShapeCommit(s, batch);
    case RemoveMemory(keys) => ShapeRemove(s, keys);
    case ResetLog => ShapeReset(s);
    case AppendRecord => ShapeLog(s, op);
    case CommitReturn => ShapeLog(s, op);
    case _ => ShapeRest(s, op);
  }

  lemma ShapeCommit(s: State, batch: seq<WalRecord>)
    requires Shape(s) && Enabled(s, CommitMemory(batch))
    ensures Shape(Next(s, CommitMemory(batch)))
  {
    hide Applied, KeysOf;
    PlacesMore(s, Puts(batch));
  }

  lemma ShapeRemove(s: State, keys: seq<Key>)
    requires Shape(s) && Enabled(s, RemoveMemory(keys))
    ensures Shape(Next(s, RemoveMemory(keys)))
  {
    hide Applied, KeysOf, Places;
    PlacesMore(s, Drops(keys));
  }

  lemma ShapeLog(s: State, op: Op)
    requires Shape(s) && Enabled(s, op) && (op.AppendRecord? || op.CommitReturn?)
    ensures Shape(Next(s, op))
  {
    hide Applied, KeysOf;
  }

  lemma ShapeRest(s: State, op: Op)
    requires Shape(s) && Enabled(s, op) && (op.AppendBegin? ==> !s.torn)
    requires op.AppendBegin? || op.EncodeSnapshot? || op.InstallSnapshot? || op.RemoveAbsent? || op.Restart?
    ensures Shape(Next(s, op))
  {
    hide Applied, KeysOf, Places;
  }

  lemma PlacesMore(s: State, more: seq<Write>)
    requires Shape(s)
    ensures forall f :: f in s.waiting ==> Places(s.hist + more, f, s.waiting[f])
    ensures s.lock.Appending? ==> Places(s.hist + more, s.lock.from, s.lock.batch)
  {
  }

  lemma ShapeReset(s: State)
    requires Shape(s) && Enabled(s, ResetLog)
    ensures Shape(Next(s, ResetLog))
  {
    hide Applied, KeysOf, Places;
  }

  // A step that only adds changes and leaves the files alone.
  lemma KeepsMemory(s: State, s': State, more: seq<Write>, k: Key)
    requires Shape(s) && Shape(s') && KeyInv(s, k)
    requires s'.hist == s.hist + more
      && s' == s.(mem := s'.mem, hist := s'.hist, waiting := s'.waiting, removing := s'.removing)
    requires Get(s'.mem, k) == ValueAt(s'.base, s'.hist, |s'.hist|, k)
    ensures KeyInv(s', k)
  {
    hide Applied, KeysOf, ValueAt, Places, Covers;
    ValuePrefix(s.base, s.hist, more, Held(s, k), k);
    if s.lock.Snapshotting? { ValuePrefix(s.base, s.hist, more, s.lock.at, k); }
    ValuePrefix(s.base, s.hist, more, s.snapAt, k);
  }

  lemma KeepsCommitMemory(s: State, batch: seq<WalRecord>, k: Key)
    requires Inv(s, k) && Enabled(s, CommitMemory(batch)) && Shape(Next(s, CommitMemory(batch)))
    ensures KeyInv(Next(s, CommitMemory(batch)), k)
  {
    hide Applied, KeysOf, ValueAt, Shape, LockInv;
    ValuePuts(s.base, s.hist, s.mem, batch, k);
    KeepsMemory(s, Next(s, CommitMemory(batch)), Puts(batch), k);
  }

  lemma KeepsRemoveMemory(s: State, keys: seq<Key>, k: Key)
    requires Inv(s, k) && Enabled(s, RemoveMemory(keys)) && Shape(Next(s, RemoveMemory(keys)))
    ensures KeyInv(Next(s, RemoveMemory(keys)), k)
  {
    hide Applied, KeysOf, ValueAt, Shape, LockInv;
    ValueDrops(s.base, s.hist, keys, k);
    KeepsMemory(s, Next(s, RemoveMemory(keys)), Drops(keys), k);
  }

  // Appending a record keeps the invariant of its key exactly if no later change of the key has
  // been acknowledged, and that of every other key always.
  lemma KeepsAppendRecord(s: State, k: Key)
    requires Inv(s, k) && Enabled(s, AppendRecord) && Shape(Next(s, AppendRecord))
    ensures KeyInv(Next(s, AppendRecord), k) <==> Careful(s, AppendRecord, k)
  {
    hide Applied, KeysOf, ValueOf, Covers;
    var r := s.lock.batch[s.lock.written];
    AppliedOne(s.snap, s.wal, r);
    KeysOne(s.wal, r);
    assert s.hist[s.lock.from + s.lock.written] == Put(r);
  }

  lemma KeepsCommitReturn(s: State, k: Key)
    requires Inv(s, k) && Enabled(s, CommitReturn) && Shape(Next(s, CommitReturn))
    ensures KeyInv(Next(s, CommitReturn), k)
  {
    hide Applied, KeysOf, ValueAt, Covers;
    var from := s.lock.from;
    forall n | n in Range(from, |s.lock.batch|) && s.hist[n].Target() == k ensures n < Held(s, k) {
      assert s.hist[from + (n - from)] == Put(s.lock.batch[n - from]);
    }
  }

  lemma KeepsInstall(s: State, k: Key)
    requires Inv(s, k) && Enabled(s, InstallSnapshot) && Shape(Next(s, InstallSnapshot))
    ensures KeyInv(Next(s, InstallSnapshot), k)
  {
    hide Applied, KeysOf, ValueAt, Places, Covers;
    if k in KeysOf(s.wal) {
      AppliedOver(s.snap, s.lock.buf, s.wal, k);
    } else {
      AppliedKeys(s.lock.buf, s.wal, k);
    }
  }

  lemma KeepsReset(s: State, k: Key)
    requires Inv(s, k) && Enabled(s, ResetLog) && Shape(Next(s, ResetLog))
    ensures KeyInv(Next(s, ResetLog), k)
  {
    hide Applied, ValueAt, Places;
    AppliedNone(s.snap);
  }

  lemma OpenedInv(snap: Offsets, wal: seq<WalRecord>, k: Key)
    ensures Inv(Opened(snap, wal), k)
  {
    hide Applied, KeysOf;
  }

  lemma KeepsRestart(s: State, cut: bool, k: Key)
    requires Inv(s, k) && Enabled(s, Restart(cut))
    ensures Inv(Next(s, Restart(cut)), k)
  {
    hide Applied, KeysOf, ValueAt;
    OpenedInv(s.snap, s.wal, k);
  }

  // A step of the store keeps the invariant of a key if and only if it is careful.
  lemma StepKeeps(s: State, op: Op, k: Key)
    requires Inv(s, k) && Enabled(s, op)
    ensures Inv(Next(s, op), k) <==> Careful(s, op, k)
  {
    hide KeyInv, Places, Covers, Applied, KeysOf, Puts, Drops;
    if op.AppendBegin? && s.torn { return; }
    ShapeKept(s, op);
    match op
    case CommitMemory(batch) => KeepsCommitMemory(s, batch, k);
    case RemoveMemory(keys) => KeepsRemoveMemory(s, keys, k);
    case AppendRecord => KeepsAppendRecord(s, k);
    case CommitReturn => KeepsCommitReturn(s, k);
    case InstallSnapshot => KeepsInstall(s, k);
    case ResetLog => KeepsReset(s, k);
    case Restart(cut) => KeepsRestart(s, cut, k);
    case AppendBegin(from) => KeepsBegin(s, op, k);
    case EncodeSnapshot(own) => KeepsBegin(s, op, k);
    case RemoveAbsent(keys) =>
  }

  lemma KeepsBegin(s: State, op: Op, k: Key)
    requires Inv(s, k) && Enabled(s, op) && (op.AppendBegin? || op.EncodeSnapshot?) && Shape(Next(s, op))
    ensures KeyInv(Next(s, op), k)
  {
    hide Applied, KeysOf, ValueAt, Places, Covers;
  }

  // ------------------------------------------------------------ whole runs

  ghost predicate Runs(s: State, ops: seq<Op>)
    decreases |ops|
  {
    ops == [] || (Enabled(s, ops[0]) && Runs(Next(s, ops[0]), ops[1..]))
  }

  ghost function After(s: State, ops: seq<Op>): State
    requires Runs(s, ops)
    decreases |ops|
  {
    if ops == [] then s else After(Next(s, ops[0]), ops[1..])
  }

  ghost predicate CarefulRun(s: State, ops: seq<Op>, k: Key)
    requires Runs(s, ops)
    decreases |ops|
  {
    ops == [] || (Careful(s, ops[0], k) && CarefulRun(Next(s, ops[0]), ops[1..], k))
  }

  lemma {:induction false} RunKeeps(s: State, ops: seq<Op>, k: Key)
    requires Inv(s, k) && Runs(s, ops) && CarefulRun(s, ops, k)
    ensures Inv(After(s, ops), k)
    decreases |ops|
  {
    hide Inv, Next, Enabled, Careful;
    if ops != [] {
      StepKeeps(s, ops[0], k);
      RunKeeps(Next(s, ops[0]), ops[1..], k);
    }
  }

  // However many commits and removals of a key are in flight, and wherever their run is cut by a
  // crash: the restart shows the key as it was in memory at some moment no earlier than its last
  // acknowledged change, and as it is in memory when all its changes are acknowledged. This takes
  // that nothing was appended to a torn log, and no commit of the key after a later change of it
  // had been acknowledged.
  lemma CrashSafe(snap: Offsets, wal: seq<WalRecord>, ops: seq<Op>, k: Key)
    requires Runs(Opened(snap, wal), ops) && CarefulRun(Opened(snap, wal), ops, k)
    ensures var s := After(Opened(snap, wal), ops);
      && (exists t: nat :: t <= |s.hist| && Get(Recovered(s), k) == ValueAt(s.base, s.hist, t, k)
            && forall n :: n in s.settled && n < |s.hist| && s.hist[n].Target() == k ==> n < t)
      && Get(s.mem, k) == ValueAt(s.base, s.hist, |s.hist|, k)
      && ((forall n: nat :: n < |s.hist| && s.hist[n].Target() == k ==> n in s.settled)
          ==> Get(Recovered(s), k) == Get(s.mem, k))
  {
    hide Runs, After, Opened, Recovered, CarefulRun, ValueAt;
    OpenedInv(snap, wal, k);
    RunKeeps(Opened(snap, wal), ops, k);
    var s := After(Opened(snap, wal), ops);
    if forall n: nat :: n < |s.hist| && s.hist[n].Target() == k ==> n in s.settled {
      ValueSkips(s.base, s.hist, Held(s, k), |s.hist|, k);
    }
  }

  lemma {:induction false} RunsOn(s: State, ops: seq<Op>, more: seq<Op>)
    requires Runs(s, ops) && Runs(After(s, ops), more)
    ensures Runs(s, ops + more) && After(s, ops + more) == After(After(s, ops), more)
    decreases |ops|
  {
    hide Next, Enabled;
    if ops == [] {
      assert ops + more == more;
    } else {
      assert (ops + more)[1..] == ops[1..] + more;
      RunsOn(Next(s, ops[0]), ops[1..], more);
    }
  }

  lemma RunOne(s: State, op: Op)
    requires Enabled(s, op)
    ensures Runs(s, [op]) && After(s, [op]) == Next(s, op)
  {
    hide Next, Enabled;
    assert [op][1..] == [];
  }

  lemma RunTwo(s: State, a: Op, b: Op)
    requires Enabled(s, a) && Enabled(Next(s, a), b)
    ensures Runs(s, [a, b]) && After(s, [a, b]) == Next(Next(s, a), b)
  {
    hide Next, Enabled, Runs, After;
    RunOne(s, a);
    RunOne(Next(s, a), b);
    RunsOn(s, [a], [b]);
    assert [a] + [b] == [a, b];
  }

  lemma RunThree(s: State, a: Op, b: Op, c: Op)
    requires Enabled(s, a) && Enabled(Next(s, a), b) && Enabled(Next(Next(s, a), b), c)
    ensures Runs(s, [a, b, c]) && After(s, [a, b, c]) == Next(Next(Next(s, a), b), c)
  {
    hide Next, Enabled, Runs, After;
    RunTwo(s, a, b);
    RunOne(Next(Next(s, a), b), c);
    RunsOn(s, [a, b], [c]);
    assert [a, b] + [c] == [a, b, c];
  }

  function CommitRun(from: nat): seq<Op> { [AppendBegin(from), AppendRecord, CommitReturn] }

  // A commit of one record that comes to the log is shown by a restart exactly if the log is not
  // torn, unless the files show its value anyway.
  lemma CommitShown(s: State, from: nat, r: WalRecord)
    requires Enabled(s, AppendBegin(from)) && s.waiting[from] == [r]
    ensures Runs(s, CommitRun(from))
    ensures var s', k := After(s, CommitRun(from)), KeyOf(r);
      && from in s'.settled && s'.mem == s.mem
      && (Get(Recovered(s'), k) == Some(ValueOf(r)) <==> !s.torn || Get(Recovered(s), k) == Some(ValueOf(r)))
      && (s.torn ==> Recovered(s') == Recovered(s))
  {
    hide Applied, Runs, After, KeysOf;
    RunThree(s, AppendBegin(from), AppendRecord, CommitReturn);
    AppliedOne(s.snap, s.wal, r);
  }

  // It keeps the key safe exactly if the log is not torn and no later change of it was acknowledged.
  lemma CommitKeeps(s: State, from: nat, r: WalRecord)
    requires Inv(s, KeyOf(r)) && Enabled(s, AppendBegin(from)) && s.waiting[from] == [r]
    ensures Runs(s, CommitRun(from))
    ensures Inv(After(s, CommitRun(from)), KeyOf(r)) <==> !s.torn && !Overtaken(s, from, KeyOf(r))
  {
    hide Applied, Runs, After, KeysOf, Inv, Recovered;
    var k := KeyOf(r);
    var s1 := Next(s, AppendBegin(from));
    var s2 := Next(s1, AppendRecord);
    RunThree(s, AppendBegin(from), AppendRecord, CommitReturn);
    StepKeeps(s, AppendBegin(from), k);
    if s.torn {
      TornStays(s, from, r);
    } else {
      StepKeeps(s1, AppendRecord, k);
      if Inv(s2, k) { StepKeeps(s2, CommitReturn, k); } else { OvertakenStays(s, from, r); }
    }
  }

  lemma TornStays(s: State, from: nat, r: WalRecord)
    requires Enabled(s, AppendBegin(from)) && s.waiting[from] == [r] && s.torn
    ensures !Inv(Next(Next(Next(s, AppendBegin(from)), AppendRecord), CommitReturn), KeyOf(r))
  {
    hide Applied, KeyInv;
  }

  lemma OvertakenStays(s: State, from: nat, r: WalRecord)
    requires Enabled(s, AppendBegin(from)) && s.waiting[from] == [r] && !s.torn && Overtaken(s, from, KeyOf(r))
    ensures !Inv(Next(Next(Next(s, AppendBegin(from)), AppendRecord), CommitReturn), KeyOf(r))
  {
    hide Applied, ValueAt, LockInv, Recovered;
    var s' := Next(Next(Next(s, AppendBegin(from)), AppendRecord), CommitReturn);
    assert Held(s', KeyOf(r)) == from + 1;
  }

  // A crash in the middle of the first record, a restart, and a commit that returns: the next
  // restart does not show it.
  lemma TornRunLoses(r: WalRecord)
    ensures var first := [CommitMemory([r]), AppendBegin(0), Restart(true)];
      var s := Opened(map[], []);
      && Runs(s, first) && var s1 := After(s, first);
      && Runs(s1, [CommitMemory([r])]) && var s2 := After(s1, [CommitMemory([r])]);
      && Runs(s2, CommitRun(0)) && var s3 := After(s2, CommitRun(0));
      && s3.hist == [Put(r)] && s3.settled == {0} && KeyOf(r) in s3.mem && KeyOf(r) !in Recovered(s3)
  {
    hide Runs, After;
    var s := Opened(map[], []);
    RunThree(s, CommitMemory([r]), AppendBegin(0), Restart(true));
    var s1 := After(s, [CommitMemory([r]), AppendBegin(0), Restart(true)]);
    RunOne(s1, CommitMemory([r]));
    var s2 := Next(s1, CommitMemory([r]));
    CommitShown(s2, 0, r);
    RunThree(s2, AppendBegin(0), AppendRecord, CommitReturn);
  }

  // Two commits of a key that come to the log in the other order than to memory: both return, and
  // a restart brings the first one back.
  lemma ReorderedLoses(r: WalRecord, q: WalRecord)
    requires KeyOf(r) == KeyOf(q)
    ensures var s := Opened(map[], []);
      && Runs(s, [CommitMemory([r]), CommitMemory([q])])
      && var s1 := After(s, [CommitMemory([r]), CommitMemory([q])]);
      && Runs(s1, CommitRun(1)) && var s2 := After(s1, CommitRun(1));
      && Runs(s2, CommitRun(0)) && var s3 := After(s2, CommitRun(0));
      && s3.settled == {0, 1} && Get(s3.mem, KeyOf(r)) == Some(ValueOf(q))
      && Get(Recovered(s3), KeyOf(r)) == Some(ValueOf(r))
  {
    hide Runs, After;
    var s := Opened(map[], []);
    RunTwo(s, CommitMemory([r]), CommitMemory([q]));
    var s1 := After(s, [CommitMemory([r]), CommitMemory([q])]);
    AppliedOne(s.mem, [], r);
    AppliedOne(Next(s, CommitMemory([r])).mem, [], q);
    assert [] + [r] == [r] && [] + [q] == [q];
    CommitsReturn(s1, 1, q);
    var s2 := After(s1, CommitRun(1));
    CommitsReturn(s2, 0, r);
  }

  lemma CommitsReturn(s: State, from: nat, r: WalRecord)
    requires Enabled(s, AppendBegin(from)) && s.waiting[from] == [r] && !s.torn
    ensures Runs(s, CommitRun(from))
    ensures var s' := After(s, CommitRun(from));
      && s'.lock.Free? && !s'.torn && s'.mem == s.mem && s'.waiting == s.waiting - {from}
      && s'.settled == s.settled + {from} && Get(Recovered(s'), KeyOf(r)) == Some(ValueOf(r))
  {
    hide Runs, After, Applied, KeysOf;
    CommitShown(s, from, r);
    RunThree(s, AppendBegin(from), AppendRecord, CommitReturn);
    assert Range(from, 1) == {from};
  }

  // ------------------------------------------------------------ when a removed key stays removed

  predicate NotCommitted(ops: seq<Op>, k: Key)
  {
    forall i :: 0 <= i < |ops| && ops[i].CommitMemory? ==> k !in KeysOf(ops[i].batch)
  }

  // Whatever happens, short of a new commit of the key, no restart shows it.
  ghost predicate StaysRemoved(s: State, k: Key)
  {
    forall ops :: Runs(s, ops) && NotCommitted(ops, k) ==> k !in Recovered(After(s, ops))
  }

  // A commit of the key has changed memory, at some time in the past, and is still to be appended.
  predicate YetToAppend(s: State, k: Key)
  {
    || (exists f :: f in s.waiting && k in KeysOf(s.waiting[f]))
    || (s.lock.Appending? && exists i :: s.lock.written <= i < |s.lock.batch| && KeyOf(s.lock.batch[i]) == k)
  }

  // The files show the key, or will when the compaction under way is over.
  predicate InFiles(s: State, k: Key)
  {
    || k in Recovered(s)
    || (s.lock.Snapshotting? && k in s.lock.buf)
    || (s.lock.Resetting? && k in s.snap)
  }

  predicate Clear(s: State, k: Key) { k !in s.mem && !InFiles(s, k) && !YetToAppend(s, k) }

  lemma ClearStep(s: State, op: Op, k: Key)
    requires Clear(s, k) && Enabled(s, op) && (op.CommitMemory? ==> k !in KeysOf(op.batch))
    ensures Clear(Next(s, op), k)
  {
    hide Next, Enabled, Clear;
    match op
    case CommitMemory(batch) => ClearCommit(s, batch, k);
    case AppendBegin(from) => ClearBegin(s, from, k);
    case AppendRecord => ClearRecord(s, k);
    case InstallSnapshot => ClearInstall(s, k);
    case ResetLog => ClearReset(s, k);
    case _ => ClearRest(s, op, k);
  }

  lemma ClearCommit(s: State, batch: seq<WalRecord>, k: Key)
    requires Clear(s, k) && Enabled(s, CommitMemory(batch)) && k !in KeysOf(batch)
    ensures Clear(Next(s, CommitMemory(batch)), k)
  {
    hide Applied, KeysOf;
    AppliedKeys(s.mem, batch, k);
  }

  lemma ClearBegin(s: State, from: nat, k: Key)
    requires Clear(s, k) && Enabled(s, AppendBegin(from))
    ensures Clear(Next(s, AppendBegin(from)), k)
  {
    hide Applied, KeysOf;
    KeysAt(s.waiting[from], k);
  }

  lemma ClearRecord(s: State, k: Key)
    requires Clear(s, k) && Enabled(s, AppendRecord)
    ensures Clear(Next(s, AppendRecord), k)
  {
    hide Applied, KeysOf;
    AppliedOne(s.snap, s.wal, s.lock.batch[s.lock.written]);
  }

  lemma ClearInstall(s: State, k: Key)
    requires Clear(s, k) && Enabled(s, InstallSnapshot)
    ensures Clear(Next(s, InstallSnapshot), k)
  {
    hide Applied, KeysOf;
    if k in KeysOf(s.wal) { AppliedOver(s.snap, s.lock.buf, s.wal, k); } else { AppliedKeys(s.lock.buf, s.wal, k); }
  }

  lemma ClearReset(s: State, k: Key)
    requires Clear(s, k) && Enabled(s, ResetLog)
    ensures Clear(Next(s, ResetLog), k)
  {
    hide Applied, KeysOf;
    AppliedNone(s.snap);
  }

  lemma ClearRest(s: State, op: Op, k: Key)
    requires Clear(s, k) && Enabled(s, op)
    requires op.CommitReturn? || op.EncodeSnapshot? || op.RemoveMemory? || op.RemoveAbsent? || op.Restart?
    ensures Clear(Next(s, op), k)
  {
    hide Applied, KeysOf;
  }

  lemma KeysAt(batch: seq<WalRecord>, k: Key)
    ensures k in KeysOf(batch) <==> exists i :: 0 <= i < |batch| && KeyOf(batch[i]) == k
  {
  }

  lemma {:induction false} ClearRun(s: State, ops: seq<Op>, k: Key)
    requires Clear(s, k) && Runs(s, ops) && NotCommitted(ops, k)
    ensures k !in Recovered(After(s, ops))
    decreases |ops|
  {
    hide Next, Enabled, YetToAppend, Recovered;
    if ops != [] {
      ClearStep(s, ops[0], k);
      assert forall i :: 0 <= i < |ops[1..]| ==> ops[1..][i] == ops[i + 1];
      ClearRun(Next(s, ops[0]), ops[1..], k);
    }
  }

  // The record at place j of the batch being appended gets to the log.
  lemma {:induction false} AppendsTo(s: State, j: nat) returns (ops: seq<Op>)
    requires s.lock.Appending? && s.lock.written <= j < |s.lock.batch| && !s.torn
    ensures Runs(s, ops) && forall i :: 0 <= i < |ops| ==> ops[i].AppendRecord?
    ensures var s', r := After(s, ops), s.lock.batch[j];
      && s' == s.(wal := s'.wal, tag := s'.tag, lock := s.lock.(written := j + 1))
      && KeyOf(r) in Recovered(s')
    decreases j - s.lock.written
  {
    hide Runs, After, Applied;
    var s1 := Next(s, AppendRecord);
    RunOne(s, AppendRecord);
    AppliedOne(s.snap, s.wal, s.lock.batch[s.lock.written]);
    if j == s.lock.written {
      ops := [AppendRecord];
    } else {
      var rest := AppendsTo(s1, j);
      RunsOn(s, [AppendRecord], rest);
      ops := [AppendRecord] + rest;
    }
  }

  lemma Returns(s: State) returns (ops: seq<Op>)
    requires s.lock.Appending? && s.lock.written <= |s.lock.batch| && !s.torn
    ensures Runs(s, ops) && forall i :: 0 <= i < |ops| ==> !ops[i].CommitMemory?
    ensures var s' := After(s, ops); s'.lock.Free? && s'.mem == s.mem && s'.waiting == s.waiting
  {
    hide Runs, After, Applied, KeysOf;
    if s.lock.written < |s.lock.batch| {
      var some := AppendsTo(s, |s.lock.batch| - 1);
      RunOne(After(s, some), CommitReturn);
      RunsOn(s, some, [CommitReturn]);
      ops := some + [CommitReturn];
    } else {
      RunOne(s, CommitReturn);
      ops := [CommitReturn];
    }
  }

  lemma Finishes(s: State) returns (ops: seq<Op>)
    requires s.lock.Snapshotting? || s.lock.Resetting?
    requires s.lock.own.Some? ==> s.lock.own.value in s.removing
    ensures Runs(s, ops) && forall i :: 0 <= i < |ops| ==> !ops[i].CommitMemory?
    ensures var s' := After(s, ops); s'.lock.Free? && s'.mem == s.mem && s'.waiting == s.waiting
  {
    hide Runs, After, Applied, KeysOf, Range;
    if s.lock.Snapshotting? {
      RunTwo(s, InstallSnapshot, ResetLog);
      ops := [InstallSnapshot, ResetLog];
    } else {
      RunOne(s, ResetLog);
      ops := [ResetLog];
    }
  }

  // Whoever holds the log comes to an end.
  lemma Frees(s: State) returns (ops: seq<Op>)
    requires Shape(s)
    ensures Runs(s, ops) && forall i :: 0 <= i < |ops| ==> !ops[i].CommitMemory?
    ensures var s' := After(s, ops); s'.lock.Free? && s'.mem == s.mem && s'.waiting == s.waiting
  {
    hide Runs, After, Places;
    match s.lock
    case Free =>
      RunsNothing(s);
      ops := [];
    case Appending(from, batch, written) =>
      ops := Returns(s);
    case _ =>
      ops := Finishes(s);
  }

  lemma RunsNothing(s: State)
    ensures Runs(s, []) && After(s, []) == s
  {
  }

  const COMPACT: seq<Op> := [EncodeSnapshot(None), InstallSnapshot, ResetLog]

  lemma Compacts(s: State)
    requires s.lock.Free?
    ensures Runs(s, COMPACT)
    ensures var s' := After(s, COMPACT);
      s'.lock.Free? && !s'.torn && s'.mem == s.mem && s'.waiting == s.waiting && Recovered(s') == s.mem
  {
    hide Runs, After, KeysOf;
    RunThree(s, EncodeSnapshot(None), InstallSnapshot, ResetLog);
    AppliedNone(s.mem);
  }

  // A key that is anywhere on its way can be brought back without committing it again.
  lemma ComesBack(s: State, k: Key) returns (ops: seq<Op>)
    requires Shape(s) && !Clear(s, k)
    ensures Runs(s, ops) && NotCommitted(ops, k) && k in Recovered(After(s, ops))
  {
    hide Runs, After, Applied, KeysOf, Places, Covers, Recovered;
    if k in Recovered(s) {
      RunsNothing(s);
      ops := [];
    } else if InFiles(s, k) {
      ops := Installs(s, k);
    } else if s.lock.Appending? && exists i :: s.lock.written <= i < |s.lock.batch| && KeyOf(s.lock.batch[i]) == k {
      var i :| s.lock.written <= i < |s.lock.batch| && KeyOf(s.lock.batch[i]) == k;
      ops := AppendsTo(s, i);
    } else {
      var free := Frees(s);
      var s1 := After(s, free);
      Compacts(s1);
      RunsOn(s, free, COMPACT);
      ops := free + COMPACT;
      if k !in s.mem {
        var more := AppendsWaiting(After(s1, COMPACT), k);
        RunsOn(s, ops, more);
        ops := ops + more;
      }
    }
  }

  lemma Installs(s: State, k: Key) returns (ops: seq<Op>)
    requires Shape(s) && InFiles(s, k) && k !in Recovered(s)
    ensures Runs(s, ops) && NotCommitted(ops, k) && k in Recovered(After(s, ops))
  {
    hide Runs, After, KeysOf, Places;
    if s.lock.Snapshotting? {
      RunTwo(s, InstallSnapshot, ResetLog);
      ops := [InstallSnapshot, ResetLog];
    } else {
      RunOne(s, ResetLog);
      ops := [ResetLog];
    }
  }

  lemma AppendsWaiting(s: State, k: Key) returns (ops: seq<Op>)
    requires s.lock.Free? && !s.torn && exists f :: f in s.waiting && k in KeysOf(s.waiting[f])
    ensures Runs(s, ops) && (forall i :: 0 <= i < |ops| ==> !ops[i].CommitMemory?)
    ensures k in Recovered(After(s, ops))
  {
    hide Runs, After, Applied, KeysOf;
    var f :| f in s.waiting && k in KeysOf(s.waiting[f]);
    KeysAt(s.waiting[f], k);
    var j :| 0 <= j < |s.waiting[f]| && KeyOf(s.waiting[f][j]) == k;
    RunOne(s, AppendBegin(f));
    var rest := AppendsTo(Next(s, AppendBegin(f)), j);
    RunsOn(s, [AppendBegin(f)], rest);
    ops := [AppendBegin(f)] + rest;
  }

  // A key stays removed exactly if it is neither in memory, nor in the files or on its way there in
  // a snapshot, nor in a commit that is still to be appended.
  lemma StaysExactly(s: State, k: Key)
    requires Shape(s)
    ensures StaysRemoved(s, k) <==> Clear(s, k)
  {
    hide Runs, After, Recovered, Clear, Shape, NotCommitted;
    if Clear(s, k) {
      forall ops | Runs(s, ops) && NotCommitted(ops, k) ensures k !in Recovered(After(s, ops)) {
        ClearRun(s, ops, k);
      }
    } else {
      var ops := ComesBack(s, k);
    }
  }

  // A removal of the key that has returned, with no change of the key after it, stays in force
  // exactly if no commit of the key that changed memory before it is still to be appended.
  lemma RemovalNotResurrected(snap: Offsets, wal: seq<WalRecord>, ops: seq<Op>, n: nat, k: Key)
    requires Runs(Opened(snap, wal), ops) && CarefulRun(Opened(snap, wal), ops, k)
    requires var s := After(Opened(snap, wal), ops);
      && n in s.settled && n < |s.hist| && s.hist[n] == Drop(k)
      && forall m :: n < m < |s.hist| ==> s.hist[m].Target() != k
    ensures var s := After(Opened(snap, wal), ops); StaysRemoved(s, k) <==> !YetToAppend(s, k)
  {
    hide Runs, After, Opened, CarefulRun, StaysRemoved, YetToAppend;
    OpenedInv(snap, wal, k);
    RunKeeps(Opened(snap, wal), ops, k);
    var s := After(Opened(snap, wal), ops);
    StaysExactly(s, k);
    RemovedEverywhere(s, n, k);
  }

  lemma RemovedEverywhere(s: State, n: nat, k: Key)
    requires Inv(s, k) && n in s.settled && s.hist[n] == Drop(k)
    requires forall m :: n < m < |s.hist| ==> s.hist[m].Target() != k
    ensures k !in s.mem && !InFiles(s, k)
  {
    hide Applied, KeysOf, Places, Covers;
    forall t: nat | n < t <= |s.hist| ensures ValueAt(s.base, s.hist, t, k) == None {
      ValueSkips(s.base, s.hist, n + 1, t, k);
    }
  }

  // The compaction of a removal.
  function OwnCompaction(n: nat): seq<Op> { [EncodeSnapshot(Some(n)), InstallSnapshot, ResetLog] }

  lemma RemovalReturns(s: State, n: nat)
    requires s.lock.Free? && n in s.removing
    ensures Runs(s, OwnCompaction(n))
    ensures var s' := After(s, OwnCompaction(n));
      && s'.lock.Free? && !s'.torn && s'.mem == s.mem && s'.waiting == s.waiting && Recovered(s') == s.mem
      && s'.settled == s.settled + Range(n, s.removing[n])
  {
    hide Runs, After, KeysOf;
    RunThree(s, EncodeSnapshot(Some(n)), InstallSnapshot, ResetLog);
    AppliedNone(s.mem);
  }

  // A commit changes memory, a removal of its key runs to its end, and the commit goes on to the
  // log: both have returned, the key is not in memory, and a restart brings it back.
  lemma LateCommitResurrects(r: WalRecord)
    ensures var s := Opened(map[], []);
      && Runs(s, [CommitMemory([r]), RemoveMemory([KeyOf(r)])])
      && var s1 := After(s, [CommitMemory([r]), RemoveMemory([KeyOf(r)])]);
      && Runs(s1, OwnCompaction(1)) && var s2 := After(s1, OwnCompaction(1));
      && s2.settled == {1} && KeyOf(r) !in Recovered(s2)
      && Runs(s2, CommitRun(0)) && var s3 := After(s2, CommitRun(0));
      && s3.settled == {0, 1} && KeyOf(r) !in s3.mem && KeyOf(r) in Recovered(s3)
  {
    hide Runs, After;
    var s := Opened(map[], []);
    RunTwo(s, CommitMemory([r]), RemoveMemory([KeyOf(r)]));
    var s1 := After(s, [CommitMemory([r]), RemoveMemory([KeyOf(r)])]);
    RemovalReturns(s1, 1);
    var s2 := After(s1, OwnCompaction(1));
    assert Range(1, 1) == {1};
    CommitsReturn(s2, 0, r);
  }

  // ------------------------------------------------------------ a removal that finds nothing

  // A removal that finds the key gone from memory returns without touching the files. The key stays
  // removed exactly if they do not hold it, nor a snapshot on its way there, nor a commit still to
  // be appended.
  lemma AbsentStaysRemoved(s: State, keys: seq<Key>, k: Key)
    requires Shape(s) && Enabled(s, RemoveAbsent(keys)) && k in keys
    ensures StaysRemoved(Next(s, RemoveAbsent(keys)), k) <==> !InFiles(s, k) && !YetToAppend(s, k)
  {
    hide InFiles, YetToAppend, StaysRemoved, Shape;
    StaysExactly(s, k);
  }

  // If they do hold it, another removal of the key has not returned yet.
  lemma StoredMeans(s: State, k: Key)
    requires Inv(s, k) && k !in s.mem && k in Recovered(s)
    ensures exists n :: Held(s, k) <= n < |s.hist| && s.hist[n].Target() == k && n !in s.settled
  {
    hide Applied, KeysOf, Places, Covers;
    if forall n :: Held(s, k) <= n < |s.hist| ==> s.hist[n].Target() != k {
      ValueSkips(s.base, s.hist, Held(s, k), |s.hist|, k);
    }
  }

  // Two removals of one stored key: the second finds nothing in memory and returns, a crash comes
  // before the first has compacted, and the key is back.
  lemma AbsentResurrects(k: Key, c: Committed)
    ensures var s := Opened(map[k := c], []);
      && Enabled(s, RemoveMemory([k])) && var s1 := Next(s, RemoveMemory([k]));
      && Enabled(s1, RemoveAbsent([k])) && var s2 := Next(s1, RemoveAbsent([k]));
      && Enabled(s2, Restart(false)) && Get(Next(s2, Restart(false)).mem, k) == Some(c)
  {
  }

  // ------------------------------------------------------------ the log as bytes

  lemma {:induction false} EncodeAllAppend(crc: Checksum, rs: seq<WalRecord>, ts: seq<WalRecord>)
    ensures EncodeAll(crc, rs + ts) == EncodeAll(crc, rs) + EncodeAll(crc, ts)
    decreases |rs|
  {
    hide Encode;
    if rs == [] {
      assert rs + ts == ts;
    } else {
      assert (rs + ts)[1..] == rs[1..] + ts;
      EncodeAllAppend(crc, rs[1..], ts);
    }
  }

  lemma {:induction false} InsideTorn(crc: Checksum, rs: seq<WalRecord>, r: WalRecord, j: nat)
    requires j < |Encode(crc, r)|
    ensures Inside(crc, rs + [r], |EncodeAll(crc, rs)| + j) == |rs|
    decreases |rs|
  {
    hide Encode;
    if rs != [] {
      assert (rs + [r])[1..] == rs[1..] + [r];
      InsideTorn(crc, rs[1..], r, j);
    }
  }

  // A record cut anywhere by the crash is not seen: the file replays to the records before it.
  lemma TornAppend(crc: Checksum, wal: seq<WalRecord>, r: WalRecord, j: nat)
    requires (forall w :: w in wal ==> Fits(w)) && Fits(r) && j < |Encode(crc, r)|
    ensures Replay(crc, EncodeAll(crc, wal) + Encode(crc, r)[..j]) == Replayed(wal, None)
  {
    hide Replay, Encode, EncodeAll, Inside, Fits;
    var all := EncodeAll(crc, wal + [r]);
    EncodeAllAppend(crc, wal, [r]);
    EncodeOne(crc, r);
    var n := |EncodeAll(crc, wal)| + j;
    InsideTorn(crc, wal, r, j);
    ReplayPrefix(crc, wal + [r], n);
    assert all[..n] == EncodeAll(crc, wal) + Encode(crc, r)[..j];
    assert (wal + [r])[..|wal|] == wal;
  }

  // The bytes of a record that a crash has cut short.
  ghost predicate TornPart(crc: Checksum, t: bytes) { exists r :: Fits(r) && t != [] && t < Encode(crc, r) }

  // The log file of a state.
  ghost predicate IsFile(crc: Checksum, s: State, t: bytes, file: bytes)
  {
    && (forall r :: r in s.wal || r in s.behind ==> Fits(r))
    && (if s.torn then TornPart(crc, t) else t == [] && s.behind == [])
    && file == EncodeAll(crc, s.wal) + (t + EncodeAll(crc, s.behind))
  }

  // As long as nothing lies behind a torn record, the file replays to the records before it.
  lemma FileShows(crc: Checksum, s: State, t: bytes, file: bytes)
    requires IsFile(crc, s, t, file) && s.behind == []
    ensures Replay(crc, file) == Replayed(s.wal, None)
  {
    hide Replay, Encode, Fits;
    assert EncodeAll(crc, []) == [] && t + [] == t;
    if s.torn {
      var r :| Fits(r) && t != [] && t < Encode(crc, r);
      TornAppend(crc, s.wal, r, |t|);
      assert Encode(crc, r)[..|t|] == t;
    } else {
      assert EncodeAll(crc, s.wal) + [] == EncodeAll(crc, s.wal);
      ReplayAll(crc, s.wal);
    }
  }

  // What lies behind a torn record is never replayed, unless the torn bytes and the first ones
  // behind them happen to pass for a record, checksum included.
  lemma BehindIsHidden(crc: Checksum, s: State, t: bytes, file: bytes)
    requires IsFile(crc, s, t, file)
    ensures Replay(crc, file).records == s.wal <==> !Passes(crc, t + EncodeAll(crc, s.behind))
  {
    hide Replay, EncodeAll, Fits, Passes, TornPart;
    TornTailHides(crc, s.wal, t, EncodeAll(crc, s.behind));
  }

  lemma EncodeOne(crc: Checksum, r: WalRecord)
    ensures EncodeAll(crc, [r]) == Encode(crc, r)
  {
  }

  lemma ReplayAll(crc: Checksum, wal: seq<WalRecord>)
    requires forall w :: w in wal ==> Fits(w)
    ensures Replay(crc, EncodeAll(crc, wal)) == Replayed(wal, None)
  {
    hide Replay, Encode, EncodeAll, Fits;
    var n := |EncodeAll(crc, wal)|;
    assert EncodeAll(crc, wal)[..n] == EncodeAll(crc, wal);
    ReplayPrefix(crc, wal, n);
    InsideAll(crc, wal);
    assert wal[..|wal|] == wal;
  }

  lemma {:induction false} InsideAll(crc: Checksum, wal: seq<WalRecord>)
    ensures Inside(crc, wal, |EncodeAll(crc, wal)|) == |wal|
    decreases |wal|
  {
    hide Encode;
    if wal != [] { InsideAll(crc, wal[1..]); }
  }

  // ------------------------------------------------------------ the store, one caller at a time

  // A commit without a timestamp is stamped with the time of the call.
  function Stamped(recs: seq<WalRecord>, now: int64): (r: seq<WalRecord>)
    ensures |r| == |recs|
    ensures forall i :: 0 <= i < |recs| ==>
      r[i] == if recs[i].timestamp == 0 then recs[i].(timestamp := now) else recs[i]
  {
    seq(|recs|, i requires 0 <= i < |recs| =>
      if recs[i].timestamp == 0 then recs[i].(timestamp := now) else recs[i])
  }

  lemma StampedFits(recs: seq<WalRecord>, now: int64)
    requires forall r :: r in recs ==> Fits(r) && r.kind == COMMIT
    ensures forall r :: r in Stamped(recs, now) ==> Fits(r) && r.kind == COMMIT
  {
    forall r | r in Stamped(recs, now) ensures Fits(r) && r.kind == COMMIT {
      var i :| 0 <= i < |recs| && r == Stamped(recs, now)[i];
      assert Fits(recs[i]);
    }
  }

  lemma AppliedAppend(m: Offsets, rs: seq<WalRecord>, ts: seq<WalRecord>)
    ensures Applied(m, rs + ts) == Applied(Applied(m, rs), ts)
    decreases |ts|
  {
    if ts == [] {
      assert rs + ts == rs;
    } else {
      var n := |ts| - 1;
      assert (rs + ts)[..|rs + ts| - 1] == rs + ts[..n];
      AppliedAppend(m, rs, ts[..n]);
    }
  }

  class Store {
    const crc: Checksum
    var offsets: Offsets
    var snapshot: Offsets
    var wal: bytes
    var walN: nat
    var compacting: bool
    var closed: bool
    ghost var logged: seq<WalRecord>

    // The files on their own give the offsets back.
    ghost predicate Durable()
      reads this
    {
      && (forall r :: r in logged ==> Fits(r) && r.kind == COMMIT)
      && wal == EncodeAll(crc, logged) && walN == |logged|
      && Applied(snapshot, logged) == offsets
    }

    constructor (crc: Checksum)
      ensures Durable() && this.crc == crc && offsets == map[] && snapshot == map[] && wal == []
      ensures !compacting && !closed
    {
      this.crc, offsets, snapshot, wal, walN, logged := crc, map[], map[], [], 0, [];
      compacting, closed := false, false;
    }

    method CommitMemory(recs: seq<WalRecord>, now: int64) returns (out: seq<WalRecord>)
      modifies this`offsets
      ensures out == Stamped(recs, now) && offsets == Applied(old(offsets), out)
      ensures Took(old(offsets), offsets, out)
    {
      hide Applied, Took;
      AppliedNone(offsets);
      out := [];
      for i := 0 to |recs|
        invariant out == Stamped(recs, now)[..i] && offsets == Applied(old(offsets), out)
      {
        var r := if recs[i].timestamp == 0 then recs[i].(timestamp := now) else recs[i];
        AppliedOne(old(offsets), out, r);
        offsets := offsets[KeyOf(r) := ValueOf(r)];
        out := out + [r];
      }
      AppliedTook(old(offsets), out);
    }

    // One write of all the encodings. A write or sync that fails has put down some of the bytes.
    method AppendBatch(recs: seq<WalRecord>, cut: Option<nat>) returns (ok: bool)
      modifies this`wal
      ensures ok <==> recs == [] || cut.None?
      ensures wal == old(wal) + PutDown(EncodeAll(crc, recs), if ok then None else cut)
    {
      hide Encode;
      if |recs| == 0 {
        return true;
      }
      var buf: bytes := [];
      for i := 0 to |recs|
        invariant buf + EncodeAll(crc, recs[i..]) == EncodeAll(crc, recs)
      {
        assert recs[i..][1..] == recs[i + 1..];
        buf := buf + Encode(crc, recs[i]);
      }
      wal := wal + PutDown(buf, cut);
      return cut.None?;
    }

    // Memory first, then the log; the caller is told of a failed write, and whether it has to start a
    // compaction: when the log is due for one, none is under way and the store is not closed.
    method CommitBatch(records: seq<WalRecord>, now: int64, cut: Option<nat>) returns (ok: bool, compact: bool)
      modifies this`offsets, this`wal, this`walN, this`logged, this`compacting
      ensures ok <==> records == [] || cut.None?
      ensures offsets == Applied(old(offsets), Stamped(records, now))
      ensures Took(old(offsets), offsets, Stamped(records, now))
      ensures wal == old(wal) + PutDown(EncodeAll(crc, Stamped(records, now)), if ok then None else cut)
      ensures walN == old(walN) + if ok then |records| else 0
      ensures old(Durable()) && ok && (forall r :: r in records ==> Fits(r) && r.kind == COMMIT) ==> Durable()
      ensures compact <==> ok && records != [] && walN >= COMPACT_THRESHOLD && !old(compacting) && !closed
      ensures compacting <==> old(compacting) || compact
    {
      hide Applied, EncodeAll, Took;
      AppliedNone(offsets);
      AppliedTook(offsets, []);
      NothingEncoded(crc);
      if |records| == 0 {
        assert Stamped(records, now) == [];
        return true, false;
      }
      var recs := CommitMemory(records, now);
      ok := AppendBatch(recs, cut);
      if !ok {
        return false, false;
      }
      walN := walN + |recs|;
      if forall r :: r in records ==> Fits(r) && r.kind == COMMIT { StampedFits(records, now); }
      AppliedAppend(snapshot, logged, recs);
      EncodeAllAppend(crc, logged, recs);
      logged := logged + recs;
      compact := walN >= COMPACT_THRESHOLD && !compacting && !closed;
      if compact {
        compacting := true;
      }
    }

    // The snapshot takes over and the log starts again.
    method Compact()
      modifies this`snapshot, this`wal, this`walN, this`logged
      ensures Durable() && snapshot == offsets && wal == [] && walN == 0
    {
      snapshot := offsets;
      wal, walN, logged := [], 0, [];
    }

    // The compaction a commit has started; the next one may start once it is over.
    method CompactAsync()
      modifies this`snapshot, this`wal, this`walN, this`logged, this`compacting
      ensures Durable() && snapshot == offsets && wal == [] && walN == 0 && !compacting
    {
      Compact();
      compacting := false;
    }

    // Closing compacts once more and starts no further compaction.
    method Close()
      modifies this`snapshot, this`wal, this`walN, this`logged, this`closed
      ensures Durable() && snapshot == offsets && wal == [] && walN == 0 && closed
    {
      closed := true;
      Compact();
    }

    method DeleteGroup(group: bytes)
      modifies this`offsets, this`snapshot, this`wal, this`walN, this`logged
      ensures old(Durable()) ==> Durable()
      ensures offsets == map k | k in old(offsets) && k.group != group :: old(offsets)[k]
      ensures if exists k :: k in old(offsets) && k.group == group then Durable() && snapshot == offsets && wal == []
              else snapshot == old(snapshot) && wal == old(wal)
    {
      var doomed := set k | k in offsets && k.group == group;
      assert forall k :: k in offsets && k.group == group ==> k in doomed;
      offsets := map k | k in offsets && k.group != group :: offsets[k];
      if doomed == {} {
        assert forall k :: k in old(offsets) ==> k in offsets && offsets[k] == old(offsets)[k];
        assert offsets == old(offsets);
        return;
      }
      Compact();
    }

    method PruneOlderThan(cut: int64) returns (removed: nat)
      modifies this`offsets, this`snapshot, this`wal, this`walN, this`logged
      ensures old(Durable()) || removed > 0 ==> Durable()
      ensures offsets == map k | k in old(offsets) && old(offsets)[k].updatedAt >= cut :: old(offsets)[k]
      ensures removed == |old(offsets)| - |offsets|
    {
      hide Applied, EncodeAll;
      removed := 0;
      var left := offsets.Keys;
      while left != {}
        modifies this`offsets
        invariant left <= old(offsets).Keys && left <= offsets.Keys <= old(offsets).Keys
        invariant forall k :: k in offsets ==> offsets[k] == old(offsets)[k]
        invariant forall k :: k in old(offsets) && k !in left ==> (k in offsets <==> old(offsets)[k].updatedAt >= cut)
        invariant removed == |old(offsets)| - |offsets|
        invariant removed == 0 ==> offsets == old(offsets)
        decreases |left|
      {
        var k :| k in left;
        left := left - {k};
        if offsets[k].updatedAt < cut {
          ghost var before := offsets;
          offsets := offsets - {k};
          assert |before.Keys| == |offsets.Keys| + 1 by { assert before.Keys == offsets.Keys + {k}; }
          removed := removed + 1;
        }
      }
      if removed > 0 {
        Compact();
      }
    }
  }

  // The part of a write that reaches the file.
  function PutDown(buf: bytes, cut: Option<nat>): bytes
  {
    if cut.None? || cut.value >= |buf| then buf else buf[..cut.value]
  }

  lemma NothingEncoded(crc: Checksum)
    ensures EncodeAll(crc, []) == []
  {
  }

  lemma AppliedNone(m: Offsets)
    ensures Applied(m, []) == m
  {
  }

  // Opening the store: the snapshot, then the log over it; a long log is compacted at once. Unless
  // it was, the files can be added to exactly if the log holds whole commits and nothing else.
  method OpenStore(crc: Checksum, snapshot: Offsets, wal: bytes) returns (r: Result<Store>)
    ensures r.Ok? <==> Replay(crc, wal).error.None?
    ensures r.Ok? ==> fresh(r.value) && r.value.crc == crc
                      && r.value.offsets == Applied(snapshot, CommitsOf(Replay(crc, wal).records))
    ensures r.Ok? ==> TookCommits(snapshot, r.value.offsets, Replay(crc, wal).records)
    ensures r.Ok? ==> var n := |CommitsOf(Replay(crc, wal).records)|;
      if n >= COMPACT_THRESHOLD then r.value.snapshot == r.value.offsets && r.value.wal == []
      else r.value.snapshot == snapshot && r.value.wal == wal && r.value.walN == n
    ensures r.Ok? ==> var commits := CommitsOf(Replay(crc, wal).records);
      r.value.Durable() <==> |commits| >= COMPACT_THRESHOLD || wal == EncodeAll(crc, commits)
  {
    hide Applied, Replay, EncodeAll, Fits, TookCommits;
    CommitsFit(crc, wal);
    var records, error := ReplayFile(crc, wal);
    if error.Some? {
      return Err(error.value);
    }
    var s := new Store(crc);
    s.snapshot, s.offsets, s.wal := snapshot, snapshot, wal;
    var n := 0;
    AppliedNone(snapshot);
    for i := 0 to |records|
      invariant n == |CommitsOf(records[..i])| && s.snapshot == snapshot && s.wal == wal
      invariant s.offsets == Applied(snapshot, CommitsOf(records[..i]))
      invariant fresh(s) && s.crc == crc
    {
      CommitsOfAppend(records[..i], records[i]);
      assert records[..i + 1] == records[..i] + [records[i]];
      assert CommitsOf(records[..i]) + [] == CommitsOf(records[..i]);
      if records[i].kind == COMMIT {
        AppliedOne(snapshot, CommitsOf(records[..i]), records[i]);
        s.offsets := s.offsets[KeyOf(records[i]) := ValueOf(records[i])];
        n := n + 1;
      }
    }
    assert records[..|records|] == records;
    CommitsTook(snapshot, records);
    s.walN, s.logged := n, CommitsOf(records);
    if s.walN >= COMPACT_THRESHOLD {
      s.Compact();
    }
    return Ok(s);
  }

  // Files that can be added to can also be opened again, at any time, and give the offsets back.
  method Reopen(s: Store) returns (r: Result<Store>)
    requires s.Durable()
    ensures r.Ok? && fresh(r.value) && r.value.crc == s.crc && r.value.Durable() && r.value.offsets == s.offsets
  {
    hide Applied, Replay, EncodeAll, Fits, TookCommits, CommitsOf;
    ReplayAll(s.crc, s.logged);
    CommitsOnly(s.logged);
    r := OpenStore(s.crc, s.snapshot, s.wal);
  }

  // A write that fails partway leaves a log that replays to the records it has put down whole.
  lemma FailedWrite(crc: Checksum, logged: seq<WalRecord>, recs: seq<WalRecord>, cut: nat)
    requires (forall r :: r in logged ==> Fits(r)) && (forall r :: r in recs ==> Fits(r))
    requires cut <= |EncodeAll(crc, recs)|
    ensures var all, kept := logged + recs, |EncodeAll(crc, logged)| + cut;
      Replay(crc, EncodeAll(crc, logged) + PutDown(EncodeAll(crc, recs), Some(cut)))
      == Replayed(all[..Inside(crc, all, kept)], None)
  {
    hide Replay, Encode, EncodeAll, Fits, Inside;
    EncodeAllAppend(crc, logged, recs);
    var kept := |EncodeAll(crc, logged)| + cut;
    ReplayPrefix(crc, logged + recs, kept);
    assert EncodeAll(crc, logged + recs)[..kept]
        == EncodeAll(crc, logged) + PutDown(EncodeAll(crc, recs), Some(cut));
  }

  // No commit after the i-th record is of the same group, topic and partition.
  predicate LastCommit(rs: seq<WalRecord>, i: nat)
  {
    && i < |rs| && rs[i].kind == COMMIT
    && forall j :: i < j < |rs| && rs[j].kind == COMMIT ==>
         !(rs[j].group == rs[i].group && rs[j].topic == rs[i].topic && rs[j].partition == rs[i].partition)
  }

  // The same as `Took`, for the commits among the records of a log.
  ghost predicate TookCommits(before: Offsets, after: Offsets, rs: seq<WalRecord>)
  {
    && (forall i: nat :: LastCommit(rs, i) ==>
          var r := rs[i];
          Get(after, Key(r.group, r.topic, r.partition))
          == Some(Committed(r.offset, r.metadata, r.leaderEpoch, r.timestamp)))
    && (forall k :: (forall i :: 0 <= i < |rs| && rs[i].kind == COMMIT ==> !About(rs[i], k)) ==>
          Get(after, k) == Get(before, k))
  }

  lemma {:induction false} CommitsLast(m: Offsets, rs: seq<WalRecord>, i: nat)
    requires LastCommit(rs, i)
    ensures var r := rs[i];
      Get(Applied(m, CommitsOf(rs)), Key(r.group, r.topic, r.partition))
      == Some(Committed(r.offset, r.metadata, r.leaderEpoch, r.timestamp))
    decreases |rs|
  {
    hide Applied, CommitsOf;
    var n := |rs| - 1;
    var front, last := rs[..n], rs[n];
    assert rs == front + [last];
    CommitsOfAppend(front, last);
    AppliedOne(m, CommitsOf(front), last);
    assert CommitsOf(front) + [] == CommitsOf(front);
    if i < n {
      assert LastCommit(front, i);
      CommitsLast(m, front, i);
    }
  }

  lemma {:induction false} CommitsOther(m: Offsets, rs: seq<WalRecord>, k: Key)
    requires forall i :: 0 <= i < |rs| && rs[i].kind == COMMIT ==> !About(rs[i], k)
    ensures Get(Applied(m, CommitsOf(rs)), k) == Get(m, k)
    decreases |rs|
  {
    hide Applied, CommitsOf;
    if rs == [] {
      assert CommitsOf([]) == [] by { CommitsOnly([]); }
      AppliedNone(m);
    } else {
      var n := |rs| - 1;
      var front, last := rs[..n], rs[n];
      assert rs == front + [last];
      CommitsOfAppend(front, last);
      AppliedOne(m, CommitsOf(front), last);
      assert CommitsOf(front) + [] == CommitsOf(front);
      CommitsOther(m, front, k);
    }
  }

  lemma CommitsTook(m: Offsets, rs: seq<WalRecord>)
    ensures TookCommits(m, Applied(m, CommitsOf(rs)), rs)
  {
    hide Applied, CommitsOf, About;
    forall i: nat | LastCommit(rs, i)
      ensures var r := rs[i];
        Get(Applied(m, CommitsOf(rs)), Key(r.group, r.topic, r.partition))
        == Some(Committed(r.offset, r.metadata, r.leaderEpoch, r.timestamp))
    {
      CommitsLast(m, rs, i);
    }
    forall k | forall i :: 0 <= i < |rs| && rs[i].kind == COMMIT ==> !About(rs[i], k)
      ensures Get(Applied(m, CommitsOf(rs)), k) == Get(m, k)
    {
      CommitsOther(m, rs, k);
    }
  }

  function CommitsOf(rs: seq<WalRecord>): seq<WalRecord>
  {
    if rs == [] then [] else (if rs[0].kind == COMMIT then [rs[0]] else []) + CommitsOf(rs[1..])
  }

  lemma CommitsFit(crc: Checksum, wal: bytes)
    ensures forall r :: r in CommitsOf(Replay(crc, wal).records) ==> Fits(r) && r.kind == COMMIT
  {
    hide Replay, Fits, CommitsOf;
    ReplayedFit(crc, wal);
    CommitsAmong(Replay(crc, wal).records);
  }

  lemma {:induction false} CommitsAmong(rs: seq<WalRecord>)
    ensures forall r :: r in CommitsOf(rs) ==> r in rs && r.kind == COMMIT
    decreases |rs|
  {
    if rs != [] { CommitsAmong(rs[1..]); }
  }

  // A log the store has written can be added to exactly if no crash has torn its last record.
  lemma WholeWhenUntorn(crc: Checksum, rs: seq<WalRecord>, r: WalRecord, j: nat)
    requires (forall w :: w in rs ==> Fits(w) && w.kind == COMMIT) && Fits(r) && j < |Encode(crc, r)|
    ensures var wal := EncodeAll(crc, rs) + Encode(crc, r)[..j];
      wal == EncodeAll(crc, CommitsOf(Replay(crc, wal).records)) <==> j == 0
  {
    hide Replay, Encode, EncodeAll, Fits, CommitsOf;
    TornAppend(crc, rs, r, j);
    CommitsOnly(rs);
    assert |EncodeAll(crc, rs) + Encode(crc, r)[..j]| == |EncodeAll(crc, rs)| + j;
  }

  lemma {:induction false} CommitsOnly(rs: seq<WalRecord>)
    requires forall w :: w in rs ==> w.kind == COMMIT
    ensures CommitsOf(rs) == rs
    decreases |rs|
  {
    if rs != [] {
      CommitsOnly(rs[1..]);
      assert rs == [rs[0]] + rs[1..];
    }
  }

  lemma {:induction false} CommitsOfAppend(rs: seq<WalRecord>, r: WalRecord)
    ensures CommitsOf(rs + [r]) == CommitsOf(rs) + if r.kind == COMMIT then [r] else []
    decreases |rs|
  {
    if rs != [] {
      assert (rs + [r])[1..] == rs[1..] + [r];
      CommitsOfAppend(rs[1..], r);
    }
  }
}
