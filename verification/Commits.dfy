/**
 Offset commits as the group coordinator takes them: fenced by the group's membership and
 generation, then handed to the store as one batch.
 */
module Commits {
  import opened Bytes
  import opened OffsetWal
  import opened OffsetStore
  import Groups
  import GroupManager

  datatype PartitionCommit = PartitionCommit(
    partition: int32, offset: int64, leaderEpoch: int32, metadata: Option<bytes>)

  datatype TopicCommit = TopicCommit(topic: bytes, partitions: seq<PartitionCommit>)

  datatype CommitRequest = CommitRequest(group: bytes, memberId: string, generation: int, topics: seq<TopicCommit>)

  function RecordFor(group: bytes, topic: bytes, p: PartitionCommit): WalRecord
  {
    WalRecord(COMMIT, group, topic, p.partition, p.offset, p.leaderEpoch, p.metadata, 0)
  }

  function TopicRecords(group: bytes, t: TopicCommit, n: nat): seq<WalRecord>
    requires n <= |t.partitions|
  {
    if n == 0 then [] else TopicRecords(group, t, n - 1) + [RecordFor(group, t.topic, t.partitions[n - 1])]
  }

  function RequestRecords(group: bytes, topics: seq<TopicCommit>): seq<WalRecord>
  {
    if topics == [] then [] else
    var t := topics[|topics| - 1];
    RequestRecords(group, topics[..|topics| - 1]) + TopicRecords(group, t, |t.partitions|)
  }

  // ------------------------------------------------------------ what a request commits

  // Partition j of topic i is the last in the request of that topic and partition.
  predicate LastNamed(topics: seq<TopicCommit>, i: nat, j: nat)
  {
    && i < |topics| && j < |topics[i].partitions|
    && (forall l :: j < l < |topics[i].partitions| ==>
          topics[i].partitions[l].partition != topics[i].partitions[j].partition)
    && (forall n :: i < n < |topics| ==>
          !(topics[n].topic == topics[i].topic && Mentions(topics[n], topics[i].partitions[j].partition)))
  }

  predicate Mentions(t: TopicCommit, partition: int32)
  {
    exists l :: 0 <= l < |t.partitions| && t.partitions[l].partition == partition
  }

  predicate Requested(topics: seq<TopicCommit>, topic: bytes, partition: int32)
  {
    exists n :: 0 <= n < |topics| && topics[n].topic == topic && Mentions(topics[n], partition)
  }

  // Every partition named in the request has the offset, metadata and leader epoch it names last, as
  // of the time of the call, and every other offset is as it was.
  ghost predicate HoldsRequest(before: Offsets, after: Offsets, group: bytes, topics: seq<TopicCommit>, now: int64)
  {
    && (forall i: nat, j: nat :: LastNamed(topics, i, j) ==>
          var t, p := topics[i], topics[i].partitions[j];
          Get(after, Key(group, t.topic, p.partition))
          == Some(Committed(p.offset, p.metadata, p.leaderEpoch, now)))
    && (forall k: Key :: k.group != group || !Requested(topics, k.topic, k.partition) ==>
          Get(after, k) == Get(before, k))
  }

  lemma NothingStamped(m: Offsets, now: int64)
    ensures Applied(m, Stamped([], now)) == m
  {
  }

  lemma StampedAppend(a: seq<WalRecord>, b: seq<WalRecord>, now: int64)
    ensures Stamped(a + b, now) == Stamped(a, now) + Stamped(b, now)
  {
  }

  // One more partition of a topic.
  lemma TopicStep(m: Offsets, group: bytes, t: TopicCommit, n: nat, now: int64)
    requires 0 < n <= |t.partitions|
    ensures var p := t.partitions[n - 1];
      Applied(m, Stamped(TopicRecords(group, t, n), now))
      == Applied(m, Stamped(TopicRecords(group, t, n - 1), now))[Key(group, t.topic, p.partition) :=
           Committed(p.offset, p.metadata, p.leaderEpoch, now)]
  {
    hide Applied, Stamped;
    var r := RecordFor(group, t.topic, t.partitions[n - 1]);
    StampedAppend(TopicRecords(group, t, n - 1), [r], now);
    assert Stamped([r], now) == [r.(timestamp := now)];
    AppliedOne(m, Stamped(TopicRecords(group, t, n - 1), now), r.(timestamp := now));
  }

  lemma {:induction false} TopicLast(m: Offsets, group: bytes, t: TopicCommit, n: nat, now: int64, j: nat)
    requires j < n <= |t.partitions|
    requires forall l :: j < l < n ==> t.partitions[l].partition != t.partitions[j].partition
    ensures var p := t.partitions[j];
      Get(Applied(m, Stamped(TopicRecords(group, t, n), now)), Key(group, t.topic, p.partition))
      == Some(Committed(p.offset, p.metadata, p.leaderEpoch, now))
    decreases n
  {
    hide Applied, Stamped, TopicRecords;
    TopicStep(m, group, t, n, now);
    if j < n - 1 { TopicLast(m, group, t, n - 1, now, j); }
  }

  lemma {:induction false} TopicOther(m: Offsets, group: bytes, t: TopicCommit, n: nat, now: int64, k: Key)
    requires n <= |t.partitions| && (k.group != group || k.topic != t.topic || !Mentions(t, k.partition))
    ensures Get(Applied(m, Stamped(TopicRecords(group, t, n), now)), k) == Get(m, k)
    decreases n
  {
    hide Applied, Stamped;
    if n == 0 {
      NothingStamped(m, now);
    } else {
      TopicStep(m, group, t, n, now);
      TopicOther(m, group, t, n - 1, now, k);
    }
  }

  // One more topic.
  lemma RequestStep(m: Offsets, group: bytes, topics: seq<TopicCommit>, now: int64)
    requires topics != []
    ensures var n := |topics| - 1; var t := topics[n];
      Applied(m, Stamped(RequestRecords(group, topics), now))
      == Applied(Applied(m, Stamped(RequestRecords(group, topics[..n]), now)),
                 Stamped(TopicRecords(group, t, |t.partitions|), now))
  {
    hide Applied, Stamped, TopicRecords;
    var n := |topics| - 1;
    var front, last := RequestRecords(group, topics[..n]), TopicRecords(group, topics[n], |topics[n].partitions|);
    StampedAppend(front, last, now);
    AppliedAppend(m, Stamped(front, now), Stamped(last, now));
  }

  lemma {:induction false} RequestLast(m: Offsets, group: bytes, topics: seq<TopicCommit>, now: int64, i: nat, j: nat)
    requires LastNamed(topics, i, j)
    ensures var t, p := topics[i], topics[i].partitions[j];
      Get(Applied(m, Stamped(RequestRecords(group, topics), now)), Key(group, t.topic, p.partition))
      == Some(Committed(p.offset, p.metadata, p.leaderEpoch, now))
    decreases |topics|
  {
    hide Applied, Stamped, TopicRecords, RequestRecords, Mentions;
    var n := |topics| - 1;
    var t := topics[n];
    RequestStep(m, group, topics, now);
    var before := Applied(m, Stamped(RequestRecords(group, topics[..n]), now));
    if i == n {
      TopicLast(before, group, t, |t.partitions|, now, j);
    } else {
      assert LastNamed(topics[..n], i, j);
      RequestLast(m, group, topics[..n], now, i, j);
      TopicOther(before, group, t, |t.partitions|, now, Key(group, topics[i].topic, topics[i].partitions[j].partition));
    }
  }

  lemma {:induction false} RequestOther(m: Offsets, group: bytes, topics: seq<TopicCommit>, now: int64, k: Key)
    requires k.group != group || !Requested(topics, k.topic, k.partition)
    ensures Get(Applied(m, Stamped(RequestRecords(group, topics), now)), k) == Get(m, k)
    decreases |topics|
  {
    hide Applied, Stamped, TopicRecords, Mentions;
    if topics == [] {
      NothingStamped(m, now);
    } else {
      var n := |topics| - 1;
      var t := topics[n];
      RequestStep(m, group, topics, now);
      assert forall l :: 0 <= l < n ==> topics[..n][l] == topics[l];
      RequestOther(m, group, topics[..n], now, k);
      var before := Applied(m, Stamped(RequestRecords(group, topics[..n]), now));
      TopicOther(before, group, t, |t.partitions|, now, k);
    }
  }

  lemma RequestHeld(m: Offsets, group: bytes, topics: seq<TopicCommit>, now: int64)
    ensures HoldsRequest(m, Applied(m, Stamped(RequestRecords(group, topics), now)), group, topics, now)
  {
    hide Applied, Stamped, RequestRecords, Requested;
    var after := Applied(m, Stamped(RequestRecords(group, topics), now));
    forall i: nat, j: nat | LastNamed(topics, i, j)
      ensures var t, p := topics[i], topics[i].partitions[j];
        Get(after, Key(group, t.topic, p.partition)) == Some(Committed(p.offset, p.metadata, p.leaderEpoch, now))
    {
      RequestLast(m, group, topics, now, i, j);
    }
    forall k: Key | k.group != group || !Requested(topics, k.topic, k.partition)
      ensures Get(after, k) == Get(m, k)
    {
      RequestOther(m, group, topics, now, k);
    }
  }

  lemma {:induction false} TopicCommits(group: bytes, t: TopicCommit, n: nat)
    requires n <= |t.partitions|
    ensures forall r :: r in TopicRecords(group, t, n) ==> r.kind == COMMIT
    decreases n
  {
    if n > 0 { TopicCommits(group, t, n - 1); }
  }

  lemma {:induction false} RequestCommits(group: bytes, topics: seq<TopicCommit>)
    ensures forall r :: r in RequestRecords(group, topics) ==> r.kind == COMMIT
    decreases |topics|
  {
    hide TopicRecords;
    if topics != [] {
      var t := topics[|topics| - 1];
      RequestCommits(group, topics[..|topics| - 1]);
      TopicCommits(group, t, |t.partitions|);
    }
  }

  // ------------------------------------------------------------ the request

  // Every partition of the request is answered alike.
  ghost predicate AnsweredAlike(answers: seq<seq<Groups.Error>>, topics: seq<TopicCommit>, e: Groups.Error)
  {
    && |answers| == |topics|
    && forall i :: 0 <= i < |answers| ==> answers[i] == seq(|topics[i].partitions|, _ => e)
  }

  method AnswerTopic(group: bytes, t: TopicCommit, fence: Groups.Error)
    returns (answer: seq<Groups.Error>, recs: seq<WalRecord>)
    ensures answer == seq(|t.partitions|, _ => fence)
    ensures recs == if fence == Groups.NoError then TopicRecords(group, t, |t.partitions|) else []
  {
    hide RecordFor;
    recs, answer := [], [];
    for j := 0 to |t.partitions|
      invariant answer == seq(j, _ => fence)
      invariant recs == if fence == Groups.NoError then TopicRecords(group, t, j) else []
    {
      if fence == Groups.NoError {
        recs := recs + [RecordFor(group, t.topic, t.partitions[j])];
      }
      answer := answer + [fence];
      assert answer == seq(j + 1, _ => fence);
    }
  }

  method AnswerTopics(group: bytes, topics: seq<TopicCommit>, fence: Groups.Error)
    returns (answers: seq<seq<Groups.Error>>, recs: seq<WalRecord>)
    ensures AnsweredAlike(answers, topics, fence)
    ensures recs == if fence == Groups.NoError then RequestRecords(group, topics) else []
  {
    hide TopicRecords, AnsweredAlike;
    recs, answers := [], [];
    assert topics[..0] == [];
    NoneAnswered(fence);
    for i := 0 to |topics|
      invariant AnsweredAlike(answers, topics[..i], fence)
      invariant recs == if fence == Groups.NoError then RequestRecords(group, topics[..i]) else []
    {
      var answer, more := AnswerTopic(group, topics[i], fence);
      assert topics[..i + 1][..i] == topics[..i];
      AnsweredOne(answers, topics, i, answer, fence);
      answers, recs := answers + [answer], recs + more;
    }
    assert topics[..|topics|] == topics;
  }

  lemma NoneAnswered(e: Groups.Error)
    ensures AnsweredAlike([], [], e)
  {
  }

  lemma AnsweredOne(answers: seq<seq<Groups.Error>>, topics: seq<TopicCommit>, i: nat, answer: seq<Groups.Error>,
                    e: Groups.Error)
    requires i < |topics| && AnsweredAlike(answers, topics[..i], e) && answer == seq(|topics[i].partitions|, _ => e)
    ensures AnsweredAlike(answers + [answer], topics[..i + 1], e)
  {
  }

  // The answer once the store has failed.
  method AnswerFailed(topics: seq<TopicCommit>) returns (answers: seq<seq<Groups.Error>>)
    ensures AnsweredAlike(answers, topics, Groups.UnknownServerError)
  {
    hide AnsweredAlike;
    answers := [];
    assert topics[..0] == [];
    NoneAnswered(Groups.UnknownServerError);
    for i := 0 to |topics|
      invariant AnsweredAlike(answers, topics[..i], Groups.UnknownServerError)
    {
      var answer := seq(|topics[i].partitions|, _ => Groups.UnknownServerError);
      AnsweredOne(answers, topics, i, answer, Groups.UnknownServerError);
      answers := answers + [answer];
    }
    assert topics[..|topics|] == topics;
  }

  // A refused commit changes nothing, neither in memory nor in the log; an accepted one takes every
  // offset of the request into memory and is answered as an error if the log could not be written.
  method OffsetCommit(g: GroupManager.GroupObject, store: Store, req: CommitRequest, now: int64, cut: Option<nat>)
    returns (answers: seq<seq<Groups.Error>>)
    modifies store`offsets, store`wal, store`walN, store`logged, store`compacting
    ensures var fence := Groups.CommitFence(g.View(), req.memberId, req.generation);
      var recs := RequestRecords(req.group, req.topics);
      && (fence != Groups.NoError ==>
            store.offsets == old(store.offsets) && store.wal == old(store.wal)
            && AnsweredAlike(answers, req.topics, fence))
      && (fence == Groups.NoError ==>
            && store.offsets == Applied(old(store.offsets), Stamped(recs, now))
            && HoldsRequest(old(store.offsets), store.offsets, req.group, req.topics, now)
            && AnsweredAlike(answers, req.topics,
                             if recs == [] || cut.None? then Groups.NoError else Groups.UnknownServerError)
            && (recs == [] || cut.None? ==> store.wal == old(store.wal) + EncodeAll(store.crc, Stamped(recs, now))))
    ensures var fence := Groups.CommitFence(g.View(), req.memberId, req.generation);
      var recs := RequestRecords(req.group, req.topics);
      old(store.Durable()) && (fence == Groups.NoError ==> cut.None? && forall r :: r in recs ==> Fits(r)) ==>
        store.Durable()
  {
    hide Applied, Store.Durable, Stamped, AnsweredAlike, RequestRecords, EncodeAll, HoldsRequest, Took;
    var fence := g.FenceCommit(req.memberId, req.generation);
    var recs;
    answers, recs := AnswerTopics(req.group, req.topics, fence);
    NothingStamped(store.offsets, now);
    NothingLogged(store.crc, now);
    RequestHeld(store.offsets, req.group, req.topics, now);
    RequestCommits(req.group, req.topics);
    if |recs| > 0 {
      var ok, compact := store.CommitBatch(recs, now, cut);
      if !ok {
        answers := AnswerFailed(req.topics);
      }
    }
  }

  // A group that is deleted loses its committed offsets, in memory and in the files. A group the
  // manager does not know, as all are after a restart, is reported as deleted and keeps them.
  method DeleteGroup(m: GroupManager.Manager, store: Store, name: string, key: string -> bytes)
    returns (error: Groups.Error)
    requires m.Valid()
    modifies m`groups, m.groups.Values, store`offsets, store`snapshot, store`wal, store`walN, store`logged
    ensures m.Valid() && GroupManager.OthersKept(m, name) && (name in m.groups <==> error == Groups.NonEmptyGroup)
    ensures error == Groups.NonEmptyGroup <==> name in old(m.groups) && |old(m.groups[name].members)| > 0
    ensures error != Groups.NonEmptyGroup ==> error == Groups.NoError
    ensures if name in old(m.groups) && error == Groups.NoError
            then store.offsets == map k | k in old(store.offsets) && k.group != key(name) :: old(store.offsets)[k]
            else store.offsets == old(store.offsets) && store.snapshot == old(store.snapshot)
                 && store.wal == old(store.wal)
    ensures old(store.Durable()) ==> store.Durable()
  {
    hide GroupManager.Manager.Valid, Applied, EncodeAll;
    var known := name in m.groups;
    error := m.DeleteGroup(name);
    if known && error == Groups.NoError {
      store.DeleteGroup(key(name));
    }
  }

  // An accepted commit whose records fit the log is there after a restart: the store opened from the
  // files holds what the request names, and everything else as it was.
  method CommitAndReopen(g: GroupManager.GroupObject, store: Store, req: CommitRequest, now: int64)
    returns (answers: seq<seq<Groups.Error>>, r: Result<Store>)
    requires store.Durable() && Groups.CommitFence(g.View(), req.memberId, req.generation) == Groups.NoError
    requires forall r :: r in RequestRecords(req.group, req.topics) ==> Fits(r)
    modifies store`offsets, store`wal, store`walN, store`logged, store`compacting
    ensures AnsweredAlike(answers, req.topics, Groups.NoError)
    ensures r.Ok? && fresh(r.value) && HoldsRequest(old(store.offsets), r.value.offsets, req.group, req.topics, now)
  {
    hide Applied, Store.Durable, AnsweredAlike, RequestRecords, EncodeAll, HoldsRequest, Fits;
    answers := OffsetCommit(g, store, req, now, None);
    r := Reopen(store);
  }

  lemma NothingLogged(crc: Checksum, now: int64)
    ensures EncodeAll(crc, Stamped([], now)) == []
  {
  }
}
