/**
 Producer de-duplication: per producer id the last sequence, offset and epoch, checked before each
 append. `World` adds what has reached the log, so that whole runs of requests and retries can be
 compared with it.
 */
module Idempotence {
  import opened Bytes
  import opened BatchLog
  import opened OffsetIndex
  import opened Segments
  import opened Partitions

  datatype ProducerState = ProducerState(lastSequence: int32, lastOffset: int, lastEpoch: int)

  type States = map<int, ProducerState>

  datatype Request = Request(pid: int, epoch: int, sequence: int32)

  // What the append does if it is called: it succeeds, it fails without effect, or it writes the
  // batch and then fails to sync it.
  datatype Outcome = Appended(offset: int) | Rejected | Unsynced(offset: int)

  datatype Reply = Ok(offset: int) | AppendFailed | EpochRegression | OutOfOrder

  // Whether a request gets as far as appending.
  predicate Appends(s: States, r: Request)
  {
    r.pid < 0 || r.pid !in s
    || (r.epoch >= s[r.pid].lastEpoch && r.sequence == Int32(s[r.pid].lastSequence + 1))
  }

  function Answer(s: States, r: Request, out: Outcome): Reply
  {
    if Appends(s, r) then (if out.Appended? then Ok(out.offset) else AppendFailed)
    else if r.epoch < s[r.pid].lastEpoch then EpochRegression
    else if r.sequence <= s[r.pid].lastSequence then Ok(s[r.pid].lastOffset)
    else OutOfOrder
  }

  function Recorded(s: States, r: Request, out: Outcome): States
  {
    if r.pid >= 0 && Appends(s, r) && out.Appended?
    then s[r.pid := ProducerState(r.sequence, out.offset, r.epoch)] else s
  }

  class Tracker {
    var producerStates: States

    constructor ()
      ensures producerStates == map[]
    {
      producerStates := map[];
    }

    // The append runs under the tracker's lock, after the checks.
    method ValidateAndAppend(p: Partition, r: Request, raw: bytes, syncOk: bool)
      returns (reply: Reply, ghost out: Outcome)
      requires p.Formed() && -TWO_63 <= p.nextOffset < TWO_63
      modifies this, p, p.activeSegment, p.activeSegment.index
      ensures p.Formed() && (old(p.Valid()) && (WellFormed(raw) || p.Log() == old(p.Log())) ==> p.Valid())
      ensures reply == Answer(old(producerStates), r, out) && producerStates == Recorded(old(producerStates), r, out)
      ensures if Appends(old(producerStates), r) && !out.Rejected?
              then out.offset == old(p.nextOffset) && HeaderOk(raw)
                   && p.Log() == old(p.Log()) + [Assigned(raw, old(p.nextOffset))]
              else p.Log() == old(p.Log()) && p.nextOffset == old(p.nextOffset)
    {
      hide WellFormed, Assigned, Int32, Partition.Valid, Partition.Formed, Partition.Log;
      out := Rejected;
      var pid, seqNo := r.pid, r.sequence;
      if pid < 0 {
        reply, out := AppendSynced(p, raw, syncOk);
        return;
      }
      if pid !in producerStates {
        reply, out := AppendSynced(p, raw, syncOk);
        if reply.Ok? {
          Unrelated(this, p.Segs());
          producerStates := producerStates[pid := ProducerState(seqNo, reply.offset, r.epoch)];
        }
        return;
      }
      var state := producerStates[pid];
      if r.epoch < state.lastEpoch {
        return EpochRegression, Rejected;
      }
      if seqNo == Int32(state.lastSequence + 1) {
        reply, out := AppendSynced(p, raw, syncOk);
        if reply.Ok? {
          Unrelated(this, p.Segs());
          producerStates := producerStates[pid := ProducerState(seqNo, reply.offset, r.epoch)];
        }
        return;
      }
      if seqNo <= state.lastSequence {
        return Ok(state.lastOffset), Rejected;
      }
      return OutOfOrder, Rejected;
    }
  }

  lemma Unrelated(t: Tracker, segs: seq<Segment>)
    ensures forall s: Segment :: s in segs ==> s as object != t
    ensures forall x: IndexFile :: x in Indexes(segs) ==> x as object != t
  {
  }

  method AppendSynced(p: Partition, raw: bytes, syncOk: bool) returns (reply: Reply, ghost out: Outcome)
    requires p.Formed() && -TWO_63 <= p.nextOffset < TWO_63
    modifies p, p.activeSegment, p.activeSegment.index
    ensures p.Formed() && (old(p.Valid()) && (WellFormed(raw) || out.Rejected?) ==> p.Valid())
    ensures reply == if out.Appended? then Ok(out.offset) else AppendFailed
    ensures if out.Rejected? then p.Log() == old(p.Log()) && p.nextOffset == old(p.nextOffset)
            else out.offset == old(p.nextOffset) && HeaderOk(raw)
                 && p.Log() == old(p.Log()) + [Assigned(raw, old(p.nextOffset))]
  {
    hide WellFormed, Assigned, Partition.Valid, Partition.Formed, Partition.Log;
    var off := p.Append(raw);
    if off.None? {
      return AppendFailed, Rejected;
    }
    if !syncOk {
      return AppendFailed, Unsynced(off.value);
    }
    return Ok(off.value), Appended(off.value);
  }

  // ------------------------------------------------------------ whole runs

  // A batch in the log, with the request that put it there.
  datatype Written = Written(request: Request, offset: int)

  datatype World = World(states: States, log: seq<Written>)

  function Step(w: World, r: Request, out: Outcome): World
  {
    World(Recorded(w.states, r, out),
          if Appends(w.states, r) && !out.Rejected? then w.log + [Written(r, out.offset)] else w.log)
  }

  function Run(w: World, inputs: seq<(Request, Outcome)>): World
    decreases |inputs|
  {
    if inputs == [] then w else
    var k := |inputs| - 1;
    Step(Run(w, inputs[..k]), inputs[k].0, inputs[k].1)
  }

  // The batches of one producer, in log order.
  function Of(log: seq<Written>, pid: int): (es: seq<Written>)
    ensures forall e :: e in es ==> e.request.pid == pid && e in log
  {
    if log == [] then [] else
    var k := |log| - 1;
    Of(log[..k], pid) + if log[k].request.pid == pid then [log[k]] else []
  }

  // Each batch has the sequence after the one before it, and no earlier epoch.
  predicate GapFree(es: seq<Written>)
  {
    forall i :: 0 <= i < |es| - 1 ==>
      es[i + 1].request.sequence == Int32(es[i].request.sequence + 1) && es[i].request.epoch <= es[i + 1].request.epoch
  }

  // The tracker remembers a producer's last batch, and the producer's batches form one run.
  predicate Tracks(w: World, pid: int)
  {
    var es := Of(w.log, pid);
    && GapFree(es)
    && (pid in w.states <==> es != [])
    && (es != [] ==>
          var last := es[|es| - 1];
          w.states[pid] == ProducerState(last.request.sequence, last.offset, last.request.epoch))
  }

  ghost predicate Inv(w: World)
  {
    forall pid :: pid >= 0 ==> Tracks(w, pid)
  }

  // A batch of a producer that is written, but reported as failed for want of a sync.
  predicate Untracked(w: World, r: Request, out: Outcome) { r.pid >= 0 && Appends(w.states, r) && out.Unsynced? }

  // A run in which that does not happen.
  predicate Clean(w: World, inputs: seq<(Request, Outcome)>)
    decreases |inputs|
  {
    inputs == [] ||
    var k := |inputs| - 1;
    Clean(w, inputs[..k]) && !Untracked(Run(w, inputs[..k]), inputs[k].0, inputs[k].1)
  }

  lemma OfAppend(log: seq<Written>, e: Written, pid: int)
    ensures Of(log + [e], pid) == Of(log, pid) + if e.request.pid == pid then [e] else []
  {
    assert (log + [e])[..|log|] == log;
  }

  lemma GapFreeAppend(es: seq<Written>, e: Written)
    requires GapFree(es)
    requires es != [] ==>
      var last := es[|es| - 1].request;
      e.request.sequence == Int32(last.sequence + 1) && last.epoch <= e.request.epoch
    ensures GapFree(es + [e])
  {
    hide Int32;
  }

  lemma TracksStep(w: World, r: Request, out: Outcome, pid: int)
    requires Tracks(w, pid) && pid >= 0 && !Untracked(w, r, out)
    ensures Tracks(Step(w, r, out), pid)
  {
    hide Of, Int32, GapFree;
    if Appends(w.states, r) && !out.Rejected? {
      var e := Written(r, out.offset);
      OfAppend(w.log, e, pid);
      assert Of(w.log, pid) + [] == Of(w.log, pid);
      if r.pid == pid { GapFreeAppend(Of(w.log, pid), e); }
    }
  }

  lemma UntrackedBreaks(w: World, r: Request, out: Outcome)
    requires Tracks(w, r.pid) && Untracked(w, r, out)
    ensures !Tracks(Step(w, r, out), r.pid)
  {
    hide Of, Int32, GapFree;
    OfAppend(w.log, Written(r, out.offset), r.pid);
    if r.pid in w.states { NextDiffers(w.states[r.pid].lastSequence); }
  }

  // A step keeps every producer's batches one gap-free run that the tracker knows the end of,
  // exactly unless it writes a producer's batch and then fails to sync it.
  lemma StepKeeps(w: World, r: Request, out: Outcome)
    requires Inv(w)
    ensures Inv(Step(w, r, out)) <==> !Untracked(w, r, out)
  {
    hide Tracks, Step, Untracked;
    if Untracked(w, r, out) {
      assert r.pid >= 0 by { UntrackedPid(w, r, out); }
      UntrackedBreaks(w, r, out);
    } else {
      forall pid | pid >= 0 ensures Tracks(Step(w, r, out), pid) { TracksStep(w, r, out, pid); }
    }
  }

  lemma UntrackedPid(w: World, r: Request, out: Outcome)
    requires Untracked(w, r, out)
    ensures r.pid >= 0
  {
  }

  // Over any run of requests and retries without such a step, the batches of every producer form a
  // gap-free run.
  lemma {:induction false} RunKeeps(inputs: seq<(Request, Outcome)>)
    requires Clean(World(map[], []), inputs)
    ensures Inv(Run(World(map[], []), inputs))
    decreases |inputs|
  {
    hide Step, Untracked;
    if inputs == [] {
      assert forall pid :: Of([], pid) == [];
    } else {
      var k := |inputs| - 1;
      RunKeeps(inputs[..k]);
      StepKeeps(Run(World(map[], []), inputs[..k]), inputs[k].0, inputs[k].1);
    }
  }

  // What a producer's request is told and whether its batch is written, from the producer's last
  // batch in the log alone. A request is refused for its epoch exactly if that is below the last
  // one's. Otherwise it is written exactly if its sequence is the next one, or there is no batch yet;
  // any other is answered as done if its sequence is not above the last one's, and as out of order
  // if it is.
  lemma AnswersByLog(w: World, r: Request, out: Outcome)
    requires Inv(w) && r.pid >= 0
    ensures var es, reply, log := Of(w.log, r.pid), Answer(w.states, r, out), Step(w, r, out).log;
      if es == [] || (var last := es[|es| - 1].request;
                      r.epoch >= last.epoch && r.sequence == Int32(last.sequence + 1))
      then
        && log == w.log + (if out.Rejected? then [] else [Written(r, out.offset)])
        && reply == if out.Appended? then Ok(out.offset) else AppendFailed
      else
        var last := es[|es| - 1];
        && log == w.log
        && (reply == EpochRegression <==> r.epoch < last.request.epoch)
        && (reply == Ok(last.offset) <==> r.epoch >= last.request.epoch && r.sequence <= last.request.sequence)
        && (reply == OutOfOrder <==> r.epoch >= last.request.epoch && r.sequence > last.request.sequence)
  {
    hide Of, GapFree, Int32;
    assert Tracks(w, r.pid);
    assert w.log + [] == w.log;
  }

  // A batch without a producer id is always written.
  lemma UnnumberedAppends(w: World, r: Request, out: Outcome)
    requires r.pid < 0
    ensures Step(w, r, out).log == w.log + (if out.Rejected? then [] else [Written(r, out.offset)])
    ensures Answer(w.states, r, out) == if out.Appended? then Ok(out.offset) else AppendFailed
    ensures Step(w, r, out).states == w.states
  {
    assert w.log + [] == w.log;
  }

  // After such a step, and only then, the retry of a request that was appended is appended again.
  lemma RetryAppends(w: World, r: Request, out: Outcome)
    requires Inv(w) && r.pid >= 0 && Appends(w.states, r) && !out.Rejected?
    ensures Appends(Step(w, r, out).states, r) <==> Untracked(w, r, out)
  {
    NextDiffers(r.sequence);
  }

  // Short of 32-bit wrap-around the sequences are consecutive, so none is appended twice.
  lemma {:induction false} NoRepeats(es: seq<Written>, i: nat)
    requires GapFree(es) && i < |es| && es[0].request.sequence + |es| <= TWO_31
    ensures es[i].request.sequence == es[0].request.sequence + i
    decreases i
  {
    if i > 0 {
      NoRepeats(es, i - 1);
      assert es[i - 1 + 1].request.sequence == Int32(es[i - 1].request.sequence + 1);
    }
  }

  // A retry that is accepted without appending leaves the log alone and answers the offset of the
  // producer's last batch.
  lemma RetryAnswers(w: World, r: Request, out: Outcome)
    requires Inv(w) && !Appends(w.states, r) && Answer(w.states, r, out).Ok?
    ensures Step(w, r, out) == w
    ensures var es := Of(w.log, r.pid);
      es != [] && es[|es| - 1] in w.log && Answer(w.states, r, out) == Ok(es[|es| - 1].offset)
      && r.sequence <= es[|es| - 1].request.sequence
  {
    hide GapFree, Of;
    assert Tracks(w, r.pid);
    var es := Of(w.log, r.pid);
    assert es[|es| - 1] in es;
  }

  // With one offset per batch, that is the retried batch's own offset exactly when the retried
  // sequence is the producer's latest.
  lemma RetryOfOlder(w: World, r: Request, out: Outcome, i: nat)
    requires Inv(w) && !Appends(w.states, r) && Answer(w.states, r, out).Ok?
    requires i < |Of(w.log, r.pid)| && Of(w.log, r.pid)[i].request.sequence == r.sequence
    requires var es := Of(w.log, r.pid); es[0].request.sequence + |es| <= TWO_31
    requires var es := Of(w.log, r.pid); forall j, k :: 0 <= j < k < |es| ==> es[j].offset < es[k].offset
    ensures Answer(w.states, r, out) == Ok(Of(w.log, r.pid)[i].offset) <==> r.sequence == w.states[r.pid].lastSequence
  {
    hide Of;
    assert Tracks(w, r.pid);
    var es := Of(w.log, r.pid);
    NoRepeats(es, i);
    NoRepeats(es, |es| - 1);
  }

  // Whether a request has its batch in the log.
  ghost predicate HasBatch(log: seq<Written>, r: Request) { exists i :: 0 <= i < |log| && log[i].request == r }

  // The batch with the request's sequence, counted from the producer's first, has its epoch too.
  predicate SameEpoch(es: seq<Written>, r: Request)
  {
    && es != []
    && var i := r.sequence - es[0].request.sequence;
    0 <= i < |es| && es[i].request.epoch == r.epoch
  }

  lemma {:induction false} OfAll(log: seq<Written>, i: nat)
    requires i < |log|
    ensures log[i] in Of(log, log[i].request.pid)
    decreases |log|
  {
    var n := |log| - 1;
    if i < n { OfAll(log[..n], i); }
  }

  // A request that is answered as done has its own batch in the log exactly if it was appended now,
  // or the producer's batch of that sequence was written under the same epoch.
  lemma AnsweredWritten(w: World, r: Request, out: Outcome)
    requires Inv(w) && r.pid >= 0 && Answer(w.states, r, out).Ok?
    requires var es := Of(w.log, r.pid); es != [] ==> es[0].request.sequence + |es| <= TWO_31
    ensures HasBatch(Step(w, r, out).log, r) <==> Appends(w.states, r) || SameEpoch(Of(w.log, r.pid), r)
  {
    hide Of, GapFree;
    if Appends(w.states, r) {
      assert Step(w, r, out).log[|w.log|].request == r;
    } else {
      RetryAnswers(w, r, out);
      SequencePlace(w, r);
    }
  }

  lemma SequencePlace(w: World, r: Request)
    requires Tracks(w, r.pid) && Of(w.log, r.pid) != []
    requires var es := Of(w.log, r.pid);
      es[0].request.sequence + |es| <= TWO_31 && r.sequence <= es[|es| - 1].request.sequence
    ensures HasBatch(w.log, r) <==> SameEpoch(Of(w.log, r.pid), r)
  {
    hide Of, GapFree;
    var es := Of(w.log, r.pid);
    var i := r.sequence - es[0].request.sequence;
    NoRepeats(es, |es| - 1);
    if HasBatch(w.log, r) {
      var n :| 0 <= n < |w.log| && w.log[n].request == r;
      OfAll(w.log, n);
      var j :| 0 <= j < |es| && es[j] == w.log[n];
      NoRepeats(es, j);
    }
    if SameEpoch(es, r) {
      NoRepeats(es, i);
      assert es[i] in es && es[i].request == r;
    }
  }

  // A producer that starts its sequence again under a new epoch is told its first batch is done, and
  // the batch is not in the log.
  lemma NewEpochLost(pid: int, first: int, out: Outcome)
    requires pid >= 0
    ensures var r, again := Request(pid, 0, 0), Request(pid, 1, 0);
      var w := Step(World(map[], []), r, Appended(first));
      Answer(w.states, again, out) == Ok(first) && !HasBatch(Step(w, again, out).log, again)
  {
  }

  // A restart empties the tracker: the retry of a request that was appended before it is appended
  // again, as long as no other request of the producer has come first.
  lemma RestartRepeats(w: World, r: Request, offset: int)
    requires r.pid >= 0 && HasBatch(w.log, r)
    ensures !Tracks(World(map[], w.log), r.pid)
    ensures Step(World(map[], w.log), r, Appended(offset)).log == w.log + [Written(r, offset)]
  {
    hide GapFree;
    var i :| 0 <= i < |w.log| && w.log[i].request == r;
    OfAll(w.log, i);
  }

  // If an append writes its batch and only then fails to sync, the retry writes it again.
  lemma UnsyncedRepeats(pid: int, epoch: int, sequence: int32, first: int, second: int)
    requires pid >= 0
    ensures var r := Request(pid, epoch, sequence);
      var w := Run(World(map[], []), [(r, Unsynced(first)), (r, Appended(second))]);
      Of(w.log, pid) == [Written(r, first), Written(r, second)] && !GapFree(Of(w.log, pid))
  {
    hide Of, Run, Int32;
    var r := Request(pid, epoch, sequence);
    var a, b := (r, Unsynced(first)), (r, Appended(second));
    RunTwo(World(map[], []), a, b);
    OfNone(pid);
    OfAppend([], Written(r, first), pid);
    OfAppend([Written(r, first)], Written(r, second), pid);
    assert [] + [Written(r, first)] == [Written(r, first)];
    var es := [Written(r, first), Written(r, second)];
    assert es == [Written(r, first)] + [Written(r, second)];
    NextDiffers(sequence);
    assert es[0 + 1].request.sequence != Int32(es[0].request.sequence + 1);
  }

  lemma NextDiffers(s: int32)
    ensures Int32(s + 1) != s
  {
  }

  lemma OfNone(pid: int)
    ensures Of([], pid) == []
  {
  }

  lemma RunTwo(w: World, a: (Request, Outcome), b: (Request, Outcome))
    ensures Run(w, [a, b]) == Step(Step(w, a.0, a.1), b.0, b.1)
  {
    hide Step;
    assert [a, b][..1] == [a] && [a][..0] == [];
    assert Run(w, []) == w;
    assert Run(w, [a]) == Step(w, a.0, a.1);
  }
}
