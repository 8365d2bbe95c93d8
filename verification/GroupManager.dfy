/**
 The coordinator's objects: groups with the fields the requests update in place, and the manager
 that finds them and issues member ids. Each method is one critical section and is proved to take
 the step of the same name in `Groups`.
 */
module GroupManager {
  import opened Bytes
  import opened Groups

  datatype ResponseMember = ResponseMember(memberId: string, instanceId: Option<string>, metadata: Option<bytes>)

  datatype JoinResponse = JoinResponse(
    error: Error, generation: int, protocolName: string, leaderId: string, memberId: string,
    members: seq<ResponseMember>)

  datatype JoinOutcome = Answered(response: JoinResponse) | Waiting(memberId: string)

  datatype SyncOutcome = Synced(error: Error, assignment: Option<bytes>) | SyncWaiting

  function MetadataFor(protocols: seq<Protocol>, name: string): Option<bytes>
  {
    if protocols == [] then None
    else if protocols[0].name == name then Some(protocols[0].metadata)
    else MetadataFor(protocols[1..], name)
  }

  // What the leader is shown of the members listed in `order`.
  function Listed(g: Group, order: seq<string>): seq<ResponseMember>
  {
    if order == [] then [] else
    var k := |order| - 1;
    Listed(g, order[..k]) +
    if order[k] in g.members then
      var m := g.members[order[k]];
      [ResponseMember(order[k], m.instanceId, MetadataFor(m.protocols, g.protocol))]
    else []
  }

  function JoinAnswer(g: Group, id: string): JoinResponse
  {
    JoinResponse(NoError, g.generation, g.protocol, g.leader, id, if id == g.leader then Listed(g, g.joinOrder) else [])
  }

  // What a join is told, from the group before and after it: nothing yet while the round is open.
  function JoinReply(w: World, w': World, req: JoinRequest): JoinOutcome
  {
    if req.protocols == [] then Answered(JoinResponse(InconsistentProtocol, -1, "", "", req.memberId, []))
    else if w'.group.phase == Preparing then Waiting(JoinId(w, req))
    else Answered(JoinAnswer(w'.group, JoinId(w, req)))
  }

  // What a sync is told: its refusal, its assignment, or nothing while the leader's is awaited.
  function SyncReply(g: Group, g': Group, id: string, generation: int): SyncOutcome
  {
    if SyncFence(g, id, generation) != NoError then Synced(SyncFence(g, id, generation), None)
    else if id in g'.assignments then Synced(NoError, Some(g'.assignments[id].data))
    else if g.phase == Completing && id != g.leader then SyncWaiting
    else Synced(NoError, None)
  }

  // The members among ids, each once, in the order of the request.
  function LeftOf(members: set<string>, ids: seq<string>): seq<string>
  {
    if ids == [] then [] else
    var k := |ids| - 1;
    LeftOf(members, ids[..k]) + if ids[k] in members && ids[k] !in ids[..k] then [ids[k]] else []
  }

  // What a waiting sync is told when it wakes.
  function WakeReply(g: Group, id: string, generation: int, timedOut: bool): SyncOutcome
  {
    if SyncWaits(g, id, generation) && !timedOut then SyncWaiting
    else Synced(NoError, if id in g.assignments then Some(g.assignments[id].data) else None)
  }

  // Once a sync that is not refused has submitted an assignment for a member, that is what the
  // member's own sync is answered later in the same generation, and what it is told when it wakes
  // from an earlier one, unless another sync names it.
  lemma AssignmentReaches(w: World, sender: string, submitted: seq<(string, bytes)>, i: nat, ops: seq<Op>,
                          more: seq<(string, bytes)>, timedOut: bool)
    requires Inv(w) && SyncFence(w.group, sender, w.group.generation) == NoError && LastNaming(submitted, i)
    requires submitted[i].0 in w.group.members && NobodyNames(ops, submitted[i].0) && !Names(more, submitted[i].0)
    requires var g := After(w, [Op.Sync(sender, w.group.generation, submitted)] + ops).group;
      submitted[i].0 in g.members && g.generation == w.group.generation
    ensures var g, id := After(w, [Op.Sync(sender, w.group.generation, submitted)] + ops).group, submitted[i].0;
      && WakeReply(g, id, g.generation, timedOut) == Synced(NoError, Some(submitted[i].1))
      && SyncReply(g, SyncStep(g, id, g.generation, more), id, g.generation)
         == if g.phase == Preparing then Synced(RebalanceInProgress, None) else Synced(NoError, Some(submitted[i].1))
  {
    hide Inv, After, NobodyNames, SyncStep;
    AssignmentHeld(w, sender, submitted, i, ops);
    var g := After(w, [Op.Sync(sender, w.group.generation, submitted)] + ops).group;
    SyncIs(g, submitted[i].0, g.generation, more, submitted[i].0);
  }

  // A join that is not answered at once waits, under its own id, exactly while somebody else has yet
  // to join. The one that comes last is told the new generation, the protocol and leader of the round,
  // and, if it leads, who the members are.
  lemma JoinTold(w: World, req: JoinRequest, timeout: int, now: int)
    requires Inv(w) && req.protocols != []
    requires !(req.memberId in w.group.members && w.group.phase == Stable
               && SameMetadata(w.group.members[req.memberId], req))
    ensures var g, w' := w.group, JoinStep(w, req, timeout, now);
      var id, told := JoinId(w, req), JoinReply(w, w', req);
      if exists x :: x in g.members && x != id && (g.phase == Preparing ==> x !in g.joined)
      then told == Waiting(id)
      else told.Answered? && var r := told.response;
        && r.error == NoError && r.generation == g.generation + 1 && r.memberId == id
        && r.protocolName == w'.group.protocol && r.leaderId == w'.group.leader
        && (r.leaderId == id ==> |r.members| == |w'.group.joinOrder|) && (r.leaderId != id ==> r.members == [])
  {
    hide Inv, JoinStep, JoinId, Listed;
    JoinIs(w, req, timeout, now);
    StepKeeps(w, Op.Join(req, timeout, now));
    LeaderSeesMembers(JoinStep(w, req, timeout, now));
  }

  // A leave reports exactly the listed members, each once.
  lemma {:induction false} LeftIs(members: set<string>, ids: seq<string>)
    ensures forall id :: id in LeftOf(members, ids) <==> id in ids && id in members
    ensures NoRepeat(LeftOf(members, ids))
    decreases |ids|
  {
    if ids != [] {
      var k := |ids| - 1;
      LeftIs(members, ids[..k]);
      assert ids == ids[..k] + [ids[k]];
    }
  }

  // While a round is completing, nobody but the leader is answered without an assignment, unless its
  // time is up; who has to wait finds the group still completing.
  lemma WaitsForAssignment(g: Group, id: string, submitted: seq<(string, bytes)>, timedOut: bool)
    requires id in g.members && g.phase == Completing && id != g.leader
    ensures var g' := SyncStep(g, id, g.generation, submitted);
      var told := SyncReply(g, g', id, g.generation);
      if id in g'.assignments then told.Synced? && told.error == NoError && told.assignment.Some?
      else told == SyncWaiting && g'.phase == Completing
    ensures WakeReply(g, id, g.generation, timedOut) ==
      if id in g.assignments then Synced(NoError, Some(g.assignments[id].data))
      else if timedOut then Synced(NoError, None) else SyncWaiting
  {
    hide SyncStep;
    SyncIs(g, id, g.generation, submitted, id);
  }

  // The leader is shown every member, once, in join order, with its instance id and what it has said
  // about the first of its protocols that has the chosen name.
  lemma LeaderSeesMembers(w: World)
    requires Inv(w)
    ensures var g, r := w.group, Listed(w.group, w.group.joinOrder);
      && |r| == |g.joinOrder|
      && forall i :: 0 <= i < |r| ==>
           && r[i].memberId == g.joinOrder[i] && r[i].memberId in g.members
           && r[i].instanceId == g.members[r[i].memberId].instanceId
           && SaidAbout(g.members[r[i].memberId].protocols, g.protocol, r[i].metadata)
  {
    hide SaidAbout, MembershipInv, LeaderInv, AssignmentInv, Issued;
    assert Listing(w.group) by { GroupInvListing(w.group); }
    ListedAll(w.group, w.group.joinOrder);
  }

  // The metadata of the first protocol of that name, or nothing if there is none.
  predicate SaidAbout(protocols: seq<Protocol>, name: string, metadata: Option<bytes>)
  {
    match metadata
    case None => forall k :: 0 <= k < |protocols| ==> protocols[k].name != name
    case Some(data) =>
      exists k :: 0 <= k < |protocols| && protocols[k] == Protocol(name, data)
                  && forall j :: 0 <= j < k ==> protocols[j].name != name
  }

  lemma {:induction false} MetadataIs(protocols: seq<Protocol>, name: string)
    ensures SaidAbout(protocols, name, MetadataFor(protocols, name))
    decreases |protocols|
  {
    if protocols != [] {
      var rest := protocols[1..];
      if protocols[0].name == name {
        assert protocols[0] == Protocol(name, protocols[0].metadata);
      } else {
        MetadataIs(rest, name);
        var said := MetadataFor(rest, name);
        if said.Some? {
          var k :| 0 <= k < |rest| && rest[k] == Protocol(name, said.value)
            && forall j :: 0 <= j < k ==> rest[j].name != name;
          assert protocols[k + 1] == Protocol(name, said.value);
        } else {
          assert forall k :: 0 < k < |protocols| ==> protocols[k] == rest[k - 1];
        }
      }
    }
  }

  lemma {:induction false} ListedAll(g: Group, order: seq<string>)
    requires forall id :: id in order ==> id in g.members
    ensures |Listed(g, order)| == |order|
    ensures forall i :: 0 <= i < |order| ==>
      var r := Listed(g, order)[i];
      && r.memberId == order[i] && r.instanceId == g.members[order[i]].instanceId
      && SaidAbout(g.members[order[i]].protocols, g.protocol, r.metadata)
    decreases |order|
  {
    hide SaidAbout, MetadataFor;
    if order != [] {
      var k := |order| - 1;
      ListedAll(g, order[..k]);
      MetadataIs(g.members[order[k]].protocols, g.protocol);
    }
  }

  method FilterOrderOf(order: seq<string>, remove: set<string>) returns (out: seq<string>)
    ensures out == FilterOrder(order, remove)
  {
    out := [];
    for i := 0 to |order|
      invariant out == FilterOrder(order[..i], remove)
    {
      assert order[..i + 1][..i] == order[..i];
      if order[i] !in remove {
        out := out + [order[i]];
      }
    }
    assert order[..|order|] == order;
  }

  method SupportsProtocol(m: Member, name: string) returns (supported: bool)
    ensures supported <==> Supports(m, name)
  {
    supported := false;
    for i := 0 to |m.protocols|
      invariant !supported && forall j :: 0 <= j < i ==> m.protocols[j].name != name
    {
      if m.protocols[i].name == name {
        return true;
      }
    }
  }

  method ChooseProtocolFor(members: map<string, Member>, order: seq<string>, leader: Member) returns (name: string)
    ensures name == ChooseProtocol(members, order, leader)
  {
    hide Supports;
    var ps := leader.protocols;
    if |ps| == 0 {
      return "";
    }
    assert ps[0..] == ps;
    for c := 0 to |ps|
      invariant FirstCommon(members, order, ps) == FirstCommon(members, order, ps[c..])
    {
      var ok := true;
      for i := 0 to |order|
        invariant ok ==> forall j :: 0 <= j < i && order[j] in members ==> Supports(members[order[j]], ps[c].name)
        invariant !ok ==> !AllSupport(members, order, ps[c].name)
      {
        if order[i] in members {
          var supported := SupportsProtocol(members[order[i]], ps[c].name);
          if !supported {
            ok := false;
            break;
          }
        }
      }
      assert ps[c..][1..] == ps[c + 1..];
      if ok {
        return ps[c].name;
      }
    }
    return ps[0].name;
  }

  class GroupObject {
    var phase: Phase
    var generation: int
    var protocolType: string
    var protocol: string
    var leaderId: string
    var members: map<string, Member>
    var joinOrder: seq<string>
    var joined: set<string>
    var assignments: map<string, bytes>
    var deleted: bool
    ghost var stored: map<string, Stored>
    ghost var round: nat

    ghost function View(): Group
      reads this
    {
      Group(phase, generation, protocolType, protocol, leaderId, members, joinOrder, joined, stored, round)
    }

    // The tags of the specification sit on exactly the assignments held.
    ghost predicate Tagged()
      reads this
    {
      stored.Keys == assignments.Keys && forall id :: id in stored ==> stored[id].data == assignments[id]
    }

    constructor ()
      ensures View() == NewGroup && Tagged() && !deleted
    {
      phase, generation, protocolType, protocol, leaderId := Empty, 0, "", "", "";
      members, joinOrder, joined, assignments, deleted := map[], [], {}, map[], false;
      stored, round := map[], 0;
    }

    method BeginRebalance()
      modifies this`phase, this`joined
      ensures View() == Groups.BeginRebalance(old(View()))
    {
      phase, joined := Preparing, {};
    }

    method CompleteJoin()
      requires Listing(View()) && Tagged()
      modifies this
      ensures View() == Groups.CompleteJoin(old(View())) && Tagged() && deleted == old(deleted)
    {
      hide ChooseProtocol, Listing, Groups.CompleteJoin;
      CompleteJoinIs(View());
      if |members| == 0 {
        phase, leaderId, joined := Empty, "", {};
        return;
      }
      var leader := members[joinOrder[0]];
      var chosen := ChooseProtocolFor(members, joinOrder, leader);
      StartRound(joinOrder[0], leader.protocolType, chosen);
    }

    method StartRound(leader: string, ptype: string, chosen: string)
      modifies this
      ensures View() == Group(Completing, old(generation) + 1, ptype, chosen, leader, old(members), old(joinOrder),
                              {}, map[], old(round) + 1)
      ensures Tagged() && deleted == old(deleted)
    {
      generation, phase, leaderId, protocolType, protocol := generation + 1, Completing, leader, ptype, chosen;
      assignments, stored, joined, round := map[], map[], {}, round + 1;
    }

    method RemoveMembers(gone: set<string>)
      requires Listing(View())
      modifies this`members, this`joined, this`joinOrder
      ensures View() == Removed(old(View()), gone)
    {
      members := members - gone;
      joined := joined - gone;
      joinOrder := FilterOrderOf(joinOrder, gone);
    }

    // Collecting whoever has not rejoined, then completing without them.
    method ExpireRebalance()
      requires Listing(View()) && Tagged()
      modifies this
      ensures View() == Expire(old(View())) && Tagged() && deleted == old(deleted)
    {
      hide Listing, Removed, Groups.CompleteJoin;
      var dead, left := {}, members.Keys;
      while left != {}
        invariant left <= members.Keys && dead == (members.Keys - left) - joined
        decreases |left|
      {
        var id :| id in left;
        left := left - {id};
        if id !in joined {
          dead := dead + {id};
        }
      }
      assert dead == members.Keys - joined;
      RemoveMembers(dead);
      CompleteJoin();
    }

    method FillJoinResponse(memberId: string) returns (resp: JoinResponse)
      ensures resp == JoinAnswer(View(), memberId)
    {
      hide MetadataFor;
      resp := JoinResponse(NoError, generation, protocol, leaderId, memberId, []);
      if memberId != leaderId {
        return;
      }
      var out := [];
      for i := 0 to |joinOrder|
        invariant out == Listed(View(), joinOrder[..i])
      {
        assert joinOrder[..i + 1][..i] == joinOrder[..i];
        if joinOrder[i] in members {
          var m := members[joinOrder[i]];
          var meta := FindMetadata(m.protocols, protocol);
          out := out + [ResponseMember(joinOrder[i], m.instanceId, meta)];
        }
      }
      assert joinOrder[..|joinOrder|] == joinOrder;
      resp := resp.(members := out);
    }

    // The part of a join after the member has been entered.
    method Rejoin(memberId: string) returns (waiting: bool)
      requires Listing(View()) && Tagged()
      modifies this
      ensures View() == JoinMember(old(View()), memberId) && Tagged() && deleted == old(deleted)
      ensures memberId in old(members) ==> (waiting <==> phase == Preparing)
    {
      hide Listing;
      ghost var g := View();
      if phase != Preparing {
        BeginRebalance();
      }
      joined := joined + {memberId};
      SameListing(g, View());
      waiting := |joined| < |members|;
      if !waiting {
        CompleteJoin();
      }
    }

    // A waiter that wakes: gone, past its deadline, or answered by a completed rebalance.
    method WakeJoin(memberId: string, expired: bool, ghost issued: nat) returns (outcome: JoinOutcome)
      requires Inv(World(View(), issued)) && Tagged()
      modifies this
      ensures World(View(), issued) == JoinWake(World(old(View()), issued), memberId, expired)
      ensures Tagged() && deleted == old(deleted)
      ensures memberId !in old(members) ==> outcome.Answered? && outcome.response.error == UnknownMember
      ensures outcome.Answered? && outcome.response.error == NoError ==>
        outcome.response == JoinAnswer(View(), memberId)
      ensures outcome.Waiting? <==> memberId in old(members) && !expired && phase == Preparing
    {
      hide Expire;
      if memberId !in members {
        return Answered(JoinResponse(UnknownMember, -1, "", "", memberId, []));
      }
      if expired {
        ExpireRebalance();
      } else if phase == Preparing {
        return Waiting(memberId);
      }
      var resp := FillJoinResponse(memberId);
      return Answered(resp);
    }

    method Sync(memberId: string, requested: int, submitted: seq<(string, bytes)>) returns (outcome: SyncOutcome)
      requires Tagged()
      modifies this`phase, this`assignments, this`stored
      ensures View() == SyncStep(old(View()), memberId, requested, submitted) && Tagged()
      ensures outcome == SyncReply(old(View()), View(), memberId, requested)
    {
      if phase == Preparing {
        return Synced(RebalanceInProgress, None);
      }
      if memberId !in members {
        return Synced(UnknownMember, None);
      }
      if requested != generation {
        return Synced(IllegalGeneration, None);
      }
      ghost var g := View();
      for i := 0 to |submitted|
        invariant stored == StoreAll(g, memberId, submitted[..i]) && Tagged()
        invariant View() == g.(assignments := stored)
      {
        assert submitted[..i + 1][..i] == submitted[..i];
        var (id, data) := submitted[i];
        assignments := assignments[id := data];
        stored := stored[id := Stored(data, round, generation, memberId)];
      }
      assert submitted[..|submitted|] == submitted;
      if memberId !in assignments && memberId != leaderId && phase == Completing {
        return SyncWaiting;
      }
      outcome := FinishSync(memberId, requested);
    }

    method FinishSync(memberId: string, requested: int) returns (outcome: SyncOutcome)
      requires Tagged()
      modifies this`phase
      ensures View() == SyncDone(old(View()), requested)
      ensures outcome == Synced(NoError, if memberId in assignments then Some(assignments[memberId]) else None)
    {
      outcome := Synced(NoError, if memberId in assignments then Some(assignments[memberId]) else None);
      if phase == Completing && requested == generation {
        phase := Stable;
      }
    }

    method WakeSync(memberId: string, requested: int, timedOut: bool) returns (outcome: SyncOutcome)
      requires Tagged()
      modifies this`phase
      ensures View() == SyncWake(old(View()), memberId, requested, timedOut)
      ensures outcome == WakeReply(old(View()), memberId, requested, timedOut)
    {
      if memberId !in assignments && phase == Completing && generation == requested && !timedOut {
        return SyncWaiting;
      }
      outcome := FinishSync(memberId, requested);
    }

    method Heartbeat(memberId: string, requested: int, now: int) returns (error: Error)
      modifies this`members
      ensures View() == HeartbeatStep(old(View()), memberId, requested, now)
      ensures error == HeartbeatFence(old(View()), memberId, requested)
    {
      if memberId !in members {
        return UnknownMember;
      }
      if phase == Preparing {
        return RebalanceInProgress;
      }
      if requested != generation {
        return IllegalGeneration;
      }
      members := members[memberId := members[memberId].(lastHeartbeat := now)];
      return NoError;
    }

    // Whether a commit may be stored; one without a generation comes from outside the group.
    method FenceCommit(memberId: string, requested: int) returns (error: Error)
      ensures error == CommitFence(View(), memberId, requested)
    {
      if requested < 0 {
        return NoError;
      }
      if phase == Preparing {
        return RebalanceInProgress;
      }
      if memberId !in members {
        return UnknownMember;
      }
      if requested != generation {
        return IllegalGeneration;
      }
      return NoError;
    }

    // Dropping the listed members, and reporting those that were members.
    method RemoveListed(ids: seq<string>) returns (left: seq<string>)
      requires Listing(View()) && joined <= members.Keys
      modifies this`members, this`joined, this`joinOrder
      ensures View() == Removed(old(View()), set id | id in ids) && left == LeftOf(old(members).Keys, ids)
    {
      hide Listing;
      left := [];
      for i := 0 to |ids|
        invariant members == old(members) - (set id | id in ids[..i])
        invariant joined == old(joined) - (set id | id in ids[..i])
        invariant joinOrder == old(joinOrder)
        invariant left == LeftOf(old(members).Keys, ids[..i])
      {
        assert ids[..i + 1] == ids[..i] + [ids[i]] && ids[..i + 1][..i] == ids[..i];
        if ids[i] in members {
          members := members - {ids[i]};
          joined := joined - {ids[i]};
          left := left + [ids[i]];
        }
      }
      assert ids[..|ids|] == ids;
      joinOrder := FilterOrderOf(joinOrder, set id | id in ids);
    }

    method Leave(ids: seq<string>) returns (left: seq<string>)
      requires Listing(View()) && Tagged() && joined <= members.Keys
      modifies this
      ensures View() == LeaveStep(old(View()), set id | id in ids) && Tagged() && deleted == old(deleted)
      ensures left == LeftOf(old(members).Keys, ids)
    {
      hide Listing, Groups.CompleteJoin, Removed;
      left := RemoveListed(ids);
      if |members| == 0 {
        phase, generation, leaderId := Empty, 0, "";
      } else if phase == Preparing && |joined| >= |members| {
        CompleteJoin();
      } else {
        BeginRebalance();
      }
    }

    method FindDead(now: int, defaultSession: int) returns (dead: set<string>)
      ensures dead == Dead(View(), now, defaultSession)
    {
      dead := {};
      var left := members.Keys;
      while left != {}
        invariant left <= members.Keys && dead == Dead(View(), now, defaultSession) - left
        decreases |left|
      {
        var id :| id in left;
        left := left - {id};
        var m := members[id];
        var timeout := m.sessionTimeout;
        if timeout <= 0 {
          timeout := defaultSession;
        }
        if timeout > 0 && now - m.lastHeartbeat > timeout {
          dead := dead + {id};
        }
      }
    }

    method ReapExpired(now: int, defaultSession: int) returns (count: nat)
      requires Listing(View()) && Tagged()
      modifies this
      ensures View() == ReapStep(old(View()), now, defaultSession) && Tagged() && deleted == old(deleted)
      ensures count == |Dead(old(View()), now, defaultSession)|
    {
      hide Listing, Removed, Groups.CompleteJoin, Dead;
      var dead := FindDead(now, defaultSession);
      count := |dead|;
      if dead == {} {
        return;
      }
      RemovedPhase(View(), dead);
      RemoveMembers(dead);
      if |members| == 0 {
        phase, generation, leaderId := Empty, 0, "";
      } else if phase == Preparing {
        if |joined| >= |members| {
          CompleteJoin();
        }
      } else {
        BeginRebalance();
      }
    }

    method Delete() returns (error: Error)
      requires Tagged()
      modifies this
      ensures View() == DeleteStep(old(View())) && Tagged()
      ensures error == if |old(members)| > 0 then NonEmptyGroup else NoError
      ensures error == NonEmptyGroup ==> View() == old(View())
      ensures deleted == (old(deleted) || error == NoError)
    {
      hide View, Tagged;
      Unmembered(this);
      if |members| > 0 {
        return NonEmptyGroup;
      }
      Reset();
      return NoError;
    }

    method Reset()
      modifies this
      ensures View() == Group(Empty, 0, old(protocolType), old(protocol), "", map[], [], {}, map[], old(round))
      ensures Tagged() && deleted
    {
      phase, generation, leaderId, members, joinOrder := Empty, 0, "", map[], [];
      joined, assignments, stored, deleted := {}, map[], map[], true;
    }
  }

  lemma Unmembered(g: GroupObject)
    ensures g.View().members == g.members
    ensures g.View() == Group(g.phase, g.generation, g.protocolType, g.protocol, g.leaderId, g.members, g.joinOrder,
                              g.joined, g.stored, g.round)
  {
  }

  method FindMetadata(protocols: seq<Protocol>, name: string) returns (meta: Option<bytes>)
    ensures meta == MetadataFor(protocols, name)
  {
    assert protocols[0..] == protocols;
    for i := 0 to |protocols|
      invariant MetadataFor(protocols, name) == MetadataFor(protocols[i..], name)
    {
      assert protocols[i..][1..] == protocols[i + 1..];
      if protocols[i].name == name {
        return Some(protocols[i].metadata);
      }
    }
    return None;
  }

  lemma CompleteJoinIs(g: Group)
    requires Listing(g)
    ensures |g.members| == 0 ==> Groups.CompleteJoin(g) == g.(phase := Empty, leader := "", joined := {})
    ensures |g.members| > 0 ==> g.joinOrder != [] && g.joinOrder[0] in g.members
    ensures |g.members| > 0 ==>
      var leader := g.members[g.joinOrder[0]];
      Groups.CompleteJoin(g) == Group(
        Completing, g.generation + 1, leader.protocolType, ChooseProtocol(g.members, g.joinOrder, leader),
        g.joinOrder[0], g.members, g.joinOrder, {}, map[], g.round + 1)
  {
    hide ChooseProtocol;
    if |g.members| > 0 {
      var id :| id in g.members;
      assert id in g.joinOrder;
    }
  }

  lemma JoinStepIs(w: World, req: JoinRequest, timeout: int, now: int)
    requires Inv(w)
    ensures var g, w1 := w.group, EnrolMember(w, req, timeout, now);
      if req.protocols == [] then JoinStep(w, req, timeout, now) == w
      else if Known(g, req.memberId) && g.phase == Stable && SameMetadata(g.members[req.memberId], req) then
        JoinStep(w, req, timeout, now)
        == w.(group := g.(members := g.members[req.memberId := g.members[req.memberId].(lastHeartbeat := now)]))
      else
        && Listing(w1.group)
        && JoinStep(w, req, timeout, now) == w1.(group := JoinMember(w1.group, JoinId(w, req)))
  {
    hide Inv, JoinMember, EnrolMember;
    EnrolListing(w, req, timeout, now);
  }

  lemma InvGrows(g: Group, a: nat, b: nat)
    requires Inv(World(g, a)) && a <= b
    ensures Inv(World(g, b))
  {
    IssuedGrows(g.members, a, b);
  }

  // A join admits nobody who is a member elsewhere.
  lemma JoinStaysDisjoint(w: World, req: JoinRequest, timeout: int, now: int, other: Group)
    requires Inv(w) && Inv(World(other, w.issued)) && w.group.members.Keys !! other.members.Keys
    ensures JoinStep(w, req, timeout, now).group.members.Keys !! other.members.Keys
  {
    hide MembershipInv, LeaderInv, AssignmentInv, MemberName, JoinStep;
    StepMembers(w, Join(req, timeout, now));
    NameFresh(w.issued, w.issued + 1);
  }

  class Manager {
    var groups: map<string, GroupObject>
    var nextMemberSeq: nat
    const defaultRebalanceMs: int

    // Every group is in its invariant, and a member id belongs to one group only.
    ghost predicate Valid()
      reads this, groups.Values
    {
      && (forall n :: n in groups ==> groups[n].Tagged() && Inv(World(groups[n].View(), nextMemberSeq)))
      && (forall n, m :: n in groups && m in groups && n != m ==>
            groups[n] != groups[m] && groups[n].View().members.Keys !! groups[m].View().members.Keys)
    }

    constructor (defaultMs: int)
      ensures Valid() && groups == map[] && nextMemberSeq == 0
    {
      groups, nextMemberSeq, defaultRebalanceMs := map[], 0, defaultMs;
    }

    // The group a request by that name works on.
    ghost function GroupFor(name: string): (g: Group)
      requires Valid()
      reads this, groups.Values
      ensures Inv(World(g, nextMemberSeq))
    {
      NewGroupInv(nextMemberSeq);
      if name in groups && !groups[name].deleted then groups[name].View() else NewGroup
    }

    method GetOrCreate(name: string) returns (g: GroupObject)
      requires Valid()
      modifies this`groups
      ensures Valid() && name in groups && g == groups[name] && g.View() == old(GroupFor(name))
      ensures groups == old(groups)[name := g] && (fresh(g) || g in old(groups).Values)
    {
      hide Inv;
      if name in groups && !groups[name].deleted {
        return groups[name];
      }
      g := new GroupObject();
      NewGroupInv(nextMemberSeq);
      groups := groups[name := g];
    }

    // Entering the member: under its own id if it is known, under the next id otherwise.
    method Enrol(g: GroupObject, req: JoinRequest, now: int) returns (id: string)
      modifies this`nextMemberSeq, g`members, g`joinOrder
      ensures id == JoinId(World(old(g.View()), old(nextMemberSeq)), req) && id in g.members
      ensures World(g.View(), nextMemberSeq)
           == EnrolMember(World(old(g.View()), old(nextMemberSeq)), req, RebalanceTimeout(req, defaultRebalanceMs), now)
    {
      hide MemberName;
      id := req.memberId;
      if id == "" || id !in g.members {
        nextMemberSeq := nextMemberSeq + 1;
        id := MemberName(nextMemberSeq);
        g.joinOrder := g.joinOrder + [id];
      }
      var timeout := RebalanceTimeout(req, defaultRebalanceMs);
      var member := Member(req.instanceId, req.sessionTimeoutMs, timeout, req.protocolType, req.protocols, now);
      g.members := g.members[id := member];
    }

    // The critical section of a join, on the group found for it.
    method JoinLocked(g: GroupObject, req: JoinRequest, now: int) returns (outcome: JoinOutcome)
      requires g.Tagged() && Inv(World(g.View(), nextMemberSeq))
      modifies this`nextMemberSeq, g
      ensures g.Tagged() && g.deleted == old(g.deleted)
      ensures World(g.View(), nextMemberSeq)
           == JoinStep(World(old(g.View()), old(nextMemberSeq)), req, RebalanceTimeout(req, defaultRebalanceMs), now)
      ensures outcome == JoinReply(World(old(g.View()), old(nextMemberSeq)), World(g.View(), nextMemberSeq), req)
    {
      hide Inv, JoinMember, JoinStep, EnrolMember, Listing;
      ghost var timeout := RebalanceTimeout(req, defaultRebalanceMs);
      JoinStepIs(World(g.View(), nextMemberSeq), req, timeout, now);
      if |req.protocols| == 0 {
        return Answered(JoinResponse(InconsistentProtocol, -1, "", "", req.memberId, []));
      }
      var id := req.memberId;
      if id != "" && id in g.members && g.phase == Stable && SameMetadata(g.members[id], req) {
        g.members := g.members[id := g.members[id].(lastHeartbeat := now)];
      } else {
        id := Enrol(g, req, now);
        var waiting := g.Rejoin(id);
        if waiting {
          return Waiting(id);
        }
      }
      var resp := g.FillJoinResponse(id);
      return Answered(resp);
    }

    // A join on one group leaves the others as they are, with their invariants.
    method JoinFound(name: string, req: JoinRequest, now: int) returns (outcome: JoinOutcome)
      requires Valid() && name in groups
      modifies this`nextMemberSeq, groups[name]
      ensures Valid()
      ensures World(groups[name].View(), nextMemberSeq)
           == JoinStep(World(old(groups[name].View()), old(nextMemberSeq)), req,
                       RebalanceTimeout(req, defaultRebalanceMs), now)
      ensures outcome
           == JoinReply(World(old(groups[name].View()), old(nextMemberSeq)),
                        World(groups[name].View(), nextMemberSeq), req)
    {
      hide Inv, JoinStep;
      var g := groups[name];
      ghost var w := World(g.View(), nextMemberSeq);
      ghost var op := Join(req, RebalanceTimeout(req, defaultRebalanceMs), now);
      outcome := JoinLocked(g, req, now);
      StepKeeps(w, op);
      StepMembers(w, op);
      forall n | n in groups && n != name
        ensures groups[n].Tagged() && Inv(World(groups[n].View(), nextMemberSeq))
        ensures g.View().members.Keys !! groups[n].View().members.Keys
      {
        assert groups[n].View() == old(groups[n].View());
        InvGrows(groups[n].View(), w.issued, nextMemberSeq);
        JoinStaysDisjoint(w, req, op.timeout, now, groups[n].View());
      }
    }

    method JoinGroup(name: string, req: JoinRequest, now: int) returns (outcome: JoinOutcome)
      requires Valid()
      modifies this, groups.Values
      ensures Valid() && name in groups
      ensures World(groups[name].View(), nextMemberSeq)
           == JoinStep(World(old(GroupFor(name)), old(nextMemberSeq)), req,
                       RebalanceTimeout(req, defaultRebalanceMs), now)
      ensures outcome
           == JoinReply(World(old(GroupFor(name)), old(nextMemberSeq)), World(groups[name].View(), nextMemberSeq), req)
      ensures groups.Keys == old(groups).Keys + {name}
      ensures forall n :: n in old(groups) && n != name ==>
        groups[n] == old(groups)[n] && groups[n].View() == old(groups[n].View())
    {
      hide Valid, JoinStep, GroupFor, JoinReply;
      var g := GetOrCreate(name);
      OthersApart(this, name);
      outcome := JoinFound(name, req, now);
    }

    // A group by that name that has not been deleted.
    predicate Present(name: string)
      reads this, groups.Values
    {
      name in groups && !groups[name].deleted
    }

    method SyncFound(name: string, memberId: string, requested: int, submitted: seq<(string, bytes)>)
      returns (outcome: SyncOutcome)
      requires Valid() && name in groups
      modifies groups[name]
      ensures Valid() && groups[name].View() == SyncStep(old(groups[name].View()), memberId, requested, submitted)
      ensures outcome == SyncReply(old(groups[name].View()), groups[name].View(), memberId, requested)
    {
      hide Valid, SyncStep, SyncReply, Inv, AllSound, GroupObject.Tagged, GroupObject.View;
      ghost var vs := Views(this);
      ValidMeans(this);
      StepSound(vs, nextMemberSeq, name, Op.Sync(memberId, requested, submitted));
      outcome := groups[name].Sync(memberId, requested, submitted);
      assert Views(this) == vs[name := groups[name].View()];
      ValidMeans(this);
    }

    // Sync on the group found for it, or on a new one.
    method SyncGroup(name: string, memberId: string, requested: int, submitted: seq<(string, bytes)>)
      returns (outcome: SyncOutcome)
      requires Valid()
      modifies this`groups, groups.Values
      ensures Valid() && name in groups && OthersKept(this, name)
      ensures groups[name].View() == SyncStep(old(GroupFor(name)), memberId, requested, submitted)
      ensures outcome == SyncReply(old(GroupFor(name)), groups[name].View(), memberId, requested)
    {
      hide Valid, GroupFor, SyncStep, SyncReply, GroupObject.View, GroupObject.Tagged;
      var g := GetOrCreate(name);
      OthersApart(this, name);
      outcome := SyncFound(name, memberId, requested, submitted);
    }

    method Heartbeat(name: string, memberId: string, requested: int, now: int) returns (error: Error)
      requires Valid()
      modifies groups.Values
      ensures Valid() && OthersKept(this, name)
      ensures if old(Present(name))
              then groups[name].View() == HeartbeatStep(old(groups[name].View()), memberId, requested, now)
                   && error == HeartbeatFence(old(groups[name].View()), memberId, requested)
              else error == UnknownMember && (name in groups ==> groups[name].View() == old(groups[name].View()))
    {
      hide Valid, HeartbeatStep, HeartbeatFence, Inv, AllSound, GroupObject.View;
      if name !in groups || groups[name].deleted {
        return UnknownMember;
      }
      ghost var vs := Views(this);
      ValidMeans(this);
      StepSound(vs, nextMemberSeq, name, Op.Heartbeat(memberId, requested, now));
      error := groups[name].Heartbeat(memberId, requested, now);
      assert Views(this) == vs[name := groups[name].View()];
      ValidMeans(this);
    }

    method LeaveGroup(name: string, ids: seq<string>) returns (left: seq<string>)
      requires Valid()
      modifies groups.Values
      ensures Valid() && OthersKept(this, name)
      ensures if old(Present(name))
              then Listing(old(groups[name].View())) && left == LeftOf(old(groups[name].members.Keys), ids)
                   && groups[name].View() == LeaveStep(old(groups[name].View()), set id | id in ids)
              else left == [] && (name in groups ==> groups[name].View() == old(groups[name].View()))
    {
      hide Valid, LeaveStep, Inv, Listing, AllSound, GroupObject.Tagged, GroupObject.View;
      if name !in groups || groups[name].deleted {
        return [];
      }
      ghost var vs := Views(this);
      ValidMeans(this);
      GroupFacts(this, name);
      StepSound(vs, nextMemberSeq, name, Op.Leave(set id | id in ids));
      left := groups[name].Leave(ids);
      assert Views(this) == vs[name := groups[name].View()];
      ValidMeans(this);
    }

    method ReapFound(name: string, now: int, defaultSession: int) returns (count: nat)
      requires Valid() && name in groups
      modifies groups[name]
      ensures Valid() && Listing(old(groups[name].View()))
      ensures groups[name].View() == ReapStep(old(groups[name].View()), now, defaultSession)
      ensures count == |Dead(old(groups[name].View()), now, defaultSession)|
      ensures Views(this) == old(Views(this))[name := groups[name].View()]
    {
      hide Valid, ReapStep, Inv, Listing, AllSound, GroupObject.Tagged, GroupObject.View, Dead;
      ghost var vs := Views(this);
      ValidMeans(this);
      GroupFacts(this, name);
      StepSound(vs, nextMemberSeq, name, Op.Reap(now, defaultSession));
      count := groups[name].ReapExpired(now, defaultSession);
      assert Views(this) == vs[name := groups[name].View()];
      ValidMeans(this);
    }

    // The session reaper visits every group, in any order, and counts whom it drops.
    method ReapExpiredSessions(order: seq<string>, now: int, defaultSession: int) returns (removed: nat)
      requires Valid() && NoRepeat(order) && (forall n :: n in order <==> n in groups)
      modifies groups.Values
      ensures Valid() && removed == DeadAmong(old(Views(this)), order, now, defaultSession)
      ensures forall n :: n in groups ==>
        Listing(old(Views(this))[n]) && groups[n].View() == ReapStep(old(Views(this))[n], now, defaultSession)
    {
      hide Valid, ReapStep, Listing, GroupObject.View, Dead, NoRepeat, Reaped, AllSound;
      ghost var vs := Views(this);
      ValidMeans(this);
      removed := 0;
      ReapedNone(vs, order, now, defaultSession);
      for i := 0 to |order|
        invariant Valid() && removed == DeadAmong(vs, order[..i], now, defaultSession)
        invariant Views(this) == Reaped(vs, order[..i], now, defaultSession)
      {
        assert order[i] in order;
        assert Views(this)[order[i]] == groups[order[i]].View();
        ReapedOne(vs, order, i, now, defaultSession);
        var count := ReapFound(order[i], now, defaultSession);
        removed := removed + count;
      }
      assert order[..|order|] == order;
      forall n | n in groups ensures Listing(vs[n]) && groups[n].View() == ReapStep(vs[n], now, defaultSession) {
        ReapedEach(vs, order, now, defaultSession, n, nextMemberSeq);
        assert Views(this)[n] == groups[n].View();
      }
    }

    method DeleteFound(name: string) returns (error: Error)
      requires Valid() && name in groups
      modifies groups[name]
      ensures Valid() && error == (if |old(groups[name].members)| > 0 then NonEmptyGroup else NoError)
      ensures error == NonEmptyGroup ==> groups[name].View() == old(groups[name].View())
    {
      hide Valid, Inv, AllSound, GroupObject.Tagged, GroupObject.View, DeleteStep;
      ghost var vs := Views(this);
      ValidMeans(this);
      StepSound(vs, nextMemberSeq, name, Op.Delete);
      error := groups[name].Delete();
      assert Views(this) == vs[name := groups[name].View()];
      ValidMeans(this);
    }

    // A deleted group is also forgotten; the request fails exactly if it has members.
    method DeleteGroup(name: string) returns (error: Error)
      requires Valid()
      modifies this`groups, groups.Values
      ensures Valid() && OthersKept(this, name)
      ensures error == if name in old(groups) && |old(groups[name].members)| > 0 then NonEmptyGroup else NoError
      ensures name in groups <==> error == NonEmptyGroup
      ensures error == NonEmptyGroup ==> groups[name].View() == old(groups[name].View())
    {
      hide Valid, GroupObject.View;
      if name !in groups {
        return NoError;
      }
      OthersApart(this, name);
      error := DeleteFound(name);
      if error == NoError {
        Drop(name);
      }
    }

    method Drop(name: string)
      requires Valid()
      modifies this`groups
      ensures Valid() && groups == old(groups) - {name}
    {
      hide Valid, Inv, AllSound, GroupObject.Tagged, GroupObject.View;
      ghost var vs := Views(this);
      ValidMeans(this);
      Forget(vs, nextMemberSeq, name);
      groups := groups - {name};
      assert Views(this) == vs - {name};
      ValidMeans(this);
    }
  }

  // The other groups are the same objects in the same state.
  twostate predicate OthersKept(m: Manager, name: string)
    reads m, m.groups.Values
  {
    forall n :: n in old(m.groups) && n != name ==>
      n in m.groups && m.groups[n] == old(m.groups)[n] && m.groups[n].View() == old(m.groups[n].View())
  }

  ghost function Views(m: Manager): (vs: map<string, Group>)
    reads m, m.groups.Values
    ensures vs.Keys == m.groups.Keys
  {
    map n | n in m.groups :: m.groups[n].View()
  }

  // How many members are overdue in the groups listed.
  ghost function DeadAmong(vs: map<string, Group>, order: seq<string>, now: int, defaultSession: int): nat
    requires forall n :: n in order ==> n in vs
  {
    if order == [] then 0 else
    var k := |order| - 1;
    DeadAmong(vs, order[..k], now, defaultSession) + |Dead(vs[order[k]], now, defaultSession)|
  }

  // The groups after those listed have been visited.
  ghost function Reaped(vs: map<string, Group>, order: seq<string>, now: int, defaultSession: int)
    : (r: map<string, Group>)
    requires forall n :: n in order ==> n in vs
    ensures r.Keys == vs.Keys
  {
    if order == [] then vs else
    var k := |order| - 1;
    var before := Reaped(vs, order[..k], now, defaultSession);
    var g := before[order[k]];
    before[order[k] := if Listing(g) then ReapStep(g, now, defaultSession) else g]
  }

  lemma ReapedNone(vs: map<string, Group>, order: seq<string>, now: int, defaultSession: int)
    ensures Reaped(vs, order[..0], now, defaultSession) == vs && DeadAmong(vs, order[..0], now, defaultSession) == 0
  {
  }

  lemma {:induction false} ReapedOther(vs: map<string, Group>, order: seq<string>, now: int, defaultSession: int,
                                       n: string)
    requires (forall n :: n in order ==> n in vs) && n in vs && n !in order
    ensures Reaped(vs, order, now, defaultSession)[n] == vs[n]
    decreases |order|
  {
    hide Listing, ReapStep;
    if order != [] {
      assert order == order[..|order| - 1] + [order[|order| - 1]];
      ReapedOther(vs, order[..|order| - 1], now, defaultSession, n);
    }
  }

  lemma ReapedOne(vs: map<string, Group>, order: seq<string>, i: nat, now: int, defaultSession: int)
    requires (forall n :: n in order ==> n in vs) && i < |order| && NoRepeat(order)
    ensures order[i] in vs && var before, g := Reaped(vs, order[..i], now, defaultSession), vs[order[i]];
      && before[order[i]] == g
      && Reaped(vs, order[..i + 1], now, defaultSession)
         == before[order[i] := if Listing(g) then ReapStep(g, now, defaultSession) else g]
      && DeadAmong(vs, order[..i + 1], now, defaultSession)
         == DeadAmong(vs, order[..i], now, defaultSession) + |Dead(g, now, defaultSession)|
  {
    hide Listing, ReapStep, Dead;
    assert order[i] in order && order[..i + 1][..i] == order[..i];
    assert order[i] !in order[..i];
    ReapedOther(vs, order[..i], now, defaultSession, order[i]);
  }

  lemma {:induction false} ReapedEach(vs: map<string, Group>, order: seq<string>, now: int, defaultSession: int,
                                      n: string, issued: nat)
    requires (forall n :: n in order ==> n in vs) && n in order && NoRepeat(order) && AllSound(vs, issued)
    ensures Listing(vs[n]) && Reaped(vs, order, now, defaultSession)[n] == ReapStep(vs[n], now, defaultSession)
    decreases |order|
  {
    hide Listing, ReapStep, Inv;
    var k := |order| - 1;
    assert Listing(vs[n]) by { SoundListing(vs, issued, n); }
    assert order == order[..k] + [order[k]] && order[..k + 1] == order;
    ReapedOne(vs, order, k, now, defaultSession);
    if n != order[k] { ReapedEach(vs, order[..k], now, defaultSession, n, issued); }
  }

  lemma SoundListing(vs: map<string, Group>, issued: nat, n: string)
    requires AllSound(vs, issued) && n in vs
    ensures Listing(vs[n])
  {
    hide LeaderInv, AssignmentInv, Listing;
  }

  // Every group in its invariant, no member in two groups.
  ghost predicate AllSound(vs: map<string, Group>, issued: nat)
  {
    && (forall n :: n in vs ==> Inv(World(vs[n], issued)))
    && (forall n, k :: n in vs && k in vs && n != k ==> vs[n].members.Keys !! vs[k].members.Keys)
  }

  ghost predicate AllTagged(m: Manager)
    reads m, m.groups.Values
  {
    && (forall n :: n in m.groups ==> m.groups[n].Tagged())
    && (forall n, k :: n in m.groups && k in m.groups && n != k ==> m.groups[n] != m.groups[k])
  }

  lemma ValidMeans(m: Manager)
    ensures m.Valid() <==> AllSound(Views(m), m.nextMemberSeq) && AllTagged(m)
  {
    hide Inv, GroupObject.Tagged;
    var vs := Views(m);
    assert forall n :: n in m.groups ==> vs[n] == m.groups[n].View();
  }

  // A step in one group that issues no id keeps all of them sound.
  lemma StepSound(vs: map<string, Group>, issued: nat, name: string, op: Op)
    requires AllSound(vs, issued) && name in vs && !op.Join? && !op.IssueElsewhere?
    ensures Inv(World(vs[name], issued))
    ensures AllSound(vs[name := Next(World(vs[name], issued), op).group], issued)
  {
    hide Inv, Next;
    var w := World(vs[name], issued);
    StepKeeps(w, op);
    StepMembers(w, op);
    assert Next(w, op).issued == issued by { NothingIssued(w, op); }
    assert Next(w, op) == World(Next(w, op).group, issued);
    assert Next(w, op).group.members.Keys <= w.group.members.Keys;
  }

  lemma Forget(vs: map<string, Group>, issued: nat, name: string)
    requires AllSound(vs, issued)
    ensures AllSound(vs - {name}, issued)
  {
    hide Inv;
  }

  lemma NothingIssued(w: World, op: Op)
    requires Inv(w) && !op.Join? && !op.IssueElsewhere?
    ensures Next(w, op).issued == w.issued
  {
    hide Inv;
  }

  lemma GroupFacts(m: Manager, name: string)
    requires m.Valid() && name in m.groups
    ensures m.groups[name].Tagged() && Inv(World(m.groups[name].View(), m.nextMemberSeq))
    ensures Listing(m.groups[name].View()) && m.groups[name].joined <= m.groups[name].members.Keys
  {
    hide LeaderInv, AssignmentInv, Listing;
  }

  lemma OthersApart(m: Manager, name: string)
    requires m.Valid() && name in m.groups
    ensures forall n :: n in m.groups && n != name ==> m.groups[n] != m.groups[name]
  {
    hide Inv;
  }
}
