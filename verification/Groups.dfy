/**
 The consumer-group coordinator as a state machine: one step per critical section of a group's
 mutex. A join or sync that has to wait is two steps, and the waiting half may run at any time
 later, whatever the group's phase is by then.
 */
module Groups {
  import opened Bytes
  import opened Decimal

  datatype Phase = Empty | Preparing | Completing | Stable

  datatype Protocol = Protocol(name: string, metadata: bytes)

  datatype Member = Member(
    instanceId: Option<string>, sessionTimeout: int, rebalanceTimeout: int,
    protocolType: string, protocols: seq<Protocol>, lastHeartbeat: int)

  // A member's stored assignment, tagged with the rebalance and the member that submitted it.
  datatype Stored = Stored(data: bytes, round: nat, generation: int, submitter: string)

  // `round` counts completed joins; unlike the generation it is never reset. It and the tags of
  // `Stored` are not in the source.
  datatype Group = Group(
    phase: Phase, generation: int, protocolType: string, protocol: string, leader: string,
    members: map<string, Member>, joinOrder: seq<string>, joined: set<string>,
    assignments: map<string, Stored>, round: nat)

  // A group, and how many member ids the manager has issued to all groups.
  datatype World = World(group: Group, issued: nat)

  datatype Error =
    | NoError | InconsistentProtocol | UnknownMember | IllegalGeneration | RebalanceInProgress | NonEmptyGroup
    | UnknownServerError

  datatype JoinRequest = JoinRequest(
    memberId: string, instanceId: Option<string>, sessionTimeoutMs: int, rebalanceTimeoutMs: int,
    protocolType: string, protocols: seq<Protocol>)

  const NewGroup := Group(Empty, 0, "", "", "", map[], [], {}, map[], 0)

  function MemberName(n: nat): string { "pocketkafka-" + Digits(n) }

  // ------------------------------------------------------------ steps

  function BeginRebalance(g: Group): Group
  {
    g.(phase := Preparing, joined := {})
  }

  predicate Supports(m: Member, name: string) { exists i :: 0 <= i < |m.protocols| && m.protocols[i].name == name }

  // Every listed member that exists supports the protocol.
  predicate AllSupport(members: map<string, Member>, order: seq<string>, name: string)
  {
    forall i :: 0 <= i < |order| && order[i] in members ==> Supports(members[order[i]], name)
  }

  function FirstCommon(members: map<string, Member>, order: seq<string>, candidates: seq<Protocol>): Option<string>
  {
    if candidates == [] then None
    else if AllSupport(members, order, candidates[0].name) then Some(candidates[0].name)
    else FirstCommon(members, order, candidates[1..])
  }

  function ChooseProtocol(members: map<string, Member>, order: seq<string>, leader: Member): string
  {
    if leader.protocols == [] then "" else
    var c := FirstCommon(members, order, leader.protocols);
    if c.Some? then c.value else leader.protocols[0].name
  }

  // The join order lists the members, each once.
  ghost predicate Listing(g: Group)
  {
    && (forall i, j :: 0 <= i < j < |g.joinOrder| ==> g.joinOrder[i] != g.joinOrder[j])
    && (forall id :: id in g.joinOrder <==> id in g.members)
  }

  function CompleteJoin(g: Group): Group
    requires Listing(g)
  {
    if |g.members| == 0 then g.(phase := Empty, leader := "", joined := {}) else
    assert g.joinOrder != [] by { var id :| id in g.members; assert id in g.joinOrder; }
    var leader := g.joinOrder[0];
    g.(generation := g.generation + 1, phase := Completing, leader := leader,
       protocolType := g.members[leader].protocolType,
       protocol := ChooseProtocol(g.members, g.joinOrder, g.members[leader]),
       assignments := map[], joined := {}, round := g.round + 1)
  }

  function FilterOrder(order: seq<string>, remove: set<string>): seq<string>
  {
    if order == [] then [] else
    var k := |order| - 1;
    FilterOrder(order[..k], remove) + if order[k] in remove then [] else [order[k]]
  }

  function Removed(g: Group, gone: set<string>): (r: Group)
    requires Listing(g)
    ensures Listing(r)
  {
    FilterOrderLists(g.joinOrder, gone);
    g.(members := g.members - gone, joinOrder := FilterOrder(g.joinOrder, gone), joined := g.joined - gone)
  }

  // Whoever has not rejoined by the deadline is dropped.
  function Expire(g: Group): Group
    requires Listing(g)
  {
    CompleteJoin(Removed(g, g.members.Keys - g.joined))
  }

  function SameMetadata(m: Member, req: JoinRequest): bool
  {
    m.protocolType == req.protocolType && m.instanceId == req.instanceId && m.protocols == req.protocols
  }

  function Enrolled(req: JoinRequest, timeout: int, now: int): Member
  {
    Member(req.instanceId, req.sessionTimeoutMs, timeout, req.protocolType, req.protocols, now)
  }

  // The member id a join acts under: the caller's if it is a member, a new one otherwise.
  predicate Known(g: Group, id: string) { id != "" && id in g.members }

  function JoinId(w: World, req: JoinRequest): string
  {
    if Known(w.group, req.memberId) then req.memberId else MemberName(w.issued + 1)
  }

  function RebalanceTimeout(req: JoinRequest, defaultMs: int): int
  {
    if req.rebalanceTimeoutMs > 0 then req.rebalanceTimeoutMs
    else if req.sessionTimeoutMs > 0 then req.sessionTimeoutMs
    else if defaultMs > 0 then defaultMs else 10000
  }

  function EnrolMember(w: World, req: JoinRequest, timeout: int, now: int): World
  {
    var g, id := w.group, JoinId(w, req);
    var known := Known(g, req.memberId);
    World(g.(members := g.members[id := Enrolled(req, timeout, now)],
             joinOrder := if known then g.joinOrder else g.joinOrder + [id]),
          if known then w.issued else w.issued + 1)
  }

  function JoinMember(g: Group, id: string): Group
    requires Listing(g)
  {
    var g1 := if g.phase != Preparing then BeginRebalance(g) else g;
    var g2 := g1.(joined := g1.joined + {id});
    if |g2.joined| >= |g2.members| then CompleteJoin(g2) else g2
  }

  // The first half of a join.
  function JoinStep(w: World, req: JoinRequest, timeout: int, now: int): World
    requires Inv(w)
  {
    var g := w.group;
    if req.protocols == [] then w
    else if Known(g, req.memberId) && g.phase == Stable && SameMetadata(g.members[req.memberId], req) then
      w.(group := g.(members := g.members[req.memberId := g.members[req.memberId].(lastHeartbeat := now)]))
    else
      EnrolListing(w, req, timeout, now);
      var w1 := EnrolMember(w, req, timeout, now);
      w1.(group := JoinMember(w1.group, JoinId(w, req)))
  }

  // The waiting half: past its deadline a waiter that is still a member ends the rebalance.
  function JoinWake(w: World, id: string, expired: bool): World
    requires Inv(w)
  {
    if id in w.group.members && expired then w.(group := Expire(w.group)) else w
  }

  // The refusals of sync, heartbeat and commit, in the source's order of tests.
  function SyncFence(g: Group, id: string, generation: int): Error
  {
    if g.phase == Preparing then RebalanceInProgress
    else if id !in g.members then UnknownMember
    else if generation != g.generation then IllegalGeneration else NoError
  }

  function HeartbeatFence(g: Group, id: string, generation: int): Error
  {
    if id !in g.members then UnknownMember
    else if g.phase == Preparing then RebalanceInProgress
    else if generation != g.generation then IllegalGeneration else NoError
  }

  // A commit with a negative generation comes from outside the group and is not fenced.
  function CommitFence(g: Group, id: string, generation: int): Error
  {
    if generation < 0 then NoError else SyncFence(g, id, generation)
  }

  function StoreAll(g: Group, id: string, submitted: seq<(string, bytes)>): map<string, Stored>
  {
    if submitted == [] then g.assignments else
    var k := |submitted| - 1;
    StoreAll(g, id, submitted[..k])[submitted[k].0 := Stored(submitted[k].1, g.round, g.generation, id)]
  }

  // The last half of a sync, reached with or without waiting.
  function SyncDone(g: Group, generation: int): Group
  {
    if g.phase == Completing && generation == g.generation then g.(phase := Stable) else g
  }

  predicate SyncWaits(g: Group, id: string, generation: int)
  {
    id !in g.assignments && g.phase == Completing && generation == g.generation
  }

  function SyncStep(g: Group, id: string, generation: int, submitted: seq<(string, bytes)>): Group
  {
    if SyncFence(g, id, generation) != NoError then g else
    var g1 := g.(assignments := StoreAll(g, id, submitted));
    if id != g1.leader && SyncWaits(g1, id, generation) then g1 else SyncDone(g1, generation)
  }

  function SyncWake(g: Group, id: string, generation: int, timedOut: bool): Group
  {
    if SyncWaits(g, id, generation) && !timedOut then g else SyncDone(g, generation)
  }

  function HeartbeatStep(g: Group, id: string, generation: int, now: int): Group
  {
    if HeartbeatFence(g, id, generation) != NoError then g
    else g.(members := g.members[id := g.members[id].(lastHeartbeat := now)])
  }

  function Emptied(g: Group): Group { g.(phase := Empty, generation := 0, leader := "") }

  function LeaveStep(g: Group, ids: set<string>): Group
    requires Listing(g)
  {
    var r := Removed(g, ids);
    if |r.members| == 0 then Emptied(r)
    else if r.phase == Preparing && |r.joined| >= |r.members| then CompleteJoin(r)
    else BeginRebalance(r)
  }

  predicate Overdue(m: Member, now: int, defaultSession: int)
  {
    var timeout := if m.sessionTimeout > 0 then m.sessionTimeout else defaultSession;
    timeout > 0 && now - m.lastHeartbeat > timeout
  }

  function Dead(g: Group, now: int, defaultSession: int): set<string>
  {
    set id | id in g.members && Overdue(g.members[id], now, defaultSession)
  }

  function ReapStep(g: Group, now: int, defaultSession: int): Group
    requires Listing(g)
  {
    var dead := Dead(g, now, defaultSession);
    if dead == {} then g else
    var r := Removed(g, dead);
    if |r.members| == 0 then Emptied(r)
    else if r.phase == Preparing then (if |r.joined| >= |r.members| then CompleteJoin(r) else r)
    else BeginRebalance(r)
  }

  function DeleteStep(g: Group): Group
  {
    if |g.members| > 0 then g
    else g.(phase := Empty, generation := 0, leader := "", members := map[], joinOrder := [],
            assignments := map[], joined := {})
  }

  datatype Op =
    | Join(req: JoinRequest, timeout: int, now: int)
    | WakeJoin(id: string, expired: bool)
    | Sync(id: string, generation: int, submitted: seq<(string, bytes)>)
    | WakeSync(id: string, generation: int, timedOut: bool)
    | Heartbeat(id: string, generation: int, now: int)
    | Leave(ids: set<string>)
    | Reap(now: int, defaultSession: int)
    | Delete
    | IssueElsewhere  // another group takes a member id

  function Next(w: World, op: Op): World
    requires Inv(w)
  {
    match op
    case Join(req, timeout, now) => JoinStep(w, req, timeout, now)
    case WakeJoin(id, expired) => JoinWake(w, id, expired)
    case Sync(id, generation, submitted) => w.(group := SyncStep(w.group, id, generation, submitted))
    case WakeSync(id, generation, timedOut) => w.(group := SyncWake(w.group, id, generation, timedOut))
    case Heartbeat(id, generation, now) => w.(group := HeartbeatStep(w.group, id, generation, now))
    case Leave(ids) => w.(group := LeaveStep(w.group, ids))
    case Reap(now, defaultSession) => w.(group := ReapStep(w.group, now, defaultSession))
    case Delete => w.(group := DeleteStep(w.group))
    case IssueElsewhere => w.(issued := w.issued + 1)
  }

  // ------------------------------------------------------------ the invariant

  predicate Active(g: Group) { g.phase == Completing || g.phase == Stable }

  predicate Issued(id: string, issued: nat) { exists k :: 1 <= k <= issued && id == MemberName(k) }

  // Membership, and who has rejoined.
  ghost predicate MembershipInv(g: Group)
  {
    && Listing(g)
    && (forall id :: id in g.members ==> g.members[id].protocols != [])
    && (g.phase == Empty <==> g.members == map[])
    && g.joined <= g.members.Keys
    && (if g.phase == Preparing then g.joined != g.members.Keys else g.joined == {})
  }

  // Between rebalances the first of the join order leads, with the protocol chosen for the members.
  ghost predicate LeaderInv(g: Group)
    requires Listing(g)
  {
    Active(g) ==>
      && g.joinOrder != [] && g.leader == g.joinOrder[0] && g.leader in g.members
      && g.protocol == ChooseProtocol(g.members, g.joinOrder, g.members[g.leader])
  }

  // Every stored assignment was submitted in this rebalance by someone still a member.
  ghost predicate AssignmentInv(g: Group)
  {
    Active(g) ==> forall id :: id in g.assignments ==>
      g.assignments[id].round == g.round && g.assignments[id].generation == g.generation
      && g.assignments[id].submitter in g.members
  }

  ghost predicate Inv(w: World)
  {
    && MembershipInv(w.group) && LeaderInv(w.group) && AssignmentInv(w.group)
    && w.group.generation >= 0
    && forall id :: id in w.group.members ==> Issued(id, w.issued)
  }

  lemma {:induction false} FilterOrderHolds(order: seq<string>, remove: set<string>)
    ensures forall id :: id in FilterOrder(order, remove) <==> id in order && id !in remove
    decreases |order|
  {
    if order != [] {
      var k := |order| - 1;
      FilterOrderHolds(order[..k], remove);
      assert order == order[..k] + [order[k]];
    }
  }

  ghost predicate NoRepeat(order: seq<string>) { forall i, j :: 0 <= i < j < |order| ==> order[i] != order[j] }

  lemma {:induction false} FilterOrderDistinct(order: seq<string>, remove: set<string>)
    requires NoRepeat(order)
    ensures NoRepeat(FilterOrder(order, remove))
    decreases |order|
  {
    if order != [] {
      var k := |order| - 1;
      FilterOrderDistinct(order[..k], remove);
      FilterOrderHolds(order[..k], remove);
      assert order[k] !in order[..k];
    }
  }

  lemma FilterOrderLists(order: seq<string>, remove: set<string>)
    ensures forall id :: id in FilterOrder(order, remove) <==> id in order && id !in remove
    ensures NoRepeat(order) ==> NoRepeat(FilterOrder(order, remove))
  {
    hide FilterOrder, NoRepeat;
    FilterOrderHolds(order, remove);
    if NoRepeat(order) { FilterOrderDistinct(order, remove); }
  }

  lemma NameFresh(issued: nat, n: nat)
    requires n > issued
    ensures !Issued(MemberName(n), issued)
  {
    forall k | 1 <= k <= issued ensures MemberName(k) != MemberName(n) {
      if MemberName(k) == MemberName(n) {
        assert MemberName(k)[12..] == Digits(k) && MemberName(n)[12..] == Digits(n);
        DigitsInjective(k, n);
      }
    }
  }

  lemma EnrolListing(w: World, req: JoinRequest, timeout: int, now: int)
    requires Inv(w)
    ensures Listing(EnrolMember(w, req, timeout, now).group)
  {
    if !Known(w.group, req.memberId) { NameFresh(w.issued, w.issued + 1); }
  }

  // ------------------------------------------------------------ every step keeps the invariant

  ghost predicate AllIssued(members: map<string, Member>, issued: nat)
  {
    forall id :: id in members ==> Issued(id, issued)
  }

  // What a group has to satisfy for a rebalance to be completed or begun on it.
  ghost predicate Ready(g: Group)
  {
    Listing(g) && (forall id :: id in g.members ==> g.members[id].protocols != []) && g.generation >= 0
  }

  ghost predicate GroupInv(g: Group)
  {
    MembershipInv(g) && LeaderInv(g) && AssignmentInv(g) && g.generation >= 0
  }

  lemma CompleteJoinKeeps(g: Group)
    requires Ready(g)
    ensures GroupInv(CompleteJoin(g)) && CompleteJoin(g).members == g.members
  {
    hide ChooseProtocol;
    assert |g.members| == 0 <==> g.members == map[];
  }

  lemma RemovedReady(g: Group, gone: set<string>)
    requires GroupInv(g)
    ensures Ready(Removed(g, gone)) && Removed(g, gone).joined <= Removed(g, gone).members.Keys
    ensures Removed(g, gone).members.Keys <= g.members.Keys
  {
  }

  lemma BeginKeeps(g: Group)
    requires Ready(g) && g.members != map[]
    ensures GroupInv(BeginRebalance(g))
  {
    var id :| id in g.members;
    assert id in g.members.Keys;
  }

  lemma EmptiedKeeps(g: Group)
    requires Ready(g) && |g.members| == 0 && g.joined <= g.members.Keys
    ensures GroupInv(Emptied(g))
  {
    assert g.members == map[];
  }

  lemma ExpireKeeps(g: Group)
    requires GroupInv(g)
    ensures GroupInv(Expire(g)) && Expire(g).members.Keys <= g.members.Keys
  {
    hide GroupInv, Ready, CompleteJoin, Removed;
    assert Listing(g) by { GroupInvListing(g); }
    RemovedReady(g, g.members.Keys - g.joined);
    CompleteJoinKeeps(Removed(g, g.members.Keys - g.joined));
  }

  // A join past its deadline leaves exactly those who have rejoined, whatever the phase: once the
  // round is over nobody counts as rejoined, and the whole group goes.
  lemma ExpiredWake(w: World, id: string)
    requires Inv(w) && id in w.group.members
    ensures var g := JoinWake(w, id, true).group;
      && g.members.Keys == w.group.joined && g.generation >= w.group.generation
      && (g.phase == Empty <==> w.group.joined == {})
    ensures w.group.phase != Preparing ==> w.group.joined == {} && JoinWake(w, id, true).group.members == map[]
  {
    hide LeaderInv, AssignmentInv, Issued, FilterOrder, ChooseProtocol;
    var r := Removed(w.group, w.group.members.Keys - w.group.joined);
    assert r.members.Keys == w.group.joined;
    assert |r.members| == |r.members.Keys|;
    if w.group.joined != {} { var x :| x in w.group.joined; assert x in r.members; }
  }

  lemma GroupInvListing(g: Group)
    requires GroupInv(g)
    ensures Listing(g)
  {
  }

  lemma LeaveKeeps(g: Group, ids: set<string>)
    requires GroupInv(g)
    ensures GroupInv(LeaveStep(g, ids)) && LeaveStep(g, ids).members.Keys <= g.members.Keys
  {
    hide GroupInv, Ready, CompleteJoin, Removed;
    GroupInvListing(g);
    RemovedReady(g, ids);
    var r := Removed(g, ids);
    if |r.members| == 0 { EmptiedKeeps(r); }
    else if r.phase == Preparing && |r.joined| >= |r.members| { CompleteJoinKeeps(r); }
    else { BeginKeeps(r); }
  }

  lemma StillPreparing(g: Group)
    requires Ready(g) && g.phase == Preparing && g.joined <= g.members.Keys && |g.joined| < |g.members|
    ensures GroupInv(g)
  {
    hide Listing;
    assert |g.members.Keys| == |g.members|;
    assert g.members != map[];
  }

  lemma ReapKeeps(g: Group, now: int, defaultSession: int)
    requires GroupInv(g)
    ensures GroupInv(ReapStep(g, now, defaultSession))
    ensures ReapStep(g, now, defaultSession).members.Keys <= g.members.Keys
  {
    hide GroupInv, Ready, CompleteJoin, Removed;
    GroupInvListing(g);
    var dead := Dead(g, now, defaultSession);
    if dead != {} {
      RemovedReady(g, dead);
      var r := Removed(g, dead);
      RemovedPhase(g, dead);
      if |r.members| == 0 { EmptiedKeeps(r); }
      else if r.phase != Preparing { BeginKeeps(r); }
      else if |r.joined| >= |r.members| { CompleteJoinKeeps(r); }
      else { StillPreparing(r); }
    }
  }

  lemma RemovedPhase(g: Group, gone: set<string>)
    requires Listing(g)
    ensures Removed(g, gone).phase == g.phase
  {
  }

  lemma JoinMemberKeeps(g: Group, id: string)
    requires Ready(g) && id in g.members
    requires g.phase == Preparing ==> g.joined <= g.members.Keys
    ensures GroupInv(JoinMember(g, id)) && JoinMember(g, id).members == g.members
  {
    hide CompleteJoin, Listing, GroupInv;
    var g1 := if g.phase != Preparing then BeginRebalance(g) else g;
    var g2 := g1.(joined := g1.joined + {id});
    SameListing(g, g2);
    if |g2.joined| >= |g2.members| { CompleteJoinKeeps(g2); } else { StillPreparing(g2); }
  }

  lemma SameListing(g: Group, g': Group)
    requires Listing(g) && g.members == g'.members && g.joinOrder == g'.joinOrder
    ensures Listing(g')
  {
  }

  lemma StoreAllTags(g: Group, id: string, submitted: seq<(string, bytes)>)
    ensures forall k :: k in StoreAll(g, id, submitted) ==>
      var a := StoreAll(g, id, submitted)[k];
      (k in g.assignments && a == g.assignments[k])
      || (a.round == g.round && a.generation == g.generation && a.submitter == id)
    decreases |submitted|
  {
    if submitted != [] { StoreAllTags(g, id, submitted[..|submitted| - 1]); }
  }

  lemma SyncKeeps(g: Group, id: string, generation: int, submitted: seq<(string, bytes)>)
    requires GroupInv(g)
    ensures GroupInv(SyncStep(g, id, generation, submitted))
    ensures SyncStep(g, id, generation, submitted).members == g.members
  {
    hide StoreAll, ChooseProtocol, Listing;
    StoreAllTags(g, id, submitted);
    SameListing(g, SyncStep(g, id, generation, submitted));
  }

  // A heartbeat touches nothing a rebalance depends on.
  lemma {:induction false} FirstCommonSame(m: map<string, Member>, m': map<string, Member>, order: seq<string>,
                                           cs: seq<Protocol>)
    requires m.Keys == m'.Keys && forall id :: id in m ==> m[id].protocols == m'[id].protocols
    ensures FirstCommon(m, order, cs) == FirstCommon(m', order, cs)
    decreases |cs|
  {
    if cs != [] {
      forall i | 0 <= i < |order| && order[i] in m
        ensures Supports(m[order[i]], cs[0].name) == Supports(m'[order[i]], cs[0].name) {}
      FirstCommonSame(m, m', order, cs[1..]);
    }
  }

  lemma TouchKeeps(g: Group, id: string, now: int)
    requires GroupInv(g) && id in g.members
    ensures GroupInv(g.(members := g.members[id := g.members[id].(lastHeartbeat := now)]))
  {
    hide FirstCommon;
    var members := g.members[id := g.members[id].(lastHeartbeat := now)];
    assert members.Keys == g.members.Keys;
    if Active(g) { FirstCommonSame(g.members, members, g.joinOrder, g.members[g.leader].protocols); }
  }

  lemma IssuedGrows(members: map<string, Member>, a: nat, b: nat)
    requires AllIssued(members, a) && a <= b
    ensures AllIssued(members, b)
  {
    forall id | id in members ensures Issued(id, b) { assert Issued(id, a); }
  }

  lemma EnrolReady(w: World, req: JoinRequest, timeout: int, now: int)
    requires Inv(w) && req.protocols != []
    ensures var w1 := EnrolMember(w, req, timeout, now);
      && Ready(w1.group) && JoinId(w, req) in w1.group.members && w1.issued >= w.issued
      && w1.group.phase == w.group.phase && w1.group.joined <= w1.group.members.Keys
      && w1.group.generation == w.group.generation && w1.group.round == w.group.round
      && w1.group.members.Keys == w.group.members.Keys + {JoinId(w, req)}
      && AllIssued(w1.group.members, w1.issued)
  {
    hide MemberName;
    EnrolListing(w, req, timeout, now);
    var w1 := EnrolMember(w, req, timeout, now);
    IssuedGrows(w.group.members, w.issued, w1.issued);
    if !Known(w.group, req.memberId) { assert Issued(MemberName(w.issued + 1), w1.issued); }
  }

  lemma JoinKeeps(w: World, req: JoinRequest, timeout: int, now: int)
    requires Inv(w)
    ensures Inv(JoinStep(w, req, timeout, now))
  {
    hide EnrolMember, JoinMember, Ready, JoinId, Listing;
    var g := w.group;
    if req.protocols != [] {
      if Known(g, req.memberId) && g.phase == Stable && SameMetadata(g.members[req.memberId], req) {
        TouchKeeps(g, req.memberId, now);
      } else {
        EnrolReady(w, req, timeout, now);
        JoinMemberKeeps(EnrolMember(w, req, timeout, now).group, JoinId(w, req));
      }
    }
  }

  // Every step keeps the whole invariant.
  lemma StepKeeps(w: World, op: Op)
    requires Inv(w)
    ensures Inv(Next(w, op))
  {
    hide Expire, LeaveStep, ReapStep, SyncStep, JoinStep, SyncDone, MembershipInv, LeaderInv, AssignmentInv, Issued;
    var g := w.group;
    match op
    case Join(req, timeout, now) => JoinKeeps(w, req, timeout, now);
    case WakeJoin(id, expired) => ExpireKeeps(g);
    case Sync(id, generation, submitted) => SyncKeeps(g, id, generation, submitted);
    case WakeSync(id, generation, timedOut) => SyncDoneKeeps(g, generation);
    case Heartbeat(id, generation, now) => if id in g.members { TouchKeeps(g, id, now); }
    case Leave(ids) => LeaveKeeps(g, ids);
    case Reap(now, defaultSession) => ReapKeeps(g, now, defaultSession);
    case Delete => DeleteKeeps(g);
    case IssueElsewhere => IssuedGrows(g.members, w.issued, w.issued + 1);
  }

  lemma SyncDoneKeeps(g: Group, generation: int)
    requires GroupInv(g)
    ensures GroupInv(SyncDone(g, generation)) && SyncDone(g, generation).members == g.members
  {
    SameListing(g, SyncDone(g, generation));
  }

  lemma DeleteKeeps(g: Group)
    requires GroupInv(g)
    ensures GroupInv(DeleteStep(g)) && DeleteStep(g).members.Keys <= g.members.Keys
  {
  }

  // ------------------------------------------------------------ how membership and generation move

  // No step admits anyone but the holder of an id issued in that step.
  lemma StepMembers(w: World, op: Op)
    requires Inv(w)
    ensures var w' := Next(w, op);
      && w.issued <= w'.issued <= w.issued + 1
      && forall id :: id in w'.group.members && id !in w.group.members ==>
           id == MemberName(w.issued + 1) && w'.issued == w.issued + 1
  {
    hide Expire, LeaveStep, ReapStep, SyncStep, SyncDone, MembershipInv, LeaderInv, AssignmentInv, Issued, MemberName,
      JoinMember;
    var g := w.group;
    match op
    case Join(req, timeout, now) =>
      if req.protocols != [] {
        EnrolReady(w, req, timeout, now);
        JoinMemberKeeps(EnrolMember(w, req, timeout, now).group, JoinId(w, req));
      }
    case WakeJoin(id, expired) => ExpireKeeps(g);
    case Sync(id, generation, submitted) => SyncKeeps(g, id, generation, submitted);
    case WakeSync(id, generation, timedOut) => SyncDoneKeeps(g, generation);
    case Heartbeat(id, generation, now) =>
    case Leave(ids) => LeaveKeeps(g, ids);
    case Reap(now, defaultSession) => ReapKeeps(g, now, defaultSession);
    case Delete => DeleteKeeps(g);
    case IssueElsewhere =>
  }

  // While the group has members the generation counts the completed joins.
  predicate Counted(g: Group, g': Group)
  {
    && g.round <= g'.round <= g.round + 1
    && (g'.members != map[] ==> g'.generation - g.generation == g'.round - g.round)
  }

  lemma CompleteCounts(g: Group)
    requires Listing(g)
    ensures Counted(g, CompleteJoin(g))
  {
    hide Listing, ChooseProtocol;
  }

  lemma RemovedCounts(g: Group, gone: set<string>)
    requires Listing(g)
    ensures Removed(g, gone).round == g.round && Removed(g, gone).generation == g.generation
  {
  }

  lemma LeaveCounts(g: Group, ids: set<string>)
    requires Listing(g)
    ensures Counted(g, LeaveStep(g, ids))
  {
    hide Listing, Removed, CompleteJoin;
    RemovedCounts(g, ids);
    CompleteCounts(Removed(g, ids));
  }

  lemma ReapCounts(g: Group, now: int, defaultSession: int)
    requires Listing(g)
    ensures Counted(g, ReapStep(g, now, defaultSession))
  {
    hide Listing, Removed, CompleteJoin, Dead;
    var dead := Dead(g, now, defaultSession);
    RemovedCounts(g, dead);
    CompleteCounts(Removed(g, dead));
  }

  lemma ExpireCounts(g: Group)
    requires Listing(g)
    ensures Counted(g, Expire(g))
  {
    hide Listing, Removed, CompleteJoin;
    var gone := g.members.Keys - g.joined;
    RemovedCounts(g, gone);
    CompleteCounts(Removed(g, gone));
  }

  lemma JoinMemberCounts(g: Group, id: string)
    requires Listing(g)
    ensures Counted(g, JoinMember(g, id))
  {
    hide Listing, CompleteJoin;
    var g1 := if g.phase != Preparing then BeginRebalance(g) else g;
    var g2 := g1.(joined := g1.joined + {id});
    SameListing(g, g2);
    CompleteCounts(g2);
  }

  lemma StepGeneration(w: World, op: Op)
    requires Inv(w)
    ensures Counted(w.group, Next(w, op).group)
  {
    hide MembershipInv, LeaderInv, AssignmentInv, Issued, Expire, LeaveStep, ReapStep, StoreAll, JoinMember, Removed,
      EnrolMember, Listing;
    var g := w.group;
    GroupInvListing(g);
    match op
    case Join(req, timeout, now) =>
      if req.protocols != [] {
        EnrolReady(w, req, timeout, now);
        JoinMemberCounts(EnrolMember(w, req, timeout, now).group, JoinId(w, req));
      }
    case WakeJoin(id, expired) => ExpireCounts(g);
    case Leave(ids) => LeaveCounts(g, ids);
    case Reap(now, defaultSession) => ReapCounts(g, now, defaultSession);
    case _ =>
  }

  // ------------------------------------------------------------ whole runs

  ghost function After(w: World, ops: seq<Op>): World
    requires Inv(w)
    decreases |ops|
  {
    if ops == [] then w else
    StepKeeps(w, ops[0]);
    After(Next(w, ops[0]), ops[1..])
  }

  // From a new group, every run stays inside the invariant.
  lemma {:induction false} RunKeeps(w: World, ops: seq<Op>)
    requires Inv(w)
    ensures Inv(After(w, ops))
    decreases |ops|
  {
    hide Inv, Next;
    if ops != [] {
      StepKeeps(w, ops[0]);
      RunKeeps(Next(w, ops[0]), ops[1..]);
    }
  }

  lemma NewGroupInv(issued: nat)
    ensures Inv(World(NewGroup, issued))
  {
  }

  lemma {:induction false} NeverAgain(w: World, ops: seq<Op>, id: string)
    requires Inv(w) && Issued(id, w.issued) && id !in w.group.members
    ensures id !in After(w, ops).group.members
    decreases |ops|
  {
    hide Inv, Next, MemberName;
    if ops != [] {
      var w1 := Next(w, ops[0]);
      StepKeeps(w, ops[0]);
      StepMembers(w, ops[0]);
      NameFresh(w.issued, w.issued + 1);
      NeverAgain(w1, ops[1..], id);
    }
  }

  // An id that is no longer a member is refused for the rest of any run.
  lemma Fenced(w: World, ops: seq<Op>, id: string, generation: int)
    requires Inv(w) && Issued(id, w.issued) && id !in w.group.members
    ensures var g := After(w, ops).group;
      && id !in g.members
      && HeartbeatFence(g, id, generation) == UnknownMember
      && SyncFence(g, id, generation) != NoError
      && (generation >= 0 ==> CommitFence(g, id, generation) != NoError)
  {
    hide Inv, After, Issued;
    NeverAgain(w, ops, id);
  }

  lemma MembersAreIssued(w: World, id: string)
    requires Inv(w) && id in w.group.members
    ensures Issued(id, w.issued)
  {
  }

  // As long as an id stays a member, the generation rises by one per completed rebalance.
  lemma {:induction false} GenerationCountsRounds(w: World, ops: seq<Op>, id: string)
    requires Inv(w) && id in w.group.members && id in After(w, ops).group.members
    ensures var g, g' := w.group, After(w, ops).group;
      g'.round >= g.round && g'.generation - g.generation == g'.round - g.round
    decreases |ops|
  {
    hide Inv, Next, Issued;
    if ops != [] {
      var w1 := Next(w, ops[0]);
      StepKeeps(w, ops[0]);
      StepGeneration(w, ops[0]);
      StepMembers(w, ops[0]);
      if id !in w1.group.members {
        MembersAreIssued(w, id);
        IssuedOne(id, w.issued, w1.issued);
        NeverAgain(w1, ops[1..], id);
      }
      assert w1.group.members != map[];
      GenerationCountsRounds(w1, ops[1..], id);
    }
  }

  lemma IssuedOne(id: string, a: nat, b: nat)
    requires Issued(id, a) && a <= b
    ensures Issued(id, b)
  {
  }

  // Once a rebalance has completed, whatever a member stamps with an earlier generation is refused.
  lemma StaleGenerationRefused(w: World, ops: seq<Op>, id: string, generation: int)
    requires Inv(w) && id in w.group.members && 0 <= generation <= w.group.generation
    requires After(w, ops).group.round > w.group.round
    ensures var g := After(w, ops).group;
      && CommitFence(g, id, generation) != NoError
      && SyncFence(g, id, generation) != NoError
      && HeartbeatFence(g, id, generation) != NoError
  {
    hide Inv, After;
    if id in After(w, ops).group.members { GenerationCountsRounds(w, ops, id); }
  }

  // ------------------------------------------------------------ what each request does

  // The round that a group with these members has just begun.
  predicate RoundBegun(g: Group, g': Group)
  {
    && g'.phase == Completing && g'.round == g.round + 1 && g'.generation == g.generation + 1
    && g'.joined == {} && g'.assignments == map[]
  }

  // A rebalance is open, and these have joined it.
  predicate RoundOpen(g: Group, g': Group, joined: set<string>)
  {
    && g'.phase == Preparing && g'.round == g.round && g'.generation == g.generation
    && g'.joined == joined && g'.assignments == g.assignments
  }

  lemma SameSize(part: set<string>, whole: map<string, Member>)
    requires part <= whole.Keys
    ensures |part| >= |whole| <==> forall id :: id in whole ==> id in part
  {
    assert |whole| == |whole.Keys|;
    if |part| >= |whole| { SubsetSize(part, whole.Keys); }
    if forall id :: id in whole ==> id in part { assert part == whole.Keys; }
  }

  lemma SubsetSize(a: set<string>, b: set<string>)
    requires a <= b && |a| >= |b|
    ensures a == b
  {
    assert b == a + (b - a);
    assert |b| == |a| + |b - a|;
  }

  lemma CompleteJoinBegins(g: Group)
    requires Listing(g) && g.members != map[]
    ensures RoundBegun(g, CompleteJoin(g)) && CompleteJoin(g).members == g.members
    ensures CompleteJoin(g).joinOrder == g.joinOrder
  {
    hide ChooseProtocol, Listing;
  }

  // A join that is not answered at once enters its member, a new one after all others, and completes
  // a round exactly if everybody else has joined since the rebalance began. Until then the round
  // stays open, in the old generation.
  lemma JoinIs(w: World, req: JoinRequest, timeout: int, now: int)
    requires Inv(w) && req.protocols != []
    requires !(req.memberId in w.group.members && w.group.phase == Stable
               && SameMetadata(w.group.members[req.memberId], req))
    ensures var g, g', id := w.group, JoinStep(w, req, timeout, now).group, JoinId(w, req);
      var before := if g.phase == Preparing then g.joined else {};
      && g'.members == g.members[id := Member(req.instanceId, req.sessionTimeoutMs, timeout, req.protocolType,
                                              req.protocols, now)]
      && g'.joinOrder == (if req.memberId in g.members then g.joinOrder else g.joinOrder + [id])
      && (if forall x :: x in g.members ==> x == id || x in before
          then RoundBegun(g, g')
          else RoundOpen(g, g', before + {id}))
  {
    hide EnrolMember, JoinMember, JoinId, Listing, CompleteJoin, Issued, LeaderInv, AssignmentInv;
    var g, id := w.group, JoinId(w, req);
    assert Known(g, req.memberId) <==> req.memberId in g.members by { NobodyUnnamed(w); }
    EnrolReady(w, req, timeout, now);
    EnrolIs(w, req, timeout, now);
    JoinMemberIs(EnrolMember(w, req, timeout, now).group, id);
  }

  // The empty id is nobody's.
  lemma NobodyUnnamed(w: World)
    requires Inv(w)
    ensures "" !in w.group.members
  {
    assert forall k: nat :: |MemberName(k)| >= 12;
  }

  lemma EnrolIs(w: World, req: JoinRequest, timeout: int, now: int)
    requires Inv(w)
    ensures var g, g', id := w.group, EnrolMember(w, req, timeout, now).group, JoinId(w, req);
      && g'.members == g.members[id := Member(req.instanceId, req.sessionTimeoutMs, timeout, req.protocolType,
                                              req.protocols, now)]
      && g'.joinOrder == (if Known(g, req.memberId) then g.joinOrder else g.joinOrder + [id])
      && g'.phase == g.phase && g'.joined == g.joined && g'.round == g.round && g'.generation == g.generation
      && g'.assignments == g.assignments
  {
    hide MemberName, Issued;
  }

  lemma JoinMemberIs(g: Group, id: string)
    requires Listing(g) && id in g.members && (g.phase == Preparing ==> g.joined <= g.members.Keys)
    ensures var g' := JoinMember(g, id);
      var before := if g.phase == Preparing then g.joined else {};
      && g'.members == g.members && g'.joinOrder == g.joinOrder
      && (if forall x :: x in g.members ==> x == id || x in before
          then RoundBegun(g, g')
          else RoundOpen(g, g', before + {id}))
  {
    hide CompleteJoin, Listing;
    var g1 := if g.phase != Preparing then BeginRebalance(g) else g;
    var g2 := g1.(joined := g1.joined + {id});
    SameListing(g, g2);
    SameSize(g2.joined, g2.members);
    CompleteJoinBegins(g2);
  }

  // The id a join acts under is the caller's own if it is a member, and nobody's so far otherwise.
  lemma JoinIdIs(w: World, req: JoinRequest)
    requires Inv(w)
    ensures if req.memberId in w.group.members then JoinId(w, req) == req.memberId
            else JoinId(w, req) !in w.group.members
  {
    hide MemberName, Issued;
    NobodyUnnamed(w);
    NameFresh(w.issued, w.issued + 1);
  }

  // A join without a protocol changes nothing, and one that a stable group already knows counts as a
  // heartbeat.
  lemma JoinAtOnce(w: World, req: JoinRequest, timeout: int, now: int)
    requires Inv(w)
    ensures req.protocols == [] ==> JoinStep(w, req, timeout, now) == w
    ensures req.protocols != [] && req.memberId in w.group.members && w.group.phase == Stable
            && SameMetadata(w.group.members[req.memberId], req) ==>
      var m := w.group.members[req.memberId];
      JoinStep(w, req, timeout, now) == w.(group := w.group.(members := w.group.members[req.memberId :=
        Member(m.instanceId, m.sessionTimeout, m.rebalanceTimeout, m.protocolType, m.protocols, now)]))
  {
    hide MemberName, Issued, MembershipInv, LeaderInv, AssignmentInv, EnrolMember, JoinMember;
    NobodyUnnamed(w);
  }

  lemma RemovedIs(g: Group, gone: set<string>)
    requires Listing(g) && g.joined <= g.members.Keys
    ensures var r := Removed(g, gone);
      && r.members == (map id | id in g.members && id !in gone :: g.members[id])
      && r.joined == g.joined * r.members.Keys
      && r.phase == g.phase && r.round == g.round && r.generation == g.generation && r.assignments == g.assignments
      && (|r.joined| >= |r.members| <==> forall id :: id in r.members ==> id in g.joined)
      && (|r.members| == 0 <==> r.members == map[])
      && (r.members != map[] ==> RoundBegun(g, CompleteJoin(r)) && CompleteJoin(r).members == r.members)
  {
    hide CompleteJoin, Listing, FilterOrder;
    var r := Removed(g, gone);
    SameSize(r.joined, r.members);
    if r.members != map[] { CompleteJoinBegins(r); }
  }

  // After a leave the members are those not listed. If there are any, a round completes exactly if
  // one was open and all of them had joined it; otherwise a rebalance begins, in the old generation.
  lemma LeaveIs(g: Group, ids: set<string>)
    requires GroupInv(g)
    ensures Listing(g) && var g' := LeaveStep(g, ids);
      && g'.members == (map id | id in g.members && id !in ids :: g.members[id])
      && (if g'.members == map[] then g'.phase == Empty && g'.generation == 0 && g'.round == g.round
          else if g.phase == Preparing && forall id :: id in g'.members ==> id in g.joined then RoundBegun(g, g')
          else RoundOpen(g, g', {}))
  {
    hide CompleteJoin, Removed, Listing, LeaderInv, AssignmentInv;
    RemovedIs(g, ids);
  }

  // Past the member's session timeout, or past the default if it has none.
  predicate LongSilent(m: Member, now: int, defaultSession: int)
  {
    || (m.sessionTimeout > 0 && now > m.lastHeartbeat + m.sessionTimeout)
    || (m.sessionTimeout <= 0 && defaultSession > 0 && now > m.lastHeartbeat + defaultSession)
  }

  // The same for the session reaper, except that it leaves a group without overdue members alone,
  // and an open round open.
  lemma ReapIs(g: Group, now: int, defaultSession: int)
    requires GroupInv(g)
    ensures Listing(g) && var g' := ReapStep(g, now, defaultSession);
      && g'.members == (map id | id in g.members && !LongSilent(g.members[id], now, defaultSession) :: g.members[id])
      && (if g'.members == g.members then g' == g
          else if g'.members == map[] then g'.phase == Empty && g'.generation == 0 && g'.round == g.round
          else if g.phase != Preparing then RoundOpen(g, g', {})
          else if forall id :: id in g'.members ==> id in g.joined then RoundBegun(g, g')
          else RoundOpen(g, g', g.joined * g'.members.Keys))
  {
    hide CompleteJoin, Removed, Listing, LeaderInv, AssignmentInv, Dead;
    var dead := Dead(g, now, defaultSession);
    RemovedIs(g, dead);
    DeadIs(g, now, defaultSession);
  }

  lemma DeadIs(g: Group, now: int, defaultSession: int)
    ensures var dead := Dead(g, now, defaultSession);
      && (forall id :: id in dead <==> id in g.members && LongSilent(g.members[id], now, defaultSession))
      && (map id | id in g.members && id !in dead :: g.members[id])
         == (map id | id in g.members && !LongSilent(g.members[id], now, defaultSession) :: g.members[id])
      && (dead == {} <==> (map id | id in g.members && id !in dead :: g.members[id]) == g.members)
  {
    var dead := Dead(g, now, defaultSession);
    var left := map id | id in g.members && id !in dead :: g.members[id];
    if dead != {} {
      var x :| x in dead;
      assert x in g.members && x !in left;
    }
  }

  // A heartbeat is accepted exactly from a member, in its generation and outside a rebalance. It
  // then changes the time the member was last heard, and nothing else; a reaping within the session
  // timeout of that time keeps the member, and a later one drops it.
  lemma HeartbeatIs(g: Group, id: string, generation: int, now: int, later: int, defaultSession: int)
    requires GroupInv(g)
    ensures var g' := HeartbeatStep(g, id, generation, now);
      if id in g.members && g.phase != Preparing && generation == g.generation
      then var m := g.members[id];
        && g' == g.(members := g.members[id := Member(m.instanceId, m.sessionTimeout, m.rebalanceTimeout,
                                                      m.protocolType, m.protocols, now)])
        && GroupInv(g') && Listing(g')
        && (m.sessionTimeout > 0 ==>
              (id in ReapStep(g', later, defaultSession).members <==> later <= now + m.sessionTimeout))
      else g' == g
  {
    hide GroupInv, Listing, ReapStep;
    if id in g.members {
      TouchKeeps(g, id, now);
      var g' := g.(members := g.members[id := g.members[id].(lastHeartbeat := now)]);
      ReapIs(g', later, defaultSession);
    }
  }

  // During a rebalance every heartbeat of a member, every sync and every fenced commit is told so;
  // outside one a member is accepted exactly in the group's generation, and nobody else is.
  lemma FencesAgree(g: Group, id: string, generation: int)
    requires generation >= 0
    ensures g.phase == Preparing ==>
      && SyncFence(g, id, generation) == CommitFence(g, id, generation) == RebalanceInProgress
      && HeartbeatFence(g, id, generation) == if id in g.members then RebalanceInProgress else UnknownMember
    ensures g.phase != Preparing ==>
      && SyncFence(g, id, generation) == CommitFence(g, id, generation) == HeartbeatFence(g, id, generation)
      && (SyncFence(g, id, generation) == UnknownMember <==> id !in g.members)
      && (SyncFence(g, id, generation) == NoError <==> id in g.members && generation == g.generation)
      && (SyncFence(g, id, generation) == IllegalGeneration <==> id in g.members && generation != g.generation)
  {
  }

  // A group without members is reset when it is deleted, and any other is left alone.
  lemma DeleteIs(g: Group)
    ensures if g.members == map[]
            then DeleteStep(g) == NewGroup.(protocolType := g.protocolType, protocol := g.protocol, round := g.round)
            else DeleteStep(g) == g
  {
    assert |g.members| == 0 <==> g.members == map[];
  }

  // The time a join gives its member for a rebalance is the first positive one of what it asks for,
  // its session timeout and the default, and never nothing.
  lemma TimeoutIs(req: JoinRequest, defaultMs: int)
    ensures var t := RebalanceTimeout(req, defaultMs);
      && t > 0
      && (req.rebalanceTimeoutMs > 0 ==> t == req.rebalanceTimeoutMs)
      && (req.rebalanceTimeoutMs <= 0 && req.sessionTimeoutMs > 0 ==> t == req.sessionTimeoutMs)
      && (req.rebalanceTimeoutMs <= 0 && req.sessionTimeoutMs <= 0 && defaultMs > 0 ==> t == defaultMs)
  {
  }

  // ------------------------------------------------------------ seniority

  predicate Senior(order: seq<string>, a: string, b: string)
  {
    exists i, j :: 0 <= i < j < |order| && order[i] == a && order[j] == b
  }

  lemma {:induction false} FilterSenior(order: seq<string>, remove: set<string>, a: string, b: string)
    requires Senior(order, a, b) && a !in remove && b !in remove
    ensures Senior(FilterOrder(order, remove), a, b)
    decreases |order|
  {
    var i, j :| 0 <= i < j < |order| && order[i] == a && order[j] == b;
    var k := |order| - 1;
    var front, kept := order[..k], FilterOrder(order[..k], remove);
    if j == k {
      assert front[i] == a;
      FilterOrderHolds(front, remove);
      var n :| 0 <= n < |kept| && kept[n] == a;
      assert FilterOrder(order, remove)[n] == a && FilterOrder(order, remove)[|kept|] == b;
    } else {
      assert front[i] == a && front[j] == b;
      FilterSenior(front, remove, a, b);
      var m, n :| 0 <= m < n < |kept| && kept[m] == a && kept[n] == b;
      assert FilterOrder(order, remove)[m] == a && FilterOrder(order, remove)[n] == b;
    }
  }

  // What stays of a group keeps its order, whether a round is then completed or not.
  lemma RemovedSenior(g: Group, gone: set<string>, a: string, b: string)
    requires Listing(g) && Senior(g.joinOrder, a, b) && a !in gone && b !in gone
    ensures Senior(Removed(g, gone).joinOrder, a, b)
    ensures CompleteJoin(Removed(g, gone)).joinOrder == Removed(g, gone).joinOrder
  {
    hide FilterOrder, Senior, ChooseProtocol, Listing;
    FilterSenior(g.joinOrder, gone, a, b);
  }

  lemma SeniorStep(w: World, op: Op, a: string, b: string)
    requires Inv(w) && Senior(w.group.joinOrder, a, b)
    requires a in w.group.members && b in w.group.members
    requires a in Next(w, op).group.members && b in Next(w, op).group.members
    ensures Senior(Next(w, op).group.joinOrder, a, b)
  {
    hide MembershipInv, LeaderInv, AssignmentInv, Issued, Senior, Listing, StoreAll, MemberName, JoinMember,
      CompleteJoin, Removed, EnrolMember;
    var g := w.group;
    GroupInvListing(g);
    match op
    case Join(req, timeout, now) => JoinSenior(w, req, timeout, now, a, b);
    case WakeJoin(id, expired) => if expired && id in g.members { ExpireSenior(g, a, b); }
    case Leave(ids) => LeaveSenior(g, ids, a, b);
    case Reap(now, defaultSession) => ReapSenior(g, now, defaultSession, a, b);
    case _ =>
  }

  lemma JoinSenior(w: World, req: JoinRequest, timeout: int, now: int, a: string, b: string)
    requires Inv(w) && Senior(w.group.joinOrder, a, b)
    ensures Senior(JoinStep(w, req, timeout, now).group.joinOrder, a, b)
  {
    hide Inv, JoinStep, JoinId;
    JoinAtOnce(w, req, timeout, now);
    if req.protocols != [] && !(req.memberId in w.group.members && w.group.phase == Stable
                                && SameMetadata(w.group.members[req.memberId], req)) {
      JoinIs(w, req, timeout, now);
      var order, order' := w.group.joinOrder, JoinStep(w, req, timeout, now).group.joinOrder;
      var i, j :| 0 <= i < j < |order| && order[i] == a && order[j] == b;
      assert order'[i] == a && order'[j] == b;
    }
  }

  lemma ExpireSenior(g: Group, a: string, b: string)
    requires GroupInv(g) && Listing(g) && Senior(g.joinOrder, a, b)
    requires a in g.members && b in g.members && a in Expire(g).members && b in Expire(g).members
    ensures Senior(Expire(g).joinOrder, a, b)
  {
    hide GroupInv, Senior, Listing, ChooseProtocol, FilterOrder;
    RemovedSenior(g, g.members.Keys - g.joined, a, b);
  }

  lemma LeaveSenior(g: Group, ids: set<string>, a: string, b: string)
    requires GroupInv(g) && Listing(g) && Senior(g.joinOrder, a, b)
    requires a in LeaveStep(g, ids).members && b in LeaveStep(g, ids).members
    ensures Senior(LeaveStep(g, ids).joinOrder, a, b)
  {
    hide GroupInv, Senior, Listing, CompleteJoin, Removed, RoundBegun, RoundOpen;
    LeaveIs(g, ids);
    RemovedSenior(g, ids, a, b);
  }

  lemma ReapSenior(g: Group, now: int, defaultSession: int, a: string, b: string)
    requires GroupInv(g) && Listing(g) && Senior(g.joinOrder, a, b)
    requires a in ReapStep(g, now, defaultSession).members && b in ReapStep(g, now, defaultSession).members
    ensures Senior(ReapStep(g, now, defaultSession).joinOrder, a, b)
  {
    hide GroupInv, Senior, Listing, CompleteJoin, Removed, RoundBegun, RoundOpen, Dead, LongSilent;
    ReapIs(g, now, defaultSession);
    DeadIs(g, now, defaultSession);
    RemovedSenior(g, Dead(g, now, defaultSession), a, b);
  }

  // Over any run, of two members that stay the one that came first stays ahead, so the other does
  // not lead.
  lemma {:induction false} SeniorRun(w: World, ops: seq<Op>, a: string, b: string)
    requires Inv(w) && Senior(w.group.joinOrder, a, b)
    requires a in w.group.members && b in w.group.members
    requires a in After(w, ops).group.members && b in After(w, ops).group.members
    ensures var g := After(w, ops).group; Senior(g.joinOrder, a, b) && (Active(g) ==> g.leader != b)
    decreases |ops|
  {
    hide Next, Issued, MembershipInv, LeaderInv, AssignmentInv, Senior;
    if ops == [] {
      NotLeading(w.group, a, b);
    } else {
      StepKeeps(w, ops[0]);
      StaysMember(w, ops, a);
      StaysMember(w, ops, b);
      SeniorStep(w, ops[0], a, b);
      SeniorRun(Next(w, ops[0]), ops[1..], a, b);
    }
  }

  lemma NotLeading(g: Group, a: string, b: string)
    requires GroupInv(g) && Senior(g.joinOrder, a, b)
    ensures Active(g) ==> g.leader != b
  {
    hide ChooseProtocol;
  }

  // ------------------------------------------------------------ whose assignment is whose

  // Pair i is the last that names its member.
  predicate LastNaming(submitted: seq<(string, bytes)>, i: nat)
  {
    i < |submitted| && forall j :: i < j < |submitted| ==> submitted[j].0 != submitted[i].0
  }

  predicate Names(submitted: seq<(string, bytes)>, id: string)
  {
    exists j :: 0 <= j < |submitted| && submitted[j].0 == id
  }

  lemma {:induction false} StoreAllLast(g: Group, sender: string, submitted: seq<(string, bytes)>, i: nat)
    requires LastNaming(submitted, i)
    ensures var t, id := StoreAll(g, sender, submitted), submitted[i].0; id in t && t[id].data == submitted[i].1
    decreases |submitted|
  {
    var k := |submitted| - 1;
    if i < k {
      assert submitted[k].0 != submitted[i].0;
      StoreAllLast(g, sender, submitted[..k], i);
    }
  }

  lemma {:induction false} StoreAllOther(g: Group, sender: string, submitted: seq<(string, bytes)>, id: string)
    requires !Names(submitted, id)
    ensures var t := StoreAll(g, sender, submitted);
      (id in t <==> id in g.assignments) && (id in t ==> t[id] == g.assignments[id])
    decreases |submitted|
  {
    if submitted != [] {
      var k := |submitted| - 1;
      assert submitted[k].0 != id;
      assert forall j :: 0 <= j < k ==> submitted[..k][j] == submitted[j];
      StoreAllOther(g, sender, submitted[..k], id);
    }
  }

  // A sync that is not refused stores for every member the last assignment submitted for it, leaves
  // the others' as they were, and changes nothing but the table and, once the sender has its
  // assignment or leads, the phase. A refused sync changes nothing.
  lemma SyncIs(g: Group, sender: string, generation: int, submitted: seq<(string, bytes)>, id: string)
    ensures var g' := SyncStep(g, sender, generation, submitted);
      if sender in g.members && g.phase != Preparing && generation == g.generation
      then
        && (forall i: nat :: LastNaming(submitted, i) && submitted[i].0 == id ==>
              id in g'.assignments && g'.assignments[id].data == submitted[i].1)
        && (!Names(submitted, id) ==>
              && (id in g'.assignments <==> id in g.assignments)
              && (id in g'.assignments ==> g'.assignments[id] == g.assignments[id]))
        && g' == g.(assignments := g'.assignments, phase := g'.phase)
        && g'.phase == if g.phase == Completing && (sender == g.leader || sender in g'.assignments) then Stable
                       else g.phase
      else g' == g
  {
    hide StoreAll, Names;
    forall i: nat | LastNaming(submitted, i) && submitted[i].0 == id
      ensures var t := StoreAll(g, sender, submitted); id in t && t[id].data == submitted[i].1
    {
      StoreAllLast(g, sender, submitted, i);
    }
    if !Names(submitted, id) { StoreAllOther(g, sender, submitted, id); }
  }

  predicate NobodyNames(ops: seq<Op>, id: string)
  {
    forall i :: 0 <= i < |ops| && ops[i].Sync? ==> !Names(ops[i].submitted, id)
  }

  // Nothing but a new round or a sync that names the member replaces its assignment while it stays.
  lemma HeldStep(w: World, op: Op, id: string)
    requires Inv(w) && id in w.group.members && id in w.group.assignments
    requires id in Next(w, op).group.members && Next(w, op).group.round == w.group.round
    requires op.Sync? ==> !Names(op.submitted, id)
    ensures var g' := Next(w, op).group;
      id in g'.assignments && g'.assignments[id] == w.group.assignments[id]
  {
    hide MembershipInv, LeaderInv, AssignmentInv, Issued, StoreAll, Listing, FilterOrder, MemberName, ChooseProtocol;
    match op
    case Sync(sender, generation, submitted) => SyncIs(w.group, sender, generation, submitted, id);
    case _ =>
  }

  lemma {:induction false} HeldRun(w: World, ops: seq<Op>, id: string)
    requires Inv(w) && id in w.group.members && id in w.group.assignments && NobodyNames(ops, id)
    requires id in After(w, ops).group.members && After(w, ops).group.generation == w.group.generation
    ensures var g' := After(w, ops).group;
      id in g'.assignments && g'.assignments[id] == w.group.assignments[id]
    decreases |ops|
  {
    hide Inv, Next, Issued, Names;
    if ops != [] {
      var w1 := Next(w, ops[0]);
      StepKeeps(w, ops[0]);
      StaysMember(w, ops, id);
      StepGeneration(w, ops[0]);
      assert w1.group.members != map[];
      GenerationCountsRounds(w1, ops[1..], id);
      HeldStep(w, ops[0], id);
      assert forall i :: 0 <= i < |ops[1..]| ==> ops[1..][i] == ops[i + 1];
      HeldRun(w1, ops[1..], id);
    }
  }

  // A member at both ends of a run is one all the way.
  lemma StaysMember(w: World, ops: seq<Op>, id: string)
    requires Inv(w) && ops != [] && id in w.group.members && id in After(w, ops).group.members
    ensures id in Next(w, ops[0]).group.members
  {
    hide Inv, Next, Issued;
    var w1 := Next(w, ops[0]);
    StepKeeps(w, ops[0]);
    StepMembers(w, ops[0]);
    if id !in w1.group.members {
      MembersAreIssued(w, id);
      IssuedOne(id, w.issued, w1.issued);
      NeverAgain(w1, ops[1..], id);
    }
  }

  // Once a sync that is not refused has submitted an assignment for a member, the table holds it
  // through every run in which the member stays in that generation and no other sync names it.
  lemma AssignmentHeld(w: World, sender: string, submitted: seq<(string, bytes)>, i: nat, ops: seq<Op>)
    requires Inv(w) && SyncFence(w.group, sender, w.group.generation) == NoError && LastNaming(submitted, i)
    requires submitted[i].0 in w.group.members && NobodyNames(ops, submitted[i].0)
    requires var g := After(w, [Sync(sender, w.group.generation, submitted)] + ops).group;
      submitted[i].0 in g.members && g.generation == w.group.generation
    ensures var g, id := After(w, [Sync(sender, w.group.generation, submitted)] + ops).group, submitted[i].0;
      id in g.assignments && g.assignments[id].data == submitted[i].1
  {
    hide Inv, StoreAll, NobodyNames;
    var op, id := Sync(sender, w.group.generation, submitted), submitted[i].0;
    StepKeeps(w, op);
    SyncIs(w.group, sender, w.group.generation, submitted, id);
    assert ([op] + ops)[1..] == ops && ([op] + ops)[0] == op;
    HeldRun(Next(w, op), ops, id);
  }

  // ------------------------------------------------------------ the chosen protocol

  ghost predicate Common(g: Group, name: string) { forall id :: id in g.members ==> Supports(g.members[id], name) }

  lemma CommonIsAllSupport(g: Group, name: string)
    requires Listing(g)
    ensures Common(g, name) <==> AllSupport(g.members, g.joinOrder, name)
  {
    hide Supports;
    if AllSupport(g.members, g.joinOrder, name) {
      forall id | id in g.members ensures Supports(g.members[id], name) {
        assert id in g.joinOrder;
        var i :| 0 <= i < |g.joinOrder| && g.joinOrder[i] == id;
      }
    }
  }

  lemma {:induction false} FirstCommonIs(g: Group, cs: seq<Protocol>) returns (k: nat)
    requires Listing(g)
    ensures k <= |cs| && forall i :: 0 <= i < k ==> !Common(g, cs[i].name)
    ensures k < |cs| ==> Common(g, cs[k].name) && FirstCommon(g.members, g.joinOrder, cs) == Some(cs[k].name)
    ensures k == |cs| ==> FirstCommon(g.members, g.joinOrder, cs) == None
    decreases |cs|
  {
    hide Listing, Common;
    k := 0;
    if cs != [] {
      CommonIsAllSupport(g, cs[0].name);
      if !AllSupport(g.members, g.joinOrder, cs[0].name) {
        var k' := FirstCommonIs(g, cs[1..]);
        k := k' + 1;
        forall i | 0 <= i < k ensures !Common(g, cs[i].name) {
          if i > 0 { assert cs[i] == cs[1..][i - 1]; }
        }
      }
    }
  }

  // Between rebalances the protocol is the leader's most preferred one that every current member
  // supports, or the leader's first when there is none.
  lemma ProtocolIsPreferred(w: World) returns (k: nat)
    requires Inv(w) && Active(w.group)
    ensures var g := w.group;
      && g.joinOrder != [] && g.leader == g.joinOrder[0] && g.leader in g.members
      && var ps := g.members[g.leader].protocols;
         && k <= |ps| && (forall i :: 0 <= i < k ==> !Common(g, ps[i].name))
         && (k < |ps| ==> Common(g, ps[k].name) && g.protocol == ps[k].name)
         && (k == |ps| ==> |ps| > 0 && g.protocol == ps[0].name)
  {
    hide Common, FirstCommon, Issued, AssignmentInv;
    var g := w.group;
    k := FirstCommonIs(g, g.members[g.leader].protocols);
  }
}
