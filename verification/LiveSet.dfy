/** The snapshotter learns which nodes to rejoin from its file and the member events
    alone. Is its set of live nodes the set of members that are alive or leaving?
    With every member event reaching it, it starts to differ exactly when a live
    member is pruned or changes its address, since the snapshotter passes over the
    event of a pruned or updated member and files nodes under id and address
    together. And a node read from the file stays in the set until it is reported as
    left or failed. */
module LiveSet {
  import opened Types
  import opened Membership
  import opened MembershipInvariants
  import opened SnapshotLog
  import opened Snapshotter

  /** What one event does to the snapshotter's set. */
  function AliveStep(alive: set<Node>, e: MemberEvent): set<Node> {
    match e.ty
    case Joined => alive + {e.member.node}
    case Departed => alive - {e.member.node}
    case Lost => alive - {e.member.node}
    case _ => alive
  }

  function AliveFrom(alive: set<Node>, events: seq<MemberEvent>): set<Node>
    decreases |events|
  {
    if events == [] then alive else AliveFrom(AliveStep(alive, events[0]), events[1..])
  }

  // ----- The snapshotter's set is that fold of the events -----

  /** The inputs hand over `events` in order, among other events and ticks. */
  predicate Carries(inputs: seq<Input>, events: seq<MemberEvent>) {
    if inputs == [] then events == []
    else match inputs[0]
         case Arrival(MemberChange(ty, nodes), _) =>
           && events != [] && ty == events[0].ty && nodes == [events[0].member.node]
           && Carries(inputs[1..], events[1..])
         case Arrival(_, _) => Carries(inputs[1..], events)
         case Tick(_) => Carries(inputs[1..], events)
         case _ => false
  }

  lemma {:induction false} SnapshotterFolds(m: Memory, inputs: seq<Input>, events: seq<MemberEvent>, rejoin: bool)
    requires Carries(inputs, events)
    ensures MainLoop(Life(m, false), inputs, rejoin).memory.alive == AliveFrom(m.alive, events)
    decreases |inputs|
  {
    if inputs == [] {
    } else {
      match inputs[0]
      case Arrival(e, now) =>
        var m' := Observed(m, e, now);
        if e.MemberChange? {
          assert m'.alive == AliveStep(m.alive, events[0]);
          SnapshotterFolds(m', inputs[1..], events[1..], rejoin);
        } else {
          SnapshotterFolds(m', inputs[1..], events, rejoin);
        }
      case Tick(now) => SnapshotterFolds(Ticked(m, now), inputs[1..], events, rejoin);
    }
  }

  // ----- It follows the members -----

  /** What is held about one id, as a set of nodes. */
  function NodesOf(states: map<Id, MemberState>, id: Id): set<Node> {
    if id in states && id in Live(states) then {states[id].member.node} else {}
  }

  ghost predicate Keyed(states: map<Id, MemberState>) {
    forall id :: id in states ==> states[id].Id() == id
  }

  /** The set holds exactly the nodes of the live members. */
  ghost predicate Follows(alive: set<Node>, states: map<Id, MemberState>) {
    forall n: Node :: n in alive <==> n in NodesOf(states, n.id)
  }

  /** The events of a node, read by a snapshotter that started with the nodes
      `loaded` from its file, have led it to the live members. */
  ghost predicate InSync(loaded: set<Node>, s: Serf) {
    Follows(AliveFrom(loaded, s.events), s.states)
  }

  lemma {:induction false} AliveSnoc(alive: set<Node>, events: seq<MemberEvent>, e: MemberEvent)
    ensures AliveFrom(alive, events + [e]) == AliveStep(AliveFrom(alive, events), e)
    decreases |events|
  {
    if events == [] {
      assert [e][1..] == [];
    } else {
      assert (events + [e])[1..] == events[1..] + [e];
      AliveSnoc(AliveStep(alive, events[0]), events[1..], e);
    }
  }

  /** Nothing but `id` changed. */
  ghost predicate OnlyChanges(a: map<Id, MemberState>, b: map<Id, MemberState>, id: Id) {
    Keyed(a) && Keyed(b) && forall x :: x != id ==> NodesOf(a, x) == NodesOf(b, x)
  }

  /** An event about a member keeps the sets together exactly if it does so for
      what is held about that member. */
  lemma FollowsIffLocally(alive: set<Node>, a: map<Id, MemberState>, b: map<Id, MemberState>, e: MemberEvent)
    requires Follows(alive, a) && OnlyChanges(a, b, e.member.node.id)
    ensures Follows(AliveStep(alive, e), b) <==>
            AliveStep(NodesOf(a, e.member.node.id), e) == NodesOf(b, e.member.node.id)
  {
    var id := e.member.node.id;
    var alive' := AliveStep(alive, e);
    forall n: Node | n.id == id ensures n in alive' <==> n in AliveStep(NodesOf(a, id), e) {
      assert n in alive <==> n in NodesOf(a, n.id);
    }
    forall n: Node | n.id != id ensures n in alive' <==> n in NodesOf(b, n.id) {
      assert n in alive <==> n in NodesOf(a, n.id);
    }
    if Follows(alive', b) {
      forall n: Node | n.id == id ensures n in alive' <==> n in NodesOf(b, id) {
        assert n in alive' <==> n in NodesOf(b, n.id);
      }
      assert AliveStep(NodesOf(a, id), e) == NodesOf(b, id);
    }
  }

  /** One emitted event and the change of the members it stands for. */
  lemma EmitFollows(loaded: set<Node>, s: Serf, states: map<Id, MemberState>, e: MemberEvent)
    requires InSync(loaded, s) && OnlyChanges(s.states, states, e.member.node.id)
    ensures Follows(AliveFrom(loaded, s.events + [e]), states)
            <==> AliveStep(NodesOf(s.states, e.member.node.id), e) == NodesOf(states, e.member.node.id)
  {
    AliveSnoc(loaded, s.events, e);
    FollowsIffLocally(AliveFrom(loaded, s.events), s.states, states, e);
  }

  /** The same when the change is a new entry for the member. */
  lemma EntryFollows(loaded: set<Node>, s: Serf, ms: MemberState, ty: EventType)
    requires InSync(loaded, s) && Keyed(s.states)
    ensures Follows(AliveFrom(loaded, s.events + [MemberEvent(ty, ms.member)]), s.states[ms.Id() := ms])
            <==> AliveStep(NodesOf(s.states, ms.Id()), MemberEvent(ty, ms.member))
                 == if ms.Status().Alive? || ms.Status().Leaving? then {ms.member.node} else {}
  {
    EmitFollows(loaded, s, s.states[ms.Id() := ms], MemberEvent(ty, ms.member));
  }

  lemma KeyedIfIndexed(s: Serf)
    requires Indexed(s)
    ensures Keyed(s.states)
  {
    forall id | id in s.states ensures s.states[id].Id() == id { assert WellFormed(id, s.states[id]); }
  }

  /** The steps that keep a live member's node: no other address for it, no pruning of it. */
  predicate Careful(s: Serf, a: Action) {
    match a
    case NodeJoins(node, tags) => tags.Some? ==> NodesOf(s.states, node.id) <= {node}
    case NodeUpdates(node, tags) => tags.Some? ==> NodesOf(s.states, node.id) <= {node}
    case LeaveArrives(id, t, prune, now) =>
      !(prune && id in Live(s.states) && t > s.states[id].statusTime && !(id == s.localId && s.life.Running?))
    case _ => true
  }

  lemma NodeJoinFollows(loaded: set<Node>, s: Serf, node: Node, tags: Option<Tags>)
    requires Indexed(s) && InSync(loaded, s)
    ensures InSync(loaded, NodeJoin(s, node, tags)) <==> Careful(s, NodeJoins(node, tags))
  {
    KeyedIfIndexed(s);
    if tags.Some? { EntryFollows(loaded, s, NodeJoin(s, node, tags).states[node.id], Joined); }
  }

  lemma NodeUpdateFollows(loaded: set<Node>, s: Serf, node: Node, tags: Option<Tags>)
    requires Indexed(s) && InSync(loaded, s)
    ensures InSync(loaded, NodeUpdate(s, node, tags)) <==> Careful(s, NodeUpdates(node, tags))
  {
    if tags.Some? && node.id in s.states {
      KeyedIfIndexed(s);
      EntryFollows(loaded, s, NodeUpdate(s, node, tags).states[node.id], Updated);
    }
  }

  lemma NodeLeaveFollows(loaded: set<Node>, s: Serf, id: Id, now: nat)
    requires Indexed(s) && InSync(loaded, s)
    ensures InSync(loaded, NodeLeave(s, id, now))
  {
    KeyedIfIndexed(s);
    if id in s.states && s.states[id].leaveTime.None? {
      assert WellFormed(id, s.states[id]);
      EntryFollows(loaded, s, NodeLeave(s, id, now).states[id],
        if s.states[id].Status().Leaving? then Departed else Lost);
    }
  }

  /** Without an event: a member rewritten in place, no more or less live than before. */
  lemma SilentFollows(alive: set<Node>, a: map<Id, MemberState>, ms: MemberState)
    requires Follows(alive, a) && NodesOf(a[ms.Id() := ms], ms.Id()) == NodesOf(a, ms.Id())
    ensures Follows(alive, a[ms.Id() := ms])
  {
    forall n: Node ensures NodesOf(a[ms.Id() := ms], n.id) == NodesOf(a, n.id) {}
  }

  lemma JoinIntentFollows(loaded: set<Node>, s: Serf, id: Id, t: nat, now: nat)
    requires Indexed(s) && InSync(loaded, s)
    ensures InSync(loaded, JoinIntent(s, id, t, now).0)
  {
    if id in s.states && t > s.states[id].statusTime {
      SilentFollows(AliveFrom(loaded, s.events), s.states, JoinIntent(s, id, t, now).0.states[id]);
    }
  }

  lemma PruneFollows(loaded: set<Node>, s: Serf, ms: MemberState)
    requires Indexed(s) && InSync(loaded, s) && ms.Id() in s.states
    ensures InSync(loaded, Prune(s, ms)) <==> NodesOf(s.states, ms.Id()) == {}
  {
    EmitFollows(loaded, s, s.states - {ms.Id()}, MemberEvent(Reaped, ms.member));
  }

  lemma DepartFollows(loaded: set<Node>, s: Serf, ms: MemberState)
    requires Indexed(s) && InSync(loaded, s) && ms.Id() in s.states
    requires s.states[ms.Id()].Status().Failed? && ms.Status().Left?
    ensures Follows(AliveFrom(loaded, s.events + [MemberEvent(Departed, ms.member)]), s.states[ms.Id() := ms])
  {
    KeyedIfIndexed(s);
    EntryFollows(loaded, s, ms, Departed);
  }

  lemma PrunedDepartFollows(loaded: set<Node>, s: Serf, ms: MemberState)
    requires Indexed(s) && InSync(loaded, s) && ms.Id() in s.states && WellFormed(ms.Id(), ms)
    requires s.states[ms.Id()].Status().Failed? && ms.Status().Left?
    ensures var left :=
              s.(states := s.states[ms.Id() := ms], failed := Retain(s.failed, ms.Id()), left := s.left + [ms]);
            InSync(loaded, Prune(Emit(left, Departed, ms.member), ms))
  {
    DepartFollows(loaded, s, ms);
    DepartKeepsIndex(s, ms);
    var left := s.(states := s.states[ms.Id() := ms], failed := Retain(s.failed, ms.Id()), left := s.left + [ms]);
    PruneFollows(loaded, Emit(left, Departed, ms.member), ms);
  }

  lemma LeaveIntentFollows(loaded: set<Node>, s0: Serf, id: Id, t: nat, prune: bool, now: nat)
    requires Indexed(s0) && InSync(loaded, s0)
    ensures InSync(loaded, LeaveIntent(s0, id, t, prune, now).serf) <==> Careful(s0, LeaveArrives(id, t, prune, now))
  {
    var s := Witness(s0, t);
    if id in s.states && t > s.states[id].statusTime && !(id == s.localId && s.life.Running?) {
      var was := s.states[id].(statusTime := t);
      assert WellFormed(id, s.states[id]);
      if was.Status().Failed? {
        var ms := was.(member := was.member.(status := Left));
        if prune { PrunedDepartFollows(loaded, s, ms); } else { DepartFollows(loaded, s, ms); }
      } else {
        var ms := if was.Status().Left? then was else was.(member := was.member.(status := Leaving));
        SilentFollows(AliveFrom(loaded, s.events), s.states, ms);
        RewriteKeepsIndex(s, ms);
        if prune { PruneFollows(loaded, s.(states := s.states[id := ms]), ms); }
      }
    }
  }

  lemma {:induction false} EraseFollows(loaded: set<Node>, s: Serf, gone: seq<MemberState>)
    requires Keyed(s.states) && InSync(loaded, s) && forall m :: m in gone ==> NodesOf(s.states, m.Id()) == {}
    ensures InSync(loaded, Erase(s, gone))
    decreases |gone|
  {
    if gone == [] {
    } else {
      assert gone[0] in gone;
      var states := s.states - {gone[0].Id()};
      EmitFollows(loaded, s, states, MemberEvent(Reaped, gone[0].member));
      EraseFollows(loaded, Emit(s.(states := states), Reaped, gone[0].member), gone[1..]);
    }
  }

  lemma ReapFollows(loaded: set<Node>, s: Serf, failing: bool, now: nat, timeout: Member -> nat)
    requires Indexed(s) && InSync(loaded, s)
    ensures InSync(loaded, if failing then ReapFailed(s, now, timeout) else ReapLeft(s, now, timeout))
  {
    var list := if failing then s.failed else s.left;
    var (kept, gone) := Sweep(list, 0, now, timeout);
    SweepTakesTheExpired(list, 0, now, timeout);
    DistinctByCount(list, kept, gone);
    forall m | m in gone ensures NodesOf(s.states, m.Id()) == {} {
      assert Matches(m, if failing then Failed else Left, s.states);
    }
    EraseFollows(loaded, if failing then s.(failed := kept) else s.(left := kept), gone);
  }

  /** A step keeps the snapshotter's set in step with the members exactly if it is careful. */
  lemma StaysInSyncIffCareful(loaded: set<Node>, s: Serf, a: Action)
    requires Indexed(s) && InSync(loaded, s)
    ensures InSync(loaded, Apply(s, a)) <==> Careful(s, a)
  {
    match a
    case NodeJoins(node, tags) => NodeJoinFollows(loaded, s, node, tags);
    case NodeLeaves(id, now) => NodeLeaveFollows(loaded, s, id, now);
    case NodeUpdates(node, tags) => NodeUpdateFollows(loaded, s, node, tags);
    case JoinArrives(id, t, now) => JoinIntentFollows(loaded, s, id, t, now);
    case Announces(t, now) => JoinIntentFollows(loaded, Witness(s, t), s.localId, t, now);
    case LeaveArrives(id, t, prune, now) => LeaveIntentFollows(loaded, s, id, t, prune, now);
    case ReapsFailed(now, timeout) => ReapFollows(loaded, s, true, now, timeout);
    case ReapsLeft(now, timeout) => ReapFollows(loaded, s, false, now, timeout);
    case _ =>
  }

  /** The smallest careless run: a node joins and is pruned, and the snapshotter still holds it. */
  lemma PrunedMemberIsKept(localId: Id, versions: Versions, node: Node, now: nat)
    requires node.id != localId
    ensures var s :=
              Run(Fresh(localId, versions, 0), [NodeJoins(node, Some(map[])), LeaveArrives(node.id, 1, true, now)]);
            s.states == map[] && AliveFrom({}, s.events) == {node}
  {
    var s0 := Fresh(localId, versions, 0);
    var s1 := NodeJoin(s0, node, Some(map[]));
    var s2 := LeaveIntent(s1, node.id, 1, true, now).serf;
    var actions := [NodeJoins(node, Some(map[])), LeaveArrives(node.id, 1, true, now)];
    var rest := [LeaveArrives(node.id, 1, true, now)];
    assert actions[1..] == rest && rest[1..] == [];
    assert Run(s1, rest) == Run(s2, []) == s2;
    assert Run(s0, actions) == Run(s1, rest);
    AliveSnoc({}, [], s1.events[0]);
    AliveSnoc({}, s1.events, s2.events[1]);
    assert [] + [s1.events[0]] == s1.events;
    assert s2.states == map[];
  }

  ghost predicate AllCareful(s: Serf, actions: seq<Action>)
    decreases |actions|
  {
    actions == [] || (Careful(s, actions[0]) && AllCareful(Apply(s, actions[0]), actions[1..]))
  }

  lemma {:induction false} RunStaysInSync(loaded: set<Node>, s: Serf, actions: seq<Action>)
    requires Indexed(s) && InSync(loaded, s) && AllCareful(s, actions)
    ensures InSync(loaded, Run(s, actions))
    decreases |actions|
  {
    if actions == [] {
    } else {
      StaysInSyncIffCareful(loaded, s, actions[0]);
      StepKeepsIndex(s, actions[0]);
      RunStaysInSync(loaded, Apply(s, actions[0]), actions[1..]);
    }
  }

  // ----- The nodes loaded from the file -----

  /** An event that takes a node out of the snapshotter's set. */
  predicate Removes(e: MemberEvent, n: Node) {
    (e.ty.Departed? || e.ty.Lost?) && e.member.node == n
  }

  ghost predicate Removed(events: seq<MemberEvent>, n: Node) {
    exists k :: 0 <= k < |events| && Removes(events[k], n)
  }

  /** The loaded nodes that no event has taken out. */
  ghost function Lingering(loaded: set<Node>, events: seq<MemberEvent>): set<Node> {
    set n | n in loaded && !Removed(events, n)
  }

  /** A loaded node stays until an event takes it out; otherwise what was loaded
      makes no difference. */
  lemma {:induction false} LoadedNodesLinger(loaded: set<Node>, events: seq<MemberEvent>)
    ensures AliveFrom(loaded, events) == AliveFrom({}, events) + Lingering(loaded, events)
  {
    if events == [] {
    } else {
      var n := |events| - 1;
      var (before, e) := (events[..n], events[n]);
      assert events == before + [e];
      LoadedNodesLinger(loaded, before);
      AliveSnoc(loaded, before, e);
      AliveSnoc({}, before, e);
      forall x ensures Removed(events, x) <==> Removed(before, x) || Removes(e, x) { RemovedByOneMore(before, e, x); }
      assert AliveStep(AliveFrom({}, before) + Lingering(loaded, before), e)
          == AliveStep(AliveFrom({}, before), e) + Lingering(loaded, events);
    }
  }

  lemma RemovedByOneMore(events: seq<MemberEvent>, e: MemberEvent, n: Node)
    ensures Removed(events + [e], n) <==> Removed(events, n) || Removes(e, n)
  {
    if Removed(events, n) {
      var k :| 0 <= k < |events| && Removes(events[k], n);
      assert Removes((events + [e])[k], n);
    }
    if Removes(e, n) { assert Removes((events + [e])[|events|], n); }
  }

  /** The nodes of the members that are alive or leaving. */
  function LiveNodes(states: map<Id, MemberState>): set<Node> {
    set id | id in Live(states) :: states[id].member.node
  }

  lemma FollowsMeansLiveNodes(s: Serf, alive: set<Node>)
    requires Indexed(s) && Follows(alive, s.states)
    ensures alive == LiveNodes(s.states)
  {
    forall id | id in Live(s.states) ensures WellFormed(id, s.states[id]) {}
  }

  /** In every careful run of a node, be it new or restarted from a file with any
      nodes in it: the snapshotter, fed with the member events among anything else,
      holds the nodes of the alive and leaving members and those loaded nodes that
      no event has taken out. So it holds exactly the live ones if and only if each
      loaded node is live or was reported as left or failed. */
  lemma SnapshotterHoldsLiveMembers(localId: Id, versions: Versions, oldClock: nat, actions: seq<Action>,
                                    m: Memory, inputs: seq<Input>, rejoin: bool)
    requires var s := Fresh(localId, versions, oldClock);
             AllCareful(s, actions) && Carries(inputs, Run(s, actions).events)
    ensures var s := Run(Fresh(localId, versions, oldClock), actions);
            var alive := MainLoop(Life(m, false), inputs, rejoin).memory.alive;
            && alive == LiveNodes(s.states) + Lingering(m.alive, s.events)
            && (alive == LiveNodes(s.states) <==>
                  forall n :: n in m.alive ==> n in LiveNodes(s.states) || Removed(s.events, n))
  {
    var s0 := Fresh(localId, versions, oldClock);
    var s := Run(s0, actions);
    RunStaysInSync({}, s0, actions);
    EveryReachableStateIsSound(localId, versions, oldClock, actions);
    FollowsMeansLiveNodes(s, AliveFrom({}, s.events));
    LoadedNodesLinger(m.alive, s.events);
    SnapshotterFolds(m, inputs, s.events, rejoin);
  }

  /** The smallest case in which it does not: a node from the file that never comes
      back is named by no event and stays. */
  lemma LoadedNodeNeverSeenIsKept(localId: Id, versions: Versions, oldClock: nat, node: Node, m: Memory, rejoin: bool)
    requires m.alive == {node}
    ensures var s := Run(Fresh(localId, versions, oldClock), []);
            && s.states == map[] && s.events == [] && Carries([], s.events)
            && MainLoop(Life(m, false), [], rejoin).memory.alive == {node}
  {
  }
}
