/** What becomes of a member as it joins, goes down, comes back, is updated, pruned or
    forgotten: its status, its times, its versions, and what is reported about it. */
module Lifecycle {
  import opened Types
  import opened Membership
  import opened MembershipInvariants

  // ----- Joining and coming back -----

  /** The entry and the event of a member that joined. */
  ghost predicate JoinedAs(s: Serf, s': Serf, node: Node, tags: Tags, status: Status, time: nat, versions: Versions) {
    && node.id in s'.states && s'.events == s.events + [MemberEvent(Joined, s'.states[node.id].member)]
    && s'.states[node.id].member.node == node && s'.states[node.id].member.tags == tags
    && s'.states[node.id].Status() == status && s'.states[node.id].statusTime == time
    && s'.states[node.id].member.versions == versions && s'.states[node.id].leaveTime.None?
  }

  /** A known member that joins, whatever it was before, failed and left included, is
      alive, with the time and versions it had. */
  lemma ComesBackAlive(s: Serf, node: Node, tags: Tags)
    requires node.id in s.states
    ensures JoinedAs(s, NodeJoin(s, node, Some(tags)), node, tags, Alive, s.states[node.id].statusTime,
                     s.states[node.id].member.versions)
  {
  }

  /** A new one is alive since time zero, or what the intent kept for it says, with the
      versions of the local node. */
  lemma FirstJoin(s: Serf, node: Node, tags: Tags)
    requires node.id !in s.states
    ensures var kept := node.id in s.intents;
            JoinedAs(s, NodeJoin(s, node, Some(tags)), node, tags,
                     if kept && s.intents[node.id].kind.LeaveKind? then Leaving else Alive,
                     if kept then s.intents[node.id].ltime else 0, s.versions)
  {
  }

  predicate IsAlive(s: Serf, id: Id) {
    id in s.states && s.states[id].Status().Alive?
  }

  /** The steps that end a member's being alive: memberlist reports it down, or a newer
      leave about it arrives that is not refuted. */
  predicate Downs(s: Serf, a: Action, id: Id)
    requires id in s.states
  {
    match a
    case NodeLeaves(who, _) => who == id
    case LeaveArrives(who, t, _, _) => who == id && t > s.states[id].statusTime && !(id == s.localId && s.life.Running?)
    case _ => false
  }

  lemma LeaveIntentDowns(s: Serf, who: Id, t: nat, prune: bool, now: nat, id: Id)
    requires Indexed(s) && IsAlive(s, id)
    ensures IsAlive(LeaveIntent(s, who, t, prune, now).serf, id) <==> !Downs(s, LeaveArrives(who, t, prune, now), id)
  {
    if who in s.states { assert WellFormed(who, s.states[who]); }
  }

  lemma NodeJoinKeepsAlive(s: Serf, node: Node, tags: Option<Tags>, id: Id)
    requires IsAlive(s, id)
    ensures IsAlive(NodeJoin(s, node, tags), id)
  {
  }

  lemma NodeUpdateKeepsAlive(s: Serf, node: Node, tags: Option<Tags>, id: Id)
    requires IsAlive(s, id)
    ensures IsAlive(NodeUpdate(s, node, tags), id)
  {
  }

  lemma NodeLeaveDowns(s: Serf, who: Id, now: nat, id: Id)
    requires IsAlive(s, id)
    ensures IsAlive(NodeLeave(s, who, now), id) <==> who != id
  {
  }

  lemma JoinIntentKeepsAlive(s: Serf, who: Id, t: nat, now: nat, id: Id)
    requires IsAlive(s, id)
    ensures IsAlive(JoinIntent(s, who, t, now).0, id)
  {
  }

  lemma ReapKeepsAlive(s: Serf, failing: bool, now: nat, timeout: Member -> nat, id: Id)
    requires Indexed(s) && IsAlive(s, id)
    ensures IsAlive(if failing then ReapFailed(s, now, timeout) else ReapLeft(s, now, timeout), id)
  {
    var list := if failing then s.failed else s.left;
    var (kept, gone) := Sweep(list, 0, now, timeout);
    SweepTakesTheExpired(list, 0, now, timeout);
    DistinctByCount(list, kept, gone);
    EraseTakesIds(if failing then s.(failed := kept) else s.(left := kept), gone);
    forall m | m in gone ensures m.Id() != id { assert Matches(m, if failing then Failed else Left, s.states); }
  }

  /** An alive member stays alive through a step exactly if the step is not one of those. */
  lemma StaysAliveIff(s: Serf, a: Action, id: Id)
    requires Indexed(s) && IsAlive(s, id)
    ensures IsAlive(Apply(s, a), id) <==> !Downs(s, a, id)
  {
    match a
    case NodeJoins(node, tags) => NodeJoinKeepsAlive(s, node, tags, id);
    case NodeLeaves(who, now) => NodeLeaveDowns(s, who, now, id);
    case NodeUpdates(node, tags) => NodeUpdateKeepsAlive(s, node, tags, id);
    case JoinArrives(who, t, now) => JoinIntentKeepsAlive(s, who, t, now, id);
    case Announces(t, now) => JoinIntentKeepsAlive(Witness(s, t), s.localId, t, now, id);
    case LeaveArrives(who, t, prune, now) => LeaveIntentDowns(s, who, t, prune, now, id);
    case ReapsFailed(now, timeout) => ReapKeepsAlive(s, true, now, timeout, id);
    case ReapsLeft(now, timeout) => ReapKeepsAlive(s, false, now, timeout, id);
    case _ =>
  }

  /** No step of the run ends the member's being alive. */
  ghost predicate Undisturbed(s: Serf, actions: seq<Action>, id: Id)
    requires id in s.states
    decreases |actions|
  {
    actions == [] ||
    (&& !Downs(s, actions[0], id) && id in Apply(s, actions[0]).states
     && Undisturbed(Apply(s, actions[0]), actions[1..], id))
  }

  lemma {:induction false} RunStaysAlive(s: Serf, actions: seq<Action>, id: Id)
    requires Indexed(s) && IsAlive(s, id) && Undisturbed(s, actions, id)
    ensures IsAlive(Run(s, actions), id) && Indexed(Run(s, actions))
    decreases |actions|
  {
    if actions == [] {
    } else {
      StaysAliveIff(s, actions[0], id);
      StepKeepsIndex(s, actions[0]);
      RunStaysAlive(Apply(s, actions[0]), actions[1..], id);
    }
  }

  /** Metadata that does not decode, and news of members that are not known, change nothing. */
  lemma UnusableNewsChangesNothing(s: Serf, node: Node, tags: Option<Tags>, now: nat)
    ensures NodeJoin(s, node, None) == s && NodeUpdate(s, node, None) == s
    ensures node.id !in s.states ==> NodeUpdate(s, node, tags) == s && NodeLeave(s, node.id, now) == s
  {
  }

  // ----- Going down -----

  /** A member that goes down has left if it was leaving, has failed if it was alive, and
      is listed and reported accordingly; one that is down already stays as it is. */
  lemma GoesDownAs(s: Serf, id: Id, now: nat)
    requires Indexed(s) && id in s.states
    ensures var was := s.states[id];
            var s' := NodeLeave(s, id, now);
            && (was.leaveTime.Some? ==> s' == s)
            && (was.leaveTime.None? ==>
                  && id in s'.states && s'.states[id].leaveTime == Some(now)
                  && s'.states[id].statusTime == was.statusTime
                  && s'.states[id].member == was.member.(status := if was.Status().Leaving? then Left else Failed)
                  && s'.events == s.events + [MemberEvent(if was.Status().Leaving? then Departed else Lost,
                                                          s'.states[id].member)]
                  && s'.states[id] in (if was.Status().Leaving? then s'.left else s'.failed))
  {
    assert WellFormed(id, s.states[id]);
  }

  /** A member that came back, and goes down again later without a leave having been taken
      in the meantime, has failed and is reported lost. */
  lemma BackAndDownAgainHasFailed(s: Serf, node: Node, tags: Tags, actions: seq<Action>, now: nat)
    requires Indexed(s) && node.id in s.states
    requires var s1 := NodeJoin(s, node, Some(tags)); node.id in s1.states && Undisturbed(s1, actions, node.id)
    ensures var s2 := Run(NodeJoin(s, node, Some(tags)), actions);
            var s3 := NodeLeave(s2, node.id, now);
            && node.id in s3.states && s3.states[node.id].Status().Failed?
            && s3.events == s2.events + [MemberEvent(Lost, s3.states[node.id].member)]
  {
    var s1 := NodeJoin(s, node, Some(tags));
    JoinKeepsIndex(s, node, Some(tags));
    ComesBackAlive(s, node, tags);
    RunStaysAlive(s1, actions, node.id);
    GoesDownAs(Run(s1, actions), node.id, now);
  }

  // ----- Updates and pruning -----

  /** An update replaces node, tags and versions, keeps status and times, and is reported. */
  lemma UpdatedAs(s: Serf, node: Node, tags: Tags)
    requires node.id in s.states
    ensures var s' := NodeUpdate(s, node, Some(tags));
            && node.id in s'.states && s'.states[node.id].Status() == s.states[node.id].Status()
            && s'.states[node.id].statusTime == s.states[node.id].statusTime
            && s'.states[node.id].leaveTime == s.states[node.id].leaveTime
            && s'.states[node.id].member.node == node && s'.states[node.id].member.tags == tags
            && s'.states[node.id].member.versions == Versions(1, 1, 1, 1)
            && s'.events == s.events + [MemberEvent(Updated, s'.states[node.id].member)]
  {
  }

  /** A pruned member is reported as reaped; a failed one as departed before that. */
  lemma PrunedAs(s: Serf, id: Id, t: nat, now: nat)
    requires Indexed(s) && id in s.states && t > s.states[id].statusTime && !(id == s.localId && s.life.Running?)
    ensures var was := s.states[id];
            var m := was.member.(status := if was.leaveTime.None? then Leaving else Left);
            var s' := LeaveIntent(s, id, t, true, now).serf;
            && s'.states == s.states - {id}
            && s'.events == s.events + (if was.Status().Failed? then [MemberEvent(Departed, m)] else [])
                                     + [MemberEvent(Reaped, m)]
  {
    assert WellFormed(id, s.states[id]);
    var s' := LeaveIntent(s, id, t, true, now).serf;
    assert s'.states == s.states - {id};
  }

  /** A newer leave about a member without a status is noted, and neither acted nor passed
      on; about one of a status that is not known it is taken as about an alive one. */
  lemma LeaveOfOddStatus(s: Serf, id: Id, t: nat, now: nat)
    requires id in s.states && t > s.states[id].statusTime && !(id == s.localId && s.life.Running?)
    requires s.states[id].Status().Nothing? || s.states[id].Status().Unknown?
    ensures var o := LeaveIntent(s, id, t, false, now);
            && o.refute.None? && (o.rebroadcast <==> s.states[id].Status().Unknown?)
            && id in o.serf.states && o.serf.states[id].statusTime == t
            && o.serf.states[id].Status() == (if o.rebroadcast then Leaving else Nothing)
  {
  }

  /** Without a leave time an entry counts as expired, whatever the timeout. */
  lemma NoLeaveTimeIsExpired(m: MemberState, now: nat, timeout: Member -> nat)
    ensures Expired(m, now, timeout) <==> (m.leaveTime.Some? ==> now > m.leaveTime.value + timeout(m.member))
  {
  }

  // ----- Early intents -----

  /** An intent kept for a member that is not known is forgotten exactly when it is older
      than the limit. */
  lemma IntentIsForgottenOnceOld(s: Serf, id: Id, t: nat, leave: bool, now: nat, later: nat, limit: nat)
    requires id !in s.states && (id in s.intents ==> s.intents[id].ltime < t)
    ensures var s1 := if leave then LeaveIntent(s, id, t, false, now).serf else JoinIntent(s, id, t, now).0;
            && id in s1.intents && s1.intents[id].ltime == t
            && s1.intents[id].kind == (if leave then LeaveKind else JoinKind)
            && (id in ReapIntents(s1, later, limit).intents <==> later - now <= limit)
  {
  }

  /** The sweep of the kept intents drops exactly the old ones, and changes nothing else. */
  lemma OldIntentsGo(s: Serf, now: nat, limit: nat)
    ensures var s' := ReapIntents(s, now, limit);
            && s' == s.(intents := s'.intents)
            && (forall id :: id in s'.intents <==> id in s.intents && now <= s.intents[id].wallTime + limit)
            && (forall id :: id in s'.intents ==> s'.intents[id] == s.intents[id])
  {
  }

  // ----- Starting -----

  /** A new node runs, knows nobody, and its clock is the least past zero and past the
      clock of its snapshot. */
  lemma StartsAhead(localId: Id, versions: Versions, oldClock: nat)
    ensures var s := Fresh(localId, versions, oldClock);
            && s.localId == localId && s.versions == versions && s.life.Running?
            && s.states == map[] && s.intents == map[] && s.left == s.failed == [] && s.events == []
            && s.clock > oldClock && s.clock >= 1 && (s.clock == 1 || s.clock == oldClock + 1)
  {
  }
}
