/** Messages a node stamps with its own clock are never old: not its leave, not
    a forced leave of a known member, not the join that refutes a leave. */
module Stamps {
  import opened Types
  import opened Membership
  import opened MembershipInvariants

  /** The time of an intent about `id` carried by a step, if it is one. */
  function IntentTime(a: Action, id: Id, localId: Id): Option<nat> {
    match a
    case JoinArrives(who, t, _) => if who == id then Some(t) else None
    case LeaveArrives(who, t, _, _) => if who == id then Some(t) else None
    case Announces(t, _) => if id == localId then Some(t) else None
    case _ => None
  }

  /** Every intent about `id` in the run is older than `stamp`. */
  ghost predicate Unopposed(actions: seq<Action>, id: Id, localId: Id, stamp: nat) {
    forall k :: 0 <= k < |actions| && IntentTime(actions[k], id, localId).Some? ==>
      IntentTime(actions[k], id, localId).value < stamp
  }

  /** Everything recorded about `id` is older than `stamp`. */
  ghost predicate OlderThan(s: Serf, id: Id, stamp: nat) {
    && (id in s.states ==> s.states[id].statusTime < stamp)
    && (id in s.intents ==> s.intents[id].ltime < stamp)
  }

  lemma JoinLeavesStampNewest(s: Serf, who: Id, t: nat, now: nat, id: Id, stamp: nat)
    requires OlderThan(s, id, stamp) && (who == id ==> t < stamp)
    ensures OlderThan(JoinIntent(s, who, t, now).0, id, stamp) && JoinIntent(s, who, t, now).0.localId == s.localId
  {
  }

  lemma LeaveLeavesStampNewest(s: Serf, who: Id, t: nat, prune: bool, now: nat, id: Id, stamp: nat)
    requires OlderThan(s, id, stamp) && (who == id ==> t < stamp)
    ensures var s' := LeaveIntent(s, who, t, prune, now).serf; OlderThan(s', id, stamp) && s'.localId == s.localId
  {
  }

  lemma StepLeavesStampNewest(s: Serf, a: Action, id: Id, stamp: nat)
    requires OlderThan(s, id, stamp) && stamp >= 1
    requires IntentTime(a, id, s.localId).Some? ==> IntentTime(a, id, s.localId).value < stamp
    ensures OlderThan(Apply(s, a), id, stamp) && Apply(s, a).localId == s.localId
  {
    match a
    case JoinArrives(who, t, now) => JoinLeavesStampNewest(s, who, t, now, id, stamp);
    case Announces(t, now) => JoinLeavesStampNewest(Witness(s, t), s.localId, t, now, id, stamp);
    case LeaveArrives(who, t, prune, now) => LeaveLeavesStampNewest(s, who, t, prune, now, id, stamp);
    case ReapsFailed(now, timeout) =>
      var (kept, gone) := Sweep(s.failed, 0, now, timeout);
      EraseTakesIds(s.(failed := kept), gone);
    case ReapsLeft(now, timeout) =>
      var (kept, gone) := Sweep(s.left, 0, now, timeout);
      EraseTakesIds(s.(left := kept), gone);
    case _ =>
  }

  lemma {:induction false} RunLeavesStampNewest(s: Serf, actions: seq<Action>, id: Id, stamp: nat)
    requires OlderThan(s, id, stamp) && stamp >= 1 && Unopposed(actions, id, s.localId, stamp)
    ensures OlderThan(Run(s, actions), id, stamp) && Run(s, actions).localId == s.localId
    decreases |actions|
  {
    if actions == [] {
    } else {
      StepLeavesStampNewest(s, actions[0], id, stamp);
      RunLeavesStampNewest(Apply(s, actions[0]), actions[1..], id, stamp);
    }
  }

  /** `leave` reads the clock, and after anything else the node may do meanwhile
      processes its own leave: the local member is leaving from that time on. */
  lemma LocalLeaveTakesEffect(s: Serf, actions: seq<Action>, now: nat)
    requires Sound(s) && Unopposed(actions, s.localId, s.localId, s.clock)
    requires var s' := Run(s, actions); s'.localId in s'.states && !s'.life.Running?
    ensures var s' := Run(s, actions);
            var o := LeaveIntent(s', s.localId, s.clock, false, now);
            && o.rebroadcast && o.refute.None?
            && s.localId in o.serf.states && o.serf.states[s.localId].statusTime == s.clock
            && o.serf.states[s.localId].Status() == (if s'.states[s.localId].leaveTime.None? then Leaving else Left)
  {
    RunLeavesStampNewest(s, actions, s.localId, s.clock);
    RunKeepsSound(s, actions);
    assert WellFormed(s.localId, Run(s, actions).states[s.localId]);
  }

  /** The same with nothing in between. */
  lemma LeaveRightAway(s: Serf, now: nat)
    requires Sound(s) && !s.life.Running?
    ensures var s' := LeaveIntent(Witness(s, s.clock), s.localId, s.clock, false, now).serf;
            && s'.clock == s.clock + 1 && s'.life == s.life
            && (s.localId in s.states ==>
                  && s.localId in s'.states && s'.states[s.localId].statusTime == s.clock
                  && s'.states[s.localId].Status() == (if s.states[s.localId].leaveTime.None? then Leaving else Left))
  {
    if s.localId in s.states {
      var actions := [Witnessing(s.clock)];
      assert actions[1..] == [];
      assert Run(s, actions) == Witness(s, s.clock);
      LocalLeaveTakesEffect(s, actions, now);
    }
  }

  /** `force_leave` of a known member other than the local one always takes: an
      alive one starts leaving, a failed one has left, and a pruned one is gone. */
  lemma ForcedLeaveTakesEffect(s: Serf, actions: seq<Action>, id: Id, prune: bool, now: nat)
    requires Sound(s) && Unopposed(actions, id, s.localId, s.clock)
    requires id != s.localId && id in Run(s, actions).states
    ensures var s' := Run(s, actions);
            var o := LeaveIntent(s', id, s.clock, prune, now);
            && o.rebroadcast
            && (prune ==> id !in o.serf.states && !Mentions(o.serf.failed, id) && !Mentions(o.serf.left, id))
            && (!prune ==> id in o.serf.states && o.serf.states[id].statusTime == s.clock
                           && o.serf.states[id].Status() == (if s'.states[id].leaveTime.None? then Leaving else Left)
                           && !Mentions(o.serf.failed, id))
  {
    RunLeavesStampNewest(s, actions, id, s.clock);
    RunKeepsSound(s, actions);
    var s' := Run(s, actions);
    assert WellFormed(id, s'.states[id]);
    var o := LeaveIntent(s', id, s.clock, prune, now);
    LeaveIntentKeepsIndex(s', id, s.clock, prune, now);
    UnlistedUnlessStatus(o.serf, id);
  }

  lemma UnlistedUnlessStatus(s: Serf, id: Id)
    requires Indexed(s)
    ensures Mentions(s.failed, id) ==> id in s.states && s.states[id].Status() == Failed
    ensures Mentions(s.left, id) ==> id in s.states && s.states[id].Status() == Left
  {
    forall m | m in s.failed ensures Matches(m, Failed, s.states) {}
    forall m | m in s.left ensures Matches(m, Left, s.states) {}
  }

  /** A refutation is strictly newer than the leave it refutes and than anything
      the node recorded about itself, so when it runs, however much later, it
      takes: the local member is not leaving. */
  lemma RefutationTakesEffect(s: Serf, t: nat, prune: bool, now: nat, actions: seq<Action>, later: nat)
    requires Sound(s) && LeaveIntent(s, s.localId, t, prune, now).refute.Some?
    requires var o := LeaveIntent(s, s.localId, t, prune, now);
             Unopposed(actions, s.localId, s.localId, o.refute.value) && s.localId in Run(o.serf, actions).states
    ensures var o := LeaveIntent(s, s.localId, t, prune, now);
            && o.refute.value > t && !o.rebroadcast
            && o.serf.states == s.states
            && var s' := BroadcastJoin(Run(o.serf, actions), o.refute.value, later);
               && s'.states[s.localId].statusTime == o.refute.value
               && !s'.states[s.localId].Status().Leaving?
  {
    var o := LeaveIntent(s, s.localId, t, prune, now);
    RunLeavesStampNewest(o.serf, actions, s.localId, o.refute.value);
  }
}
