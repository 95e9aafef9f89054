/** What the exchange of states does to a leave that is under way: it masks it, and can
    split two nodes over the member for good. And how often it is refuted. */
module Masking {
  import opened Types
  import opened Membership
  import opened MembershipInvariants
  import opened Gossip
  import opened PushPull

  // ----- Leaves still under way -----

  lemma SentAsJoin(peer: Serf, id: Id)
    requires Indexed(peer) && id in peer.states && peer.states[id].leaveTime.None?
    ensures Msg(JoinKind, id, peer.states[id].statusTime) in Intents(LocalState(peer))
  {
    assert WellFormed(id, peer.states[id]);
    IdsAreTheStatus(peer.left, Left, peer.states);
    assert IntentFor(LocalState(peer), id) == Msg(JoinKind, id, peer.states[id].statusTime);
  }

  /** A leave still under way is not brought over but masked. A peer that holds a member as
      leaving at `t` sends it as a join at `t`. Whatever this node holds about the member,
      it deals with it as with that join, and then drops the leave itself, when it comes, as
      old. Without the exchange it would have taken the leave, or refuted it, exactly if all
      it had noted was older. */
  lemma ExchangeMasksLeave(s: Serf, peer: Serf, ms: seq<Msg>, id: Id, now: nat, later: nat)
    requires Indexed(s) && Indexed(peer) && Order(ms, Intents(LocalState(peer)))
    requires id in peer.states && peer.states[id].Status().Leaving?
    ensures var t := peer.states[id].statusTime;
            var s' := Merge(s, LocalState(peer), ms, now);
            var o := LeaveIntent(s', id, t, false, later);
            var direct := LeaveIntent(s, id, t, false, later);
            && SlotOf(s', id) == SlotAfter(SlotOf(s, id), id == s.localId && s.life.Running?, Msg(JoinKind, id, t), now)
            && !o.rebroadcast && o.refute.None? && o.serf.states == s'.states && o.serf.intents == s'.intents
            && (direct.rebroadcast || direct.refute.Some? <==> LastTime(s, id) < t)
  {
    var r := LocalState(peer);
    var m := Msg(JoinKind, id, peer.states[id].statusTime);
    assert WellFormed(id, peer.states[id]);
    SentAsJoin(peer, id);
    MergedSlot(s, r, ms, m, now);
    CaughtUpOn(s, r, ms, m, now);
    OldLeaveIsDropped(Merge(s, r, ms, now), id, m.time, later);
    LeaveIsTakenIffNew(s, id, m.time, later);
  }

  lemma OldLeaveIsDropped(s: Serf, id: Id, t: nat, now: nat)
    requires t <= LastTime(s, id)
    ensures var o := LeaveIntent(s, id, t, false, now);
            !o.rebroadcast && o.refute.None? && o.serf.states == s.states && o.serf.intents == s.intents
  {
  }

  lemma LeaveIsTakenIffNew(s: Serf, id: Id, t: nat, now: nat)
    requires Indexed(s)
    ensures var o := LeaveIntent(s, id, t, false, now); o.rebroadcast || o.refute.Some? <==> LastTime(s, id) < t
  {
    var m := Msg(LeaveKind, id, t);
    RelayedExactlyIfNew(s, m, now);
    RefutesExactly(s, m, now);
    assert Handle(s, m, now) == LeaveIntent(s, id, t, false, now);
  }

  /** What becomes of the member where all that was noted is older: one not known is
      expected to join, a live one is alive, and a failed one stays failed, whereas the
      leave itself would have made it leaving, or left. */
  lemma MaskedMember(s: Serf, peer: Serf, ms: seq<Msg>, id: Id, now: nat, later: nat)
    requires Indexed(s) && Indexed(peer) && Order(ms, Intents(LocalState(peer)))
    requires id in peer.states && peer.states[id].Status().Leaving?
    requires LastTime(s, id) < peer.states[id].statusTime && !(id == s.localId && s.life.Running?)
    ensures var t := peer.states[id].statusTime;
            var s' := Merge(s, LocalState(peer), ms, now);
            var direct := LeaveIntent(s, id, t, false, later).serf;
            if id !in s.states then
              && id !in s'.states && id in s'.intents && s'.intents[id] == Intent(JoinKind, t, now)
              && id in direct.intents && direct.intents[id] == Intent(LeaveKind, t, later)
            else
              && id in s'.states && s'.states[id].statusTime == t
              && s'.states[id].Status() == (if s.states[id].leaveTime.None? then Alive else s.states[id].Status())
              && id in direct.states && direct.states[id].statusTime == t
              && direct.states[id].Status() == (if s.states[id].leaveTime.None? then Leaving else Left)
  {
    ExchangeMasksLeave(s, peer, ms, id, now, later);
    if id in s.states { assert WellFormed(id, s.states[id]); }
    var x := SlotOf(Merge(s, LocalState(peer), ms, now), id);
    var y := SlotAfter(SlotOf(s, id), false, Msg(JoinKind, id, peer.states[id].statusTime), now);
    assert x.state == y.state && x.intent == y.intent;
    DirectLeave(s, id, peer.states[id].statusTime, later);
  }

  lemma DirectLeave(s: Serf, id: Id, t: nat, now: nat)
    requires LastTime(s, id) < t && !(id == s.localId && s.life.Running?)
    requires id in s.states ==> WellFormed(id, s.states[id])
    ensures var direct := LeaveIntent(s, id, t, false, now).serf;
            if id !in s.states then id in direct.intents && direct.intents[id] == Intent(LeaveKind, t, now)
            else
              && id in direct.states && direct.states[id].statusTime == t
              && direct.states[id].Status() == (if s.states[id].leaveTime.None? then Leaving else Left)
  {
  }

  // ----- Two nodes split over a member -----

  /** Both know the member at the same time, one as alive and one as leaving. */
  ghost predicate Split(a: Serf, b: Serf, id: Id, t: nat) {
    && Indexed(a) && id in a.states && a.states[id].Status().Alive? && a.states[id].statusTime == t
    && Indexed(b) && id in b.states && b.states[id].Status().Leaving? && b.states[id].statusTime == t
  }

  /** A peer's live entry that is not newer leaves a live member's slot as it is. */
  lemma OlderEntryChangesNothing(s: Serf, peer: Serf, ms: seq<Msg>, id: Id, now: nat)
    requires Indexed(s) && Indexed(peer) && Order(ms, Intents(LocalState(peer)))
    requires id in s.states && id in peer.states && peer.states[id].leaveTime.None?
    requires peer.states[id].statusTime <= s.states[id].statusTime
    ensures var s' := Merge(s, LocalState(peer), ms, now);
            Indexed(s') && id in s'.states && s'.states[id] == s.states[id]
  {
    SentAsJoin(peer, id);
    MergedSlot(s, LocalState(peer), ms, Msg(JoinKind, id, peer.states[id].statusTime), now);
    MergeSettles(s, LocalState(peer), ms, now);
    var s' := Merge(s, LocalState(peer), ms, now);
    assert SlotOf(s', id).state == SlotOf(s, id).state;
  }

  /** An exchange both ways, between a node that holds a member as alive and a peer that
      holds it as leaving since later, splits the two over it. */
  lemma ExchangeSplits(s: Serf, peer: Serf, ms: seq<Msg>, ms': seq<Msg>, id: Id, now: nat, there: nat)
    requires Indexed(s) && Indexed(peer)
    requires Order(ms, Intents(LocalState(peer))) && Order(ms', Intents(LocalState(s)))
    requires id in s.states && s.states[id].Status().Alive?
    requires id in peer.states && peer.states[id].Status().Leaving?
    requires s.states[id].statusTime < peer.states[id].statusTime
    ensures var s' := Merge(s, LocalState(peer), ms, now);
            var peer' := Merge(peer, LocalState(s), ms', there);
            Split(s', peer', id, peer.states[id].statusTime)
  {
    assert WellFormed(id, s.states[id]) && WellFormed(id, peer.states[id]);
    OlderEntryChangesNothing(peer, s, ms', id, there);
    ExchangeMasksLeave(s, peer, ms, id, now, now);
    MergeSettles(s, LocalState(peer), ms, now);
    assert SlotOf(Merge(s, LocalState(peer), ms, now), id).state.Some?;
  }

  /** One of the two nodes merges the state of the other. */
  datatype Pull = Pull(first: bool, ms: seq<Msg>, now: nat)

  ghost predicate Possible(a: Serf, b: Serf, p: Pull) {
    Order(p.ms, Intents(LocalState(if p.first then b else a)))
  }

  function AfterPull(a: Serf, b: Serf, p: Pull): (Serf, Serf) {
    if p.first then (Merge(a, LocalState(b), p.ms, p.now), b) else (a, Merge(b, LocalState(a), p.ms, p.now))
  }

  ghost predicate AllPossible(a: Serf, b: Serf, pulls: seq<Pull>)
    decreases |pulls|
  {
    pulls == [] ||
    (Possible(a, b, pulls[0]) && var (a', b') := AfterPull(a, b, pulls[0]); AllPossible(a', b', pulls[1..]))
  }

  function AfterPulls(a: Serf, b: Serf, pulls: seq<Pull>): (Serf, Serf)
    decreases |pulls|
  {
    if pulls == [] then (a, b) else var (a', b') := AfterPull(a, b, pulls[0]); AfterPulls(a', b', pulls[1..])
  }

  lemma PullKeepsSplit(a: Serf, b: Serf, p: Pull, id: Id, t: nat)
    requires Split(a, b, id, t) && Possible(a, b, p)
    ensures var (a', b') := AfterPull(a, b, p);
            Split(a', b', id, t) && a'.states[id] == a.states[id] && b'.states[id] == b.states[id]
  {
    assert WellFormed(id, a.states[id]) && WellFormed(id, b.states[id]);
    if p.first {
      OlderEntryChangesNothing(a, b, p.ms, id, p.now);
    } else {
      OlderEntryChangesNothing(b, a, p.ms, id, p.now);
    }
  }

  /** The split lasts: however often the two exchange their states, in either direction,
      neither changes its entry, and the leave itself no longer reaches the one that holds
      the member as alive. */
  lemma {:induction false} SplitLasts(a: Serf, b: Serf, pulls: seq<Pull>, id: Id, t: nat, later: nat)
    requires Split(a, b, id, t) && AllPossible(a, b, pulls)
    ensures var (a', b') := AfterPulls(a, b, pulls);
            && Split(a', b', id, t) && a'.states[id] == a.states[id] && b'.states[id] == b.states[id]
            && var o := LeaveIntent(a', id, t, false, later); !o.rebroadcast && o.serf.states == a'.states
    decreases |pulls|
  {
    if pulls == [] {
      OldLeaveIsDropped(a, id, t, later);
    } else {
      PullKeepsSplit(a, b, pulls[0], id, t);
      var (a', b') := AfterPull(a, b, pulls[0]);
      SplitLasts(a', b', pulls[1..], id, t, later);
    }
  }

  // ----- Reachable cases -----

  /** A node that has heard of a member from memberlist. */
  function HeardOf(localId: Id, versions: Versions, x: Node): Serf {
    Membership.Run(Fresh(localId, versions, 0), [NodeJoins(x, Some(map[]))])
  }

  /** One that has heard of its leave, too. */
  function HeardLeaving(localId: Id, versions: Versions, x: Node, now: nat): Serf {
    Membership.Run(Fresh(localId, versions, 0), [NodeJoins(x, Some(map[])), LeaveArrives(x.id, 1, false, now)])
  }

  /** And one that memberlist has then told that it is down. */
  function HeardGone(localId: Id, versions: Versions, x: Node, now: nat): Serf {
    Membership.Run(Fresh(localId, versions, 0),
                   [NodeJoins(x, Some(map[])), LeaveArrives(x.id, 1, false, now), NodeLeaves(x.id, now)])
  }

  /** One exchange between the first two masks the leave. */
  lemma MaskedInOneExchange(here: Id, there: Id, versions: Versions, x: Node, ms: seq<Msg>, now: nat, later: nat)
    requires x.id != here && x.id != there
    requires Order(ms, Intents(LocalState(HeardLeaving(there, versions, x, now))))
    ensures var s := HeardOf(here, versions, x);
            var peer := HeardLeaving(there, versions, x, now);
            var s' := Merge(s, LocalState(peer), ms, now);
            && x.id in peer.states && peer.states[x.id].Status().Leaving?
            && x.id in s'.states && s'.states[x.id].Status().Alive? && s'.states[x.id].statusTime == 1
            && !LeaveIntent(s', x.id, 1, false, later).rebroadcast
  {
    HeardOfIt(here, versions, x);
    HeardOfItsLeave(there, versions, x, now);
    ExchangeMasksLeave(HeardOf(here, versions, x), HeardLeaving(there, versions, x, now), ms, x.id, now, later);
    MaskedMember(HeardOf(here, versions, x), HeardLeaving(there, versions, x, now), ms, x.id, now, later);
  }

  /** A node that merges the state of one that takes it for gone refutes each time. */
  lemma RefutedAgainAndAgain(me: Node, there: Id, versions: Versions, ms: seq<Msg>, ms': seq<Msg>, now: nat, later: nat)
    requires me.id != there
    requires Order(ms, Intents(LocalState(HeardGone(there, versions, me, now))))
    requires Order(ms', Intents(LocalState(HeardGone(there, versions, me, now))))
    ensures var s := HeardOf(me.id, versions, me);
            var peer := HeardGone(there, versions, me, now);
            var s' := Merge(s, LocalState(peer), ms, now);
            && |MergeRefutations(s, LocalState(peer), ms, now)| == 1
            && |MergeRefutations(s', LocalState(peer), ms', later)| == 1
  {
    var (s, r) := (HeardOf(me.id, versions, me), LocalState(HeardGone(there, versions, me, now)));
    HeardOfIt(me.id, versions, me);
    HeardItGone(there, versions, me, now);
    assert ListedAsLeft(s, r);
    MergeRefutesIffListed(s, r, ms, now);
    MergeIsIdempotent(s, r, ms, ms', now, later);
    MergeSettles(s, r, ms, now);
    MergeRefutesIffListed(Merge(s, r, ms, now), r, ms', later);
  }

  lemma HeardOfIt(localId: Id, versions: Versions, x: Node)
    ensures var s := HeardOf(localId, versions, x);
            && Indexed(s) && s.localId == localId && s.life.Running?
            && x.id in s.states && s.states[x.id].Status().Alive?
            && s.states[x.id].statusTime == 0 && s.states[x.id].leaveTime.None?
  {
    RunOfOne(Fresh(localId, versions, 0), NodeJoins(x, Some(map[])));
    EveryReachableStateIsSound(localId, versions, 0, [NodeJoins(x, Some(map[]))]);
  }

  lemma HeardOfItsLeave(localId: Id, versions: Versions, x: Node, now: nat)
    requires x.id != localId
    ensures var s := HeardLeaving(localId, versions, x, now);
            && Indexed(s) && s.localId == localId
            && x.id in s.states && s.states[x.id].Status().Leaving? && s.states[x.id].statusTime == 1
            && s == LeaveIntent(HeardOf(localId, versions, x), x.id, 1, false, now).serf
  {
    var (joins, leaves) := (NodeJoins(x, Some(map[])), LeaveArrives(x.id, 1, false, now));
    HeardOfIt(localId, versions, x);
    RunOfOne(Fresh(localId, versions, 0), joins);
    RunOfTwo(Fresh(localId, versions, 0), joins, leaves);
    EveryReachableStateIsSound(localId, versions, 0, [joins, leaves]);
  }

  lemma HeardItGone(localId: Id, versions: Versions, x: Node, now: nat)
    requires x.id != localId
    ensures var s := HeardGone(localId, versions, x, now);
            var r := LocalState(s);
            && Indexed(s) && s.localId == localId
            && x.id in s.states && s.states[x.id].Status().Left? && s.states[x.id].statusTime == 1
            && x.id in r.left && x.id in r.statusTimes && r.statusTimes[x.id] == 1
  {
    var (joins, leaves, gone) := (NodeJoins(x, Some(map[])), LeaveArrives(x.id, 1, false, now), NodeLeaves(x.id, now));
    HeardOfItsLeave(localId, versions, x, now);
    RunOfTwo(Fresh(localId, versions, 0), joins, leaves);
    RunOfThree(Fresh(localId, versions, 0), joins, leaves, gone);
    EveryReachableStateIsSound(localId, versions, 0, [joins, leaves, gone]);
    var s := HeardLeaving(localId, versions, x, now);
    assert WellFormed(x.id, s.states[x.id]);
    var s' := NodeLeave(s, x.id, now);
    assert s'.left[|s.left|] in s'.left && s'.left[|s.left|].Id() == x.id;
  }

  lemma RunOfOne(s: Serf, a: Action)
    ensures Membership.Run(s, [a]) == Apply(s, a)
  {
    assert [a][1..] == [];
  }

  lemma RunOfTwo(s: Serf, a: Action, b: Action)
    ensures Membership.Run(s, [a, b]) == Apply(Apply(s, a), b)
  {
    assert [a, b][1..] == [b];
    RunOfOne(Apply(s, a), b);
  }

  lemma RunOfThree(s: Serf, a: Action, b: Action, c: Action)
    ensures Membership.Run(s, [a, b, c]) == Apply(Apply(Apply(s, a), b), c)
  {
    assert [a, b, c][1..] == [b, c];
    RunOfTwo(Apply(s, a), b, c);
  }
}
