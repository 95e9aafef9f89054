/** When the exchange of states comes to rest, and what keeps it from doing so. */
module Settling {
  import opened Types
  import opened Membership
  import opened MembershipInvariants
  import Gossip
  import opened PushPull
  import opened Masking

  /** The clocks agree, and each node is done with all that the other would send. */
  ghost predicate AtRest(a: Serf, b: Serf) {
    && a.clock == b.clock
    && (forall m :: m in Intents(LocalState(b)) ==> Settled(a, m))
    && (forall m :: m in Intents(LocalState(a)) ==> Settled(b, m))
  }

  lemma RestingPullChangesNothing(a: Serf, b: Serf, p: Pull)
    requires AtRest(a, b) && Possible(a, b, p)
    ensures AfterPull(a, b, p) == (a, b)
  {
    if p.first {
      assert Start(a, LocalState(b)) == a;
      SettledAllChangeNothing(a, p.ms, p.now);
    } else {
      assert Start(b, LocalState(a)) == b;
      SettledAllChangeNothing(b, p.ms, p.now);
    }
  }

  /** Two nodes at rest stay as they are, clocks included, however often they exchange. */
  lemma {:induction false} RestLasts(a: Serf, b: Serf, pulls: seq<Pull>)
    requires AtRest(a, b) && AllPossible(a, b, pulls)
    ensures AfterPulls(a, b, pulls) == (a, b)
    decreases |pulls|
  {
    if pulls == [] {
    } else {
      RestingPullChangesNothing(a, b, pulls[0]);
      RestLasts(a, b, pulls[1..]);
    }
  }

  /** Two nodes are at rest exactly if a merge in either direction changes nothing. */
  lemma AtRestIffNothingChanges(a: Serf, b: Serf, ms: seq<Gossip.Msg>, ms': seq<Gossip.Msg>, now: nat)
    requires Indexed(a) && Indexed(b) && Order(ms, Intents(LocalState(b))) && Order(ms', Intents(LocalState(a)))
    ensures AtRest(a, b) <==> Merge(a, LocalState(b), ms, now) == a && Merge(b, LocalState(a), ms', now) == b
  {
    if AtRest(a, b) {
      RestingPullChangesNothing(a, b, Pull(true, ms, now));
      RestingPullChangesNothing(a, b, Pull(false, ms', now));
    } else {
      MergeSettles(a, LocalState(b), ms, now);
      MergeSettles(b, LocalState(a), ms', now);
    }
  }

  /** Two new nodes are at rest. */
  lemma NewNodesAreAtRest(here: Id, there: Id, versions: Versions)
    ensures AtRest(Fresh(here, versions, 0), Fresh(there, versions, 0))
  {
  }

  // ----- A member that has left at both -----

  ghost predicate HoldsAsLeft(s: Serf, id: Id) {
    Indexed(s) && id in s.states && s.states[id].Status().Left? && !(id == s.localId && s.life.Running?)
  }

  /** Merging the state of a peer that holds the member as left as well puts its time past
      the peer's. */
  lemma PullOutdoes(s: Serf, peer: Serf, ms: seq<Gossip.Msg>, id: Id, now: nat)
    requires HoldsAsLeft(s, id) && HoldsAsLeft(peer, id) && Order(ms, Intents(LocalState(peer)))
    ensures var s' := Merge(s, LocalState(peer), ms, now);
            var (t, other) := (s.states[id].statusTime, peer.states[id].statusTime);
            HoldsAsLeft(s', id) && s'.states[id].statusTime == (if t <= other then other + 1 else t)
  {
    var r := LocalState(peer);
    MergeBringsPeersView(s, peer, ms, id, now);
    MergeSettles(s, r, ms, now);
    StillListedAfterMerge(s, r, ms, now);
    assert SlotOf(Merge(s, r, ms, now), id).state.Some?;
  }

  /** So two nodes that share such a member are never at rest. */
  lemma SharedLeftMemberUnsettles(a: Serf, b: Serf, id: Id)
    requires HoldsAsLeft(a, id) && HoldsAsLeft(b, id)
    ensures !AtRest(a, b)
  {
    IdsAreTheStatus(a.left, Left, a.states);
    IdsAreTheStatus(b.left, Left, b.states);
    assert IntentFor(LocalState(b), id) in Intents(LocalState(b));
    assert IntentFor(LocalState(a), id) in Intents(LocalState(a));
  }

  predicate Alternate(pulls: seq<Pull>, first: bool)
    decreases |pulls|
  {
    pulls == [] || (pulls[0].first == first && Alternate(pulls[1..], !first))
  }

  function Later(a: Serf, b: Serf, id: Id): nat
    requires id in a.states && id in b.states
  {
    if a.states[id].statusTime < b.states[id].statusTime then b.states[id].statusTime else a.states[id].statusTime
  }

  /** Merging in turn, each merge puts the member's time up by one, without end; `first`
      says whose turn it is, and that one is not ahead. */
  lemma {:induction false} LeftMemberClimbs(a: Serf, b: Serf, pulls: seq<Pull>, first: bool, id: Id)
    requires HoldsAsLeft(a, id) && HoldsAsLeft(b, id) && AllPossible(a, b, pulls) && Alternate(pulls, first)
    requires if first then a.states[id].statusTime <= b.states[id].statusTime
             else b.states[id].statusTime <= a.states[id].statusTime
    ensures var (a', b') := AfterPulls(a, b, pulls);
            HoldsAsLeft(a', id) && HoldsAsLeft(b', id) && Later(a', b', id) == Later(a, b, id) + |pulls|
    decreases |pulls|
  {
    if pulls == [] {
    } else {
      var p := pulls[0];
      if first { PullOutdoes(a, b, p.ms, id, p.now); } else { PullOutdoes(b, a, p.ms, id, p.now); }
      var (a', b') := AfterPull(a, b, p);
      LeftMemberClimbs(a', b', pulls[1..], !first, id);
    }
  }

  /** A reachable case: two nodes that heard of a member, of its leave and of its end. */
  lemma BothHeardItGone(here: Id, there: Id, versions: Versions, x: Node, pulls: seq<Pull>, now: nat)
    requires x.id != here && x.id != there
    requires AllPossible(HeardGone(here, versions, x, now), HeardGone(there, versions, x, now), pulls)
    requires Alternate(pulls, true)
    ensures var (a, b) := AfterPulls(HeardGone(here, versions, x, now), HeardGone(there, versions, x, now), pulls);
            x.id in a.states && x.id in b.states && Later(a, b, x.id) == 1 + |pulls|
  {
    HeardItGone(here, versions, x, now);
    HeardItGone(there, versions, x, now);
    LeftMemberClimbs(HeardGone(here, versions, x, now), HeardGone(there, versions, x, now), pulls, true, x.id);
  }
}
