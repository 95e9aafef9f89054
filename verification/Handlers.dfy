/** A node with its handlers, working in place. Each handler does to the fields
    what its function in `Membership` does to the state. */
module Handlers {
  import opened Types
  import opened Membership
  import opened MembershipInvariants
  import opened Stamps
  import opened Lifecycle
  import Gossip
  import PushPull

  datatype LeaveResult = AlreadyLeft | BadState | Started(time: nat, announce: bool)

  class SerfCore {
    const localId: Id
    const versions: Versions
    var life: SerfState
    var clock: nat
    var states: map<Id, MemberState>
    var intents: map<Id, Intent>
    var left: seq<MemberState>
    var failed: seq<MemberState>
    var events: seq<MemberEvent>

    ghost function View(): Serf
      reads this
    {
      Serf(localId, versions, life, clock, states, intents, left, failed, events)
    }

    ghost predicate Valid()
      reads this
    {
      Sound(View())
    }

    constructor (localId: Id, versions: Versions, oldClock: nat)
      ensures Valid() && View() == Fresh(localId, versions, oldClock)
    {
      this.localId, this.versions, life := localId, versions, Running;
      clock := if oldClock < 1 then 1 else oldClock + 1;
      states, intents, left, failed, events := map[], map[], [], [], [];
      new;
      EveryReachableStateIsSound(localId, versions, oldClock, []);
    }

    method WitnessTime(t: nat)
      modifies `clock
      ensures View() == Witness(old(View()), t)
    {
      if t >= clock { clock := t + 1; }
    }

    // ----- What memberlist reports -----

    method HandleNodeJoin(node: Node, tags: Option<Tags>)
      modifies `states, `left, `failed, `events
      ensures View() == NodeJoin(old(View()), node, tags)
      ensures tags.Some? && node.id in old(states) ==>
                JoinedAs(old(View()), View(), node, tags.value, Alive, old(states[node.id].statusTime),
                         old(states[node.id].member.versions))
    {
      if tags.None? { return; }
      var oldStatus := Nothing;
      var ms: MemberState;
      if node.id in states {
        var was := states[node.id];
        oldStatus := was.Status();
        ms := MemberState(Member(node, tags.value, Alive, was.member.versions), was.statusTime, None);
      } else {
        var status, statusTime := Alive, 0;
        if node.id in intents && intents[node.id].kind.JoinKind? {
          statusTime := intents[node.id].ltime;
        }
        if node.id in intents && intents[node.id].kind.LeaveKind? {
          statusTime := intents[node.id].ltime;
          status := Leaving;
        }
        ms := MemberState(Member(node, tags.value, status, versions), statusTime, None);
      }
      states := states[node.id := ms];
      if oldStatus.Failed? || oldStatus.Left? {
        failed := Retain(failed, node.id);
        left := Retain(left, node.id);
      }
      events := events + [MemberEvent(Joined, ms.member)];
    }

    method HandleNodeLeave(id: Id, now: nat)
      modifies `states, `left, `failed, `events
      ensures View() == NodeLeave(old(View()), id, now)
    {
      if id !in states { return; }
      var ms := states[id];
      match ms.Status() {
        case Leaving =>
          ms := ms.(member := ms.member.(status := Left), leaveTime := Some(now));
          left := left + [ms];
        case Alive =>
          ms := ms.(member := ms.member.(status := Failed), leaveTime := Some(now));
          failed := failed + [ms];
        case _ => return;
      }
      states := states[id := ms];
      var ty := if !ms.Status().Left? then Lost else Departed;
      events := events + [MemberEvent(ty, ms.member)];
    }

    method HandleNodeUpdate(node: Node, tags: Option<Tags>)
      modifies `states, `events
      ensures View() == NodeUpdate(old(View()), node, tags)
    {
      if tags.None? { return; }
      if node.id in states {
        var ms := states[node.id];
        ms := ms.(member := Member(node, tags.value, ms.Status(), V1));
        states := states[node.id := ms];
        events := events + [MemberEvent(Updated, ms.member)];
      }
    }

    // ----- Intents -----

    method Upsert(id: Id, kind: Kind, t: nat, now: nat) returns (newer: bool)
      modifies `intents
      ensures (intents, newer) == UpsertIntent(old(intents), id, kind, t, now)
    {
      if id in intents && t <= intents[id].ltime { return false; }
      intents := intents[id := Intent(kind, t, now)];
      return true;
    }

    /** Returns whether the message is to be gossiped on. */
    method HandleNodeJoinIntent(id: Id, t: nat, now: nat) returns (rebroadcast: bool)
      modifies `clock, `states, `intents
      ensures (View(), rebroadcast) == JoinIntent(old(View()), id, t, now)
    {
      WitnessTime(t);
      if id in states {
        var ms := states[id];
        if t <= ms.statusTime { return false; }
        ms := ms.(statusTime := t);
        if ms.Status().Leaving? { ms := ms.(member := ms.member.(status := Alive)); }
        states := states[id := ms];
        rebroadcast := true;
      } else {
        rebroadcast := Upsert(id, JoinKind, t, now);
      }
    }

    /** Takes a member out at once; `ms` is a copy of it. */
    method HandlePrune(ms: MemberState)
      modifies `states, `left, `events
      ensures View() == Prune(old(View()), ms)
    {
      if ms.Status().Leaving? || ms.Status().Left? { left := Retain(left, ms.Id()); }
      states := states - {ms.Id()};
      events := events + [MemberEvent(Reaped, ms.member)];
    }

    /** `refute` is the time of the join to be broadcast in answer. */
    method HandleNodeLeaveIntent(id: Id, t: nat, prune: bool, now: nat) returns (rebroadcast: bool, refute: Option<nat>)
      modifies `clock, `states, `intents, `left, `failed, `events
      ensures Outcome(View(), rebroadcast, refute) == LeaveIntent(old(View()), id, t, prune, now)
    {
      WitnessTime(t);
      refute := None;
      if id !in states {
        rebroadcast := Upsert(id, LeaveKind, t, now);
        return;
      }
      var ms := states[id];
      if t <= ms.statusTime { return false, None; }
      if id == localId && life.Running? { return false, Some(clock); }
      rebroadcast := LeaveTransition(id, t, prune, now);
    }

    /** The state transition of a known member on a newer leave intent. */
    method LeaveTransition(id: Id, t: nat, prune: bool, now: nat) returns (rebroadcast: bool)
      requires id in states && t > states[id].statusTime && t < clock && !(id == localId && life.Running?)
      modifies `states, `left, `failed, `events
      ensures Outcome(View(), rebroadcast, None) == LeaveIntent(old(View()), id, t, prune, now)
    {
      var ms := states[id].(statusTime := t);
      match ms.Status() {
        case Nothing =>
          states := states[id := ms];
          return false;
        case Failed =>
          ms := ms.(member := ms.member.(status := Left));
          states := states[id := ms];
          failed := Retain(failed, ms.Id());
          left := left + [ms];
          events := events + [MemberEvent(Departed, ms.member)];
        case Left =>
          states := states[id := ms];
        case _ =>
          ms := ms.(member := ms.member.(status := Leaving));
          states := states[id := ms];
      }
      if prune { HandlePrune(ms); }
      return true;
    }

    // ----- The reaper -----

    /** The sweep of a side list, erasing each member that it takes out; what stays in
        the list is returned. */
    method ReapList(list: seq<MemberState>, now: nat, timeout: Member -> nat) returns (kept: seq<MemberState>)
      modifies `states, `events
      ensures kept == Sweep(list, 0, now, timeout).0
      ensures View() == Erase(old(View()), Sweep(list, 0, now, timeout).1)
    {
      kept := list;
      var n, i := |kept|, 0;
      while i < n
        invariant i <= n == |kept|
        invariant Sweep(kept, i, now, timeout).0 == Sweep(list, 0, now, timeout).0
        invariant Erase(View(), Sweep(kept, i, now, timeout).1) == Erase(old(View()), Sweep(list, 0, now, timeout).1)
      {
        var m := kept[i];
        if m.leaveTime.Some? && now - m.leaveTime.value <= timeout(m.member) {
          i := i + 1;
          continue;
        }
        ghost var rest := Sweep(SwapRemove(kept, i), i, now, timeout).1;
        assert ([m] + rest)[1..] == rest;
        kept := SwapRemove(kept, i);
        n := n - 1;
        states := states - {m.Id()};
        events := events + [MemberEvent(Reaped, m.member)];
      }
    }

    method ReapFailedMembers(now: nat, timeout: Member -> nat)
      modifies `states, `failed, `events
      ensures View() == ReapFailed(old(View()), now, timeout)
    {
      ghost var (kept, gone) := Sweep(failed, 0, now, timeout);
      EraseTouchesNoList(View(), gone, kept, left);
      failed := ReapList(failed, now, timeout);
    }

    method ReapLeftMembers(now: nat, timeout: Member -> nat)
      modifies `states, `left, `events
      ensures View() == ReapLeft(old(View()), now, timeout)
    {
      ghost var (kept, gone) := Sweep(left, 0, now, timeout);
      EraseTouchesNoList(View(), gone, failed, kept);
      left := ReapList(left, now, timeout);
    }

    method ReapRecentIntents(now: nat, timeout: nat)
      modifies `intents
      ensures View() == ReapIntents(old(View()), now, timeout)
    {
      intents := map id | id in intents && now - intents[id].wallTime <= timeout :: intents[id];
    }

    /** One tick of the reaper. */
    method Reap(now: nat, reconnect: Member -> nat, tombstone: Member -> nat, recentIntent: nat)
      modifies this
      ensures View() ==
              ReapIntents(ReapLeft(ReapFailed(old(View()), now, reconnect), now, tombstone), now, recentIntent)
    {
      ReapFailedMembers(now, reconnect);
      ReapLeftMembers(now, tombstone);
      ReapRecentIntents(now, recentIntent);
    }

    // ----- Announcing and leaving -----

    /** There is a member, other than the local one, that is alive. */
    ghost predicate OthersAlive()
      reads this
    {
      exists id :: id in states && states[id].Id() != localId && states[id].Status().Alive?
    }

    method HasAliveMembers() returns (found: bool)
      ensures found <==> OthersAlive()
    {
      var rest := states.Keys;
      while rest != {}
        invariant rest <= states.Keys
        invariant forall id :: id in states && id !in rest ==> states[id].Id() == localId || !states[id].Status().Alive?
        decreases rest
      {
        var id :| id in rest;
        rest := rest - {id};
        if states[id].Id() == localId { continue; }
        if states[id].Status().Alive? { return true; }
      }
      return false;
    }

    method AnnounceJoin(t: nat, now: nat)
      modifies `clock, `states, `intents
      ensures View() == BroadcastJoin(old(View()), t, now)
    {
      WitnessTime(t);
      var _ := HandleNodeJoinIntent(localId, t, now);
    }

    // ----- Any run of handlers -----

    /** Every handler does what its function says, and keeps the node sound. */
    method Step(a: Action)
      requires Valid()
      modifies this
      ensures Valid() && View() == Apply(old(View()), a)
    {
      StepKeepsSound(View(), a);
      match a
      case NodeJoins(node, tags) => HandleNodeJoin(node, tags);
      case NodeLeaves(id, now) => HandleNodeLeave(id, now);
      case NodeUpdates(node, tags) => HandleNodeUpdate(node, tags);
      case JoinArrives(id, t, now) => var _ := HandleNodeJoinIntent(id, t, now);
      case LeaveArrives(id, t, prune, now) => var _, _ := HandleNodeLeaveIntent(id, t, prune, now);
      case Announces(t, now) => AnnounceJoin(t, now);
      case ReapsFailed(now, timeout) => ReapFailedMembers(now, timeout);
      case ReapsLeft(now, timeout) => ReapLeftMembers(now, timeout);
      case ReapsIntents(now, limit) => ReapRecentIntents(now, limit);
      case Witnessing(t) => WitnessTime(t);
      case ChangesLife(l) => life := l;
    }

    /** A known member other than the local one is made to leave: it always takes. */
    method ForceLeave(id: Id, prune: bool, now: nat) returns (broadcast: bool)
      requires Valid()
      modifies this
      ensures Valid() && View() == LeaveIntent(old(View()), id, old(clock), prune, now).serf
      ensures id in old(states) && id != localId && prune ==>
                id !in states && !Mentions(failed, id) && !Mentions(left, id)
      ensures id in old(states) && id != localId && !prune ==>
                && id in states && states[id].statusTime == old(clock) && !Mentions(failed, id)
                && states[id].Status() == (if old(states[id].leaveTime).None? then Leaving else Left)
      ensures broadcast <==> OthersAlive()
    {
      if id in states && id != localId { ForcedLeaveTakesEffect(View(), [], id, prune, now); }
      Step(LeaveArrives(id, clock, prune, now));
      broadcast := HasAliveMembers();
    }

    /** The first half of a graceful leave, up to the broadcast. */
    method Leave(now: nat) returns (r: LeaveResult)
      requires Valid()
      modifies this
      ensures Valid()
      ensures r.AlreadyLeft? <==> old(life).Gone?
      ensures r.BadState? <==> old(life).Departing? || old(life).Shutdown?
      ensures !r.Started? ==> View() == old(View())
      ensures r.Started? ==> r.time == old(clock) && life.Departing? && clock == old(clock) + 1
      ensures r.Started? && localId in old(states) ==>
                && localId in states && states[localId].statusTime == r.time
                && states[localId].Status() == (if old(states[localId].leaveTime).None? then Leaving else Left)
      ensures r.Started? ==> (r.announce <==> OthersAlive())
    {
      match life {
        case Gone => return AlreadyLeft;
        case Departing => return BadState;
        case Shutdown => return BadState;
        case Running =>
      }
      Step(ChangesLife(Departing));
      var time := clock;
      ProcessLeave(now);
      var announce := HasAliveMembers();
      return Started(time, announce);
    }

    /** Takes a time for the leave and processes it locally. */
    method ProcessLeave(now: nat)
      requires Valid() && !life.Running?
      modifies this
      ensures Valid() && life == old(life) && clock == old(clock) + 1
      ensures localId in old(states) ==>
                && localId in states && states[localId].statusTime == old(clock)
                && states[localId].Status() == (if old(states[localId].leaveTime).None? then Leaving else Left)
    {
      var time := clock;
      LeaveRightAway(View(), now);
      Step(Witnessing(time));
      Step(LeaveArrives(localId, time, false, now));
    }

    /** The last step of it. */
    method FinishLeave()
      requires Valid()
      modifies this
      ensures Valid() && View() == old(View()).(life := if old(life).Shutdown? then Shutdown else Gone)
    {
      if !life.Shutdown? { Step(ChangesLife(Gone)); }
    }

    // ----- The state exchange -----

    /** The member part of `merge_remote_state`. Goes through the leaves and then the
        joins of the peer, each in no particular order; `ms` is the order taken.
        Returns the times of the refutations spawned on the way. */
    method MergeMembers(r: PushPull.Remote, now: nat) returns (refutes: seq<nat>, ghost ms: seq<Gossip.Msg>)
      requires Valid()
      modifies this
      ensures Valid()
      ensures PushPull.Order(ms, PushPull.Intents(r)) && View() == PushPull.Merge(old(View()), r, ms, now)
      ensures refutes == PushPull.MergeRefutations(old(View()), r, ms, now)
    {
      if r.time > 0 { Step(Witnessing(r.time - 1)); }
      assert View() == PushPull.Start(old(View()), r);
      refutes, ms := MergeIntents(r, now);
    }

    method MergeIntents(r: PushPull.Remote, now: nat) returns (refutes: seq<nat>, ghost ms: seq<Gossip.Msg>)
      requires Valid()
      modifies this
      ensures Valid()
      ensures PushPull.Order(ms, PushPull.Intents(r)) && View() == PushPull.HandleAll(old(View()), ms, now)
      ensures refutes == PushPull.Refutations(old(View()), ms, now)
    {
      refutes, ms := MergeLeaves(r, now);
      refutes, ms := MergeJoins(r, refutes, old(View()), ms, now);
      AllDone(r, ms);
      HandleAllKeepsSound(old(View()), ms, now);
    }

    method MergeLeaves(r: PushPull.Remote, now: nat) returns (refutes: seq<nat>, ghost ms: seq<Gossip.Msg>)
      modifies this
      ensures MergedSoFar(old(View()), r, refutes, ms, r.left * r.statusTimes.Keys, now)
    {
      refutes, ms := [], [];
      var rest := r.left;
      while rest != {}
        invariant rest <= r.left
        invariant MergedSoFar(old(View()), r, refutes, ms, (r.left - rest) * r.statusTimes.Keys, now)
        decreases rest
      {
        var node :| node in rest;
        ghost var done := (r.left - rest) * r.statusTimes.Keys;
        rest := rest - {node};
        if node in r.statusTimes {
          refutes, ms := MergeOne(r, node, refutes, old(View()), ms, done, now);
          assert done + {node} == (r.left - rest) * r.statusTimes.Keys;
        } else {
          assert done == (r.left - rest) * r.statusTimes.Keys;
        }
      }
    }

    method MergeJoins(r: PushPull.Remote, before: seq<nat>, ghost s: Serf, ghost leaves: seq<Gossip.Msg>, now: nat)
      returns (refutes: seq<nat>, ghost ms: seq<Gossip.Msg>)
      requires MergedSoFar(s, r, before, leaves, r.left * r.statusTimes.Keys, now)
      modifies this
      ensures MergedSoFar(s, r, refutes, ms, r.statusTimes.Keys, now)
    {
      refutes, ms := before, leaves;
      var rest := r.statusTimes.Keys;
      ghost var done := r.left * r.statusTimes.Keys;
      while rest != {}
        invariant Remaining(r, rest, done)
        invariant MergedSoFar(s, r, refutes, ms, done, now)
        decreases rest
      {
        var node :| node in rest;
        TakeOne(r, rest, done, node);
        rest := rest - {node};
        if node in r.left { continue; }
        refutes, ms := MergeOne(r, node, refutes, s, ms, done, now);
        done := done + {node};
      }
    }

    /** From the state `s` the intents `ms`, about the members of `done`, have led
        here and spawned `refutes`. */
    ghost predicate MergedSoFar(s: Serf, r: PushPull.Remote, refutes: seq<nat>, ms: seq<Gossip.Msg>,
                                done: set<Id>, now: nat)
      reads this
    {
      && PartDone(r, ms, done)
      && View() == PushPull.HandleAll(s, ms, now) && refutes == PushPull.Refutations(s, ms, now)
    }

    /** Merges the artificial intent about one member. */
    method MergeOne(r: PushPull.Remote, node: Id, before: seq<nat>, ghost s: Serf, ghost ms: seq<Gossip.Msg>,
                    ghost done: set<Id>, now: nat)
      returns (refutes: seq<nat>, ghost ms': seq<Gossip.Msg>)
      requires node in r.statusTimes && node !in done && MergedSoFar(s, r, before, ms, done, now)
      modifies this
      ensures MergedSoFar(s, r, refutes, ms', done + {node}, now)
    {
      ms' := ms + [PushPull.IntentFor(r, node)];
      OneMore(r, ms, done, node);
      MergesAs(s, ms, PushPull.IntentFor(r, node), now);
      var refute := HandleArtificial(r, node, now);
      refutes := before + if refute.Some? then [refute.value] else [];
    }

    method HandleArtificial(r: PushPull.Remote, node: Id, now: nat) returns (refute: Option<nat>)
      requires node in r.statusTimes
      modifies this
      ensures var o := Gossip.Handle(old(View()), PushPull.IntentFor(r, node), now);
              View() == o.serf && refute == o.refute
    {
      if node in r.left {
        var _, answer := HandleNodeLeaveIntent(node, r.statusTimes[node] + 1, false, now);
        refute := answer;
      } else {
        var _ := HandleNodeJoinIntent(node, r.statusTimes[node], now);
        refute := None;
      }
    }
  }

  lemma {:induction false} EraseTouchesNoList(s: Serf, gone: seq<MemberState>, failed: seq<MemberState>,
                                              left: seq<MemberState>)
    ensures Erase(s.(failed := failed, left := left), gone) == Erase(s, gone).(failed := failed, left := left)
    decreases |gone|
  {
    if gone == [] {
    } else {
      var s1 := Emit(s.(states := s.states - {gone[0].Id()}), Reaped, gone[0].member);
      EraseTouchesNoList(s1, gone[1..], failed, left);
    }
  }

  /** `ms` holds the intents about the members of `done`, each once. */
  ghost predicate PartDone(r: PushPull.Remote, ms: seq<Gossip.Msg>, done: set<Id>) {
    && done <= r.statusTimes.Keys
    && (forall k :: 0 <= k < |ms| ==> ms[k].id in done && ms[k] == PushPull.IntentFor(r, ms[k].id))
    && (forall id :: id in done ==> PushPull.IntentFor(r, id) in ms)
    && (forall i, j :: 0 <= i < j < |ms| ==> ms[i].id != ms[j].id)
  }

  /** The joins still to be merged are about the members of `rest` that have not left. */
  ghost predicate Remaining(r: PushPull.Remote, rest: set<Id>, done: set<Id>) {
    done + (rest - r.left) == r.statusTimes.Keys && (rest - r.left) !! done
  }

  lemma TakeOne(r: PushPull.Remote, rest: set<Id>, done: set<Id>, node: Id)
    requires Remaining(r, rest, done) && node in rest
    ensures if node in r.left then Remaining(r, rest - {node}, done)
            else node in r.statusTimes && node !in done && Remaining(r, rest - {node}, done + {node})
  {
    if node in r.left {
      assert rest - {node} - r.left == rest - r.left;
    } else {
      assert node in done + (rest - r.left);
      assert rest - {node} - r.left == rest - r.left - {node};
    }
  }

  lemma OneMore(r: PushPull.Remote, ms: seq<Gossip.Msg>, done: set<Id>, id: Id)
    requires PartDone(r, ms, done) && id in r.statusTimes && id !in done
    ensures PartDone(r, ms + [PushPull.IntentFor(r, id)], done + {id})
  {
  }

  lemma HandleKeepsSound(s: Serf, m: Gossip.Msg, now: nat)
    requires Sound(s)
    ensures Sound(Gossip.Handle(s, m, now).serf)
  {
    Gossip.HandleIsAStep(s, m, now);
    StepKeepsSound(s, Gossip.StepFor(m, now));
  }

  lemma {:induction false} HandleAllKeepsSound(s: Serf, ms: seq<Gossip.Msg>, now: nat)
    requires Sound(s)
    ensures Sound(PushPull.HandleAll(s, ms, now))
  {
    if ms == [] {
    } else {
      var before := ms[..|ms| - 1];
      HandleAllKeepsSound(s, before, now);
      HandleKeepsSound(PushPull.HandleAll(s, before, now), ms[|ms| - 1], now);
    }
  }

  lemma MergesAs(s: Serf, ms: seq<Gossip.Msg>, m: Gossip.Msg, now: nat)
    ensures var o := Gossip.Handle(PushPull.HandleAll(s, ms, now), m, now);
            && PushPull.HandleAll(s, ms + [m], now) == o.serf
            && PushPull.Refutations(s, ms + [m], now) == PushPull.Refutations(s, ms, now) + PushPull.Spawned(o)
  {
    assert (ms + [m])[..|ms|] == ms;
  }

  lemma AllDone(r: PushPull.Remote, ms: seq<Gossip.Msg>)
    requires PartDone(r, ms, r.statusTimes.Keys)
    ensures PushPull.Order(ms, PushPull.Intents(r))
  {
    forall m | m in ms ensures m in PushPull.Intents(r) {
      var k :| 0 <= k < |ms| && ms[k] == m;
      assert m.id in r.statusTimes;
    }
  }
}
