/** What every step of a node keeps: the two side lists index the member map,
    the member clock stays ahead of every recorded time, and the events sent so
    far are enough to rebuild the member map. */
module MembershipInvariants {
  import opened Types
  import opened Membership

  // ----- The side lists -----

  predicate Distinct(list: seq<MemberState>) {
    forall i, j :: 0 <= i < j < |list| ==> list[i].Id() != list[j].Id()
  }

  ghost predicate Mentions(list: seq<MemberState>, id: Id) {
    exists m :: m in list && m.Id() == id
  }

  /** `list` names, once each, exactly the members with this status, with their leave times. */
  ghost predicate Indexes(list: seq<MemberState>, status: Status, states: map<Id, MemberState>) {
    && Distinct(list)
    && (forall m :: m in list ==> Matches(m, status, states))
    && (forall id :: id in states && states[id].Status() == status ==> Mentions(list, id))
  }

  predicate Matches(m: MemberState, status: Status, states: map<Id, MemberState>) {
    m.Id() in states && states[m.Id()].Status() == status && states[m.Id()].leaveTime == m.leaveTime
  }

  predicate WellFormed(id: Id, ms: MemberState) {
    && ms.Id() == id
    && (ms.Status().Alive? || ms.Status().Leaving? || ms.Status().Left? || ms.Status().Failed?)
    && (ms.leaveTime.None? <==> ms.Status().Alive? || ms.Status().Leaving?)
  }

  ghost predicate Indexed(s: Serf) {
    && (forall id :: id in s.states ==> WellFormed(id, s.states[id]))
    && Indexes(s.failed, Failed, s.states)
    && Indexes(s.left, Left, s.states)
  }

  lemma {:induction false} RetainKeepsTheRest(list: seq<MemberState>, id: Id)
    ensures forall m :: m in Retain(list, id) <==> m in list && m.Id() != id
    ensures Distinct(list) ==> Distinct(Retain(list, id))
    ensures |Retain(list, id)| <= |list|
  {
    if list == [] {
    } else {
      RetainKeepsTheRest(list[1..], id);
      assert list == [list[0]] + list[1..];
      if Distinct(list) {
        assert Distinct(list[1..]);
        assert forall m :: m in list[1..] ==> m.Id() != list[0].Id();
      }
    }
  }

  /** Two maps list the same members under `status`. */
  ghost predicate SameUnder(status: Status, a: map<Id, MemberState>, b: map<Id, MemberState>, id: Id) {
    && ((id in a && a[id].Status() == status) <==> (id in b && b[id].Status() == status))
    && (id in a && a[id].Status() == status ==> a[id].leaveTime == b[id].leaveTime)
  }

  lemma IndexKept(list: seq<MemberState>, status: Status, a: map<Id, MemberState>, b: map<Id, MemberState>)
    requires Indexes(list, status, a)
    requires forall id :: id in a || id in b ==> SameUnder(status, a, b, id)
    ensures Indexes(list, status, b)
  {
    forall m | m in list ensures Matches(m, status, b) {
      assert Matches(m, status, a);
      assert SameUnder(status, a, b, m.Id());
    }
    forall id | id in b && b[id].Status() == status ensures Mentions(list, id) {
      assert SameUnder(status, a, b, id);
    }
  }

  lemma IndexPushed(list: seq<MemberState>, ms: MemberState, a: map<Id, MemberState>)
    requires Indexes(list, ms.Status(), a)
    requires ms.Id() in a ==> a[ms.Id()].Status() != ms.Status()
    ensures Indexes(list + [ms], ms.Status(), a[ms.Id() := ms])
  {
    var b := a[ms.Id() := ms];
    forall m | m in list + [ms] ensures Matches(m, ms.Status(), b) {
      assert m in list ==> Matches(m, ms.Status(), a);
    }
    forall i | 0 <= i < |list| ensures list[i].Id() != ms.Id() {
      assert Matches(list[i], ms.Status(), a);
    }
    forall id | id in b && b[id].Status() == ms.Status() ensures Mentions(list + [ms], id) {
      if id != ms.Id() {
        assert Mentions(list, id);
        var m :| m in list && m.Id() == id;
        assert m in list + [ms];
      } else {
        assert ms in list + [ms];
      }
    }
  }

  lemma IndexRetained(list: seq<MemberState>, status: Status, a: map<Id, MemberState>, b: map<Id, MemberState>,
                      gone: Id)
    requires Indexes(list, status, a)
    requires forall id :: (id in a || id in b) && id != gone ==> SameUnder(status, a, b, id)
    requires gone in b ==> b[gone].Status() != status
    ensures Indexes(Retain(list, gone), status, b)
  {
    RetainKeepsTheRest(list, gone);
    forall m | m in Retain(list, gone) ensures Matches(m, status, b) {
      assert Matches(m, status, a);
      assert SameUnder(status, a, b, m.Id());
    }
    forall id | id in b && b[id].Status() == status ensures Mentions(Retain(list, gone), id) {
      assert SameUnder(status, a, b, id);
      assert Mentions(list, id);
    }
  }

  lemma JoinKeepsIndex(s: Serf, node: Node, tags: Option<Tags>)
    requires Indexed(s)
    ensures Indexed(NodeJoin(s, node, tags))
  {
    var s' := NodeJoin(s, node, tags);
    if tags.Some? {
      assert s'.states == s.states[node.id := s'.states[node.id]] && WellFormed(node.id, s'.states[node.id]);
      if node.id in s.states && (s.states[node.id].Status().Failed? || s.states[node.id].Status().Left?) {
        IndexRetained(s.failed, Failed, s.states, s'.states, node.id);
        IndexRetained(s.left, Left, s.states, s'.states, node.id);
      } else {
        IndexKept(s.failed, Failed, s.states, s'.states);
        IndexKept(s.left, Left, s.states, s'.states);
      }
    }
  }

  lemma LeaveKeepsIndex(s: Serf, id: Id, now: nat)
    requires Indexed(s)
    ensures Indexed(NodeLeave(s, id, now))
  {
    if id in s.states {
      var s' := NodeLeave(s, id, now);
      if s.states[id].Status().Leaving? {
        IndexPushed(s.left, s'.states[id], s.states);
        IndexKept(s.failed, Failed, s.states, s'.states);
      } else if s.states[id].Status().Alive? {
        IndexPushed(s.failed, s'.states[id], s.states);
        IndexKept(s.left, Left, s.states, s'.states);
      }
    }
  }

  /** Replacing a member by one with the same status and leave time. */
  lemma RewriteKeepsIndex(s: Serf, ms: MemberState)
    requires Indexed(s) && ms.Id() in s.states && WellFormed(ms.Id(), ms)
    requires var was := s.states[ms.Id()];
             ms.leaveTime == was.leaveTime && (ms.Status() == was.Status() || ms.leaveTime.None?)
    ensures Indexed(s.(states := s.states[ms.Id() := ms]))
  {
    var b := s.states[ms.Id() := ms];
    IndexKept(s.failed, Failed, s.states, b);
    IndexKept(s.left, Left, s.states, b);
  }

  lemma PruneKeepsIndex(s: Serf, ms: MemberState)
    requires Indexed(s) && ms.Id() in s.states && s.states[ms.Id()] == ms
    requires ms.Status().Leaving? || ms.Status().Left?
    ensures Indexed(Prune(s, ms))
  {
    var b := s.states - {ms.Id()};
    IndexRetained(s.left, Left, s.states, b, ms.Id());
    IndexKept(s.failed, Failed, s.states, b);
  }

  /** A failed member departs. */
  lemma DepartKeepsIndex(s: Serf, ms: MemberState)
    requires Indexed(s) && ms.Id() in s.states && WellFormed(ms.Id(), ms)
    requires s.states[ms.Id()].Status().Failed? && ms.Status().Left?
    ensures Indexed(s.(states := s.states[ms.Id() := ms], failed := Retain(s.failed, ms.Id()), left := s.left + [ms]))
  {
    IndexPushed(s.left, ms, s.states);
    IndexRetained(s.failed, Failed, s.states, s.states[ms.Id() := ms], ms.Id());
  }

  lemma LeaveIntentKeepsIndex(s0: Serf, id: Id, t: nat, prune: bool, now: nat)
    requires Indexed(s0)
    ensures Indexed(LeaveIntent(s0, id, t, prune, now).serf)
  {
    var s := Witness(s0, t);
    if id in s.states && t > s.states[id].statusTime && !(id == s.localId && s.life.Running?) {
      var was := s.states[id].(statusTime := t);
      if was.Status().Failed? {
        var ms := was.(member := was.member.(status := Left));
        DepartKeepsIndex(s, ms);
        var left := s.(states := s.states[id := ms], failed := Retain(s.failed, id), left := s.left + [ms]);
        var s' := Emit(left, Departed, ms.member);
        if prune { PruneKeepsIndex(s', ms); }
      } else {
        var ms := if was.Status().Left? then was else was.(member := was.member.(status := Leaving));
        RewriteKeepsIndex(s, ms);
        if prune { PruneKeepsIndex(s.(states := s.states[id := ms]), ms); }
      }
    }
  }

  // ----- The reaper -----

  lemma {:induction false} SweepTakesTheExpired(list: seq<MemberState>, i: nat, now: nat, timeout: Member -> nat)
    requires i <= |list|
    requires forall k :: 0 <= k < i ==> !Expired(list[k], now, timeout)
    ensures var (kept, gone) := Sweep(list, i, now, timeout);
            && multiset(kept) + multiset(gone) == multiset(list)
            && (forall m :: m in kept ==> !Expired(m, now, timeout))
            && (forall m :: m in gone ==> Expired(m, now, timeout))
    decreases |list| - i
  {
    if i == |list| {
    } else if !Expired(list[i], now, timeout) {
      SweepTakesTheExpired(list, i + 1, now, timeout);
    } else {
      SwapRemoveTakesOne(list, i);
      SweepTakesTheExpired(SwapRemove(list, i), i, now, timeout);
      var (kept, gone) := Sweep(SwapRemove(list, i), i, now, timeout);
      assert multiset([list[i]] + gone) == multiset{list[i]} + multiset(gone);
    }
  }

  lemma SwapRemoveTakesOne(list: seq<MemberState>, i: nat)
    requires i < |list|
    ensures multiset(SwapRemove(list, i)) + multiset{list[i]} == multiset(list)
    ensures forall k :: 0 <= k < i ==> SwapRemove(list, i)[k] == list[k]
  {
    var swapped := list[i := list[|list| - 1]];
    var n := |list| - 1;
    assert list == list[..n] + [list[n]];
    assert swapped == swapped[..n] + [swapped[n]];
    assert multiset(swapped) == multiset(list) - multiset{list[i]} + multiset{list[n]};
  }

  /** Distinctness, said of multisets so that it survives reordering. */
  lemma DistinctByCount(list: seq<MemberState>, kept: seq<MemberState>, gone: seq<MemberState>)
    requires Distinct(list) && multiset(kept) + multiset(gone) == multiset(list)
    ensures Distinct(kept) && Distinct(gone)
    ensures forall m, m' :: m in kept && m' in gone ==> m.Id() != m'.Id()
    ensures forall m :: m in list <==> m in kept || m in gone
  {
    forall m ensures m in list <==> m in kept || m in gone {
      assert m in multiset(list) <==> m in multiset(kept) || m in multiset(gone);
    }
    AtMostOnce(list);
    assert forall m :: multiset(list)[m] == multiset(kept)[m] + multiset(gone)[m] <= 1;
    forall i, j | 0 <= i < j < |kept| ensures kept[i].Id() != kept[j].Id() {
      assert kept[i] in list && kept[j] in list;
      if kept[i] == kept[j] { TwiceCountsTwo(kept, i, j); }
    }
    forall i, j | 0 <= i < j < |gone| ensures gone[i].Id() != gone[j].Id() {
      assert gone[i] in list && gone[j] in list;
      if gone[i] == gone[j] { TwiceCountsTwo(gone, i, j); }
    }
    forall m, m' | m in kept && m' in gone ensures m.Id() != m'.Id() {
      assert m in list && m' in list;
      assert m in multiset(kept) && m' in multiset(gone);
    }
  }

  lemma TwiceCountsTwo(list: seq<MemberState>, i: nat, j: nat)
    requires i < j < |list| && list[i] == list[j]
    ensures multiset(list)[list[i]] >= 2
  {
    assert list == list[..j] + [list[j]] + list[j + 1..];
    assert list[i] in list[..j];
  }

  lemma {:induction false} AtMostOnce(list: seq<MemberState>)
    requires Distinct(list)
    ensures forall m :: multiset(list)[m] <= 1
    ensures forall m, m' :: m in list && m' in list && m.Id() == m'.Id() ==> m == m'
  {
    if list == [] {
    } else {
      AtMostOnce(list[1..]);
      assert list == [list[0]] + list[1..];
      assert list[0] !in multiset(list[1..]);
    }
  }

  /** Erasing a list of members takes out exactly their ids and reports each once. */
  lemma {:induction false} EraseTakesIds(s: Serf, gone: seq<MemberState>)
    ensures var s' := Erase(s, gone);
            && (forall id :: id in s'.states <==> id in s.states && !Mentions(gone, id))
            && (forall id :: id in s'.states ==> s'.states[id] == s.states[id])
            && s'.events == s.events + seq(|gone|, i requires 0 <= i < |gone| => MemberEvent(Reaped, gone[i].member))
            && s' == s.(states := s'.states, events := s'.events)
    decreases |gone|
  {
    if gone == [] {
    } else {
      var s1 := Emit(s.(states := s.states - {gone[0].Id()}), Reaped, gone[0].member);
      EraseTakesIds(s1, gone[1..]);
      assert gone == [gone[0]] + gone[1..];
      forall id ensures Mentions(gone, id) <==> id == gone[0].Id() || Mentions(gone[1..], id) {
        assert gone[0] in gone;
        if Mentions(gone[1..], id) { var m :| m in gone[1..] && m.Id() == id; assert m in gone; }
      }
      assert s1.events == s.events + [MemberEvent(Reaped, gone[0].member)];
      assert Erase(s, gone).events ==
        s.events + seq(|gone|, i requires 0 <= i < |gone| => MemberEvent(Reaped, gone[i].member));
    }
  }

  /** An index split in two: the part kept indexes the members without the part gone. */
  lemma IndexSplit(list: seq<MemberState>, kept: seq<MemberState>, gone: seq<MemberState>, status: Status,
                   a: map<Id, MemberState>, b: map<Id, MemberState>)
    requires Indexes(list, status, a) && multiset(kept) + multiset(gone) == multiset(list)
    requires forall id :: id in b <==> id in a && !Mentions(gone, id)
    requires forall id :: id in b ==> b[id] == a[id]
    ensures Indexes(kept, status, b)
    ensures forall id :: Mentions(gone, id) ==> id in a && a[id].Status() == status
  {
    DistinctByCount(list, kept, gone);
    forall id | Mentions(gone, id) ensures id in a && a[id].Status() == status {
      var m :| m in gone && m.Id() == id;
      assert Matches(m, status, a);
    }
    forall m | m in kept ensures Matches(m, status, b) {
      assert Matches(m, status, a);
    }
    forall id | id in b && b[id].Status() == status ensures Mentions(kept, id) {
      assert Mentions(list, id);
      var m :| m in list && m.Id() == id;
      assert m in kept;
    }
  }

  lemma ReapFailedKeepsIndex(s: Serf, now: nat, timeout: Member -> nat)
    requires Indexed(s)
    ensures Indexed(ReapFailed(s, now, timeout))
  {
    var (kept, gone) := Sweep(s.failed, 0, now, timeout);
    SweepTakesTheExpired(s.failed, 0, now, timeout);
    EraseTakesIds(s.(failed := kept), gone);
    var b := Erase(s.(failed := kept), gone).states;
    IndexSplit(s.failed, kept, gone, Failed, s.states, b);
    IndexKept(s.left, Left, s.states, b);
  }

  lemma ReapLeftKeepsIndex(s: Serf, now: nat, timeout: Member -> nat)
    requires Indexed(s)
    ensures Indexed(ReapLeft(s, now, timeout))
  {
    var (kept, gone) := Sweep(s.left, 0, now, timeout);
    SweepTakesTheExpired(s.left, 0, now, timeout);
    EraseTakesIds(s.(left := kept), gone);
    var b := Erase(s.(left := kept), gone).states;
    IndexSplit(s.left, kept, gone, Left, s.states, b);
    IndexKept(s.failed, Failed, s.states, b);
  }

  /** The reaper, on any per-member timeout: the entries that go are the expired
      ones, the rest stay, and their members are erased and reported once each. */
  lemma ReaperTakesExactlyTheExpired(s: Serf, failing: bool, now: nat, timeout: Member -> nat)
    requires Indexed(s)
    ensures var list := if failing then s.failed else s.left;
            var s' := if failing then ReapFailed(s, now, timeout) else ReapLeft(s, now, timeout);
            var (kept, gone) := Sweep(list, 0, now, timeout);
            && s' == (if failing then s.(failed := kept) else s.(left := kept))
                     .(states := s'.states, events := s'.events)
            && multiset(kept) + multiset(gone) == multiset(list)
            && (forall m :: m in kept <==> m in list && !Expired(m, now, timeout))
            && (forall m :: m in gone <==> m in list && Expired(m, now, timeout))
            && (forall id :: id in s.states && id !in s'.states <==> Mentions(gone, id))
            && (forall id :: id in s'.states ==> id in s.states && s'.states[id] == s.states[id])
            && s'.events == s.events + seq(|gone|, i requires 0 <= i < |gone| => MemberEvent(Reaped, gone[i].member))
  {
    var list := if failing then s.failed else s.left;
    var (kept, gone) := Sweep(list, 0, now, timeout);
    SweepTakesTheExpired(list, 0, now, timeout);
    DistinctByCount(list, kept, gone);
    EraseTakesIds(if failing then s.(failed := kept) else s.(left := kept), gone);
    forall id | Mentions(gone, id) ensures id in s.states {
      var m :| m in gone && m.Id() == id;
      assert Matches(m, if failing then Failed else Left, s.states);
    }
  }

  lemma ListedMemberIsReapedIffExpired(s: Serf, failing: bool, m: MemberState, now: nat, timeout: Member -> nat)
    requires Indexed(s) && m in (if failing then s.failed else s.left)
    ensures var s' := if failing then ReapFailed(s, now, timeout) else ReapLeft(s, now, timeout);
            m.Id() in s'.states <==> !Expired(m, now, timeout)
  {
    var list := if failing then s.failed else s.left;
    var (kept, gone) := Sweep(list, 0, now, timeout);
    SweepTakesTheExpired(list, 0, now, timeout);
    DistinctByCount(list, kept, gone);
    EraseTakesIds(if failing then s.(failed := kept) else s.(left := kept), gone);
    AtMostOnce(list);
    assert Matches(m, if failing then Failed else Left, s.states);
    assert Mentions(gone, m.Id()) <==> m in gone;
  }

  /** A member that goes down at `now` is erased by the reaper exactly when it has
      been away longer than its timeout. */
  lemma DownMemberIsReapedOnceExpired(s: Serf, id: Id, now: nat, later: nat, timeout: Member -> nat)
    requires Indexed(s) && id in s.states && s.states[id].leaveTime.None?
    ensures var s1 := NodeLeave(s, id, now);
            var s2 :=
              if s.states[id].Status().Alive? then ReapFailed(s1, later, timeout) else ReapLeft(s1, later, timeout);
            id in s2.states <==> later - now <= timeout(s1.states[id].member)
  {
    assert WellFormed(id, s.states[id]);
    var s1 := NodeLeave(s, id, now);
    LeaveKeepsIndex(s, id, now);
    ListedMemberIsReapedIffExpired(s1, s.states[id].Status().Alive?, s1.states[id], later, timeout);
  }

  lemma StepKeepsIndex(s: Serf, a: Action)
    requires Indexed(s)
    ensures Indexed(Apply(s, a))
  {
    match a
    case NodeJoins(node, tags) => JoinKeepsIndex(s, node, tags);
    case NodeLeaves(id, now) => LeaveKeepsIndex(s, id, now);
    case NodeUpdates(node, tags) =>
      if tags.Some? && node.id in s.states { RewriteKeepsIndex(s, NodeUpdate(s, node, tags).states[node.id]); }
    case JoinArrives(id, t, now) => JoinIntentKeepsIndex(s, id, t, now);
    case Announces(t, now) => JoinIntentKeepsIndex(Witness(s, t), s.localId, t, now);
    case LeaveArrives(id, t, prune, now) => LeaveIntentKeepsIndex(s, id, t, prune, now);
    case ReapsFailed(now, timeout) => ReapFailedKeepsIndex(s, now, timeout);
    case ReapsLeft(now, timeout) => ReapLeftKeepsIndex(s, now, timeout);
    case _ =>
  }

  lemma JoinIntentKeepsIndex(s: Serf, id: Id, t: nat, now: nat)
    requires Indexed(s)
    ensures Indexed(JoinIntent(s, id, t, now).0)
  {
    if id in s.states && t > s.states[id].statusTime {
      RewriteKeepsIndex(Witness(s, t), JoinIntent(s, id, t, now).0.states[id]);
    }
  }

  function Ids(list: seq<MemberState>): set<Id> {
    set m | m in list :: m.Id()
  }

  lemma {:induction false} DistinctListsAreAsLongAsTheirIds(list: seq<MemberState>)
    requires Distinct(list)
    ensures |Ids(list)| == |list|
  {
    if list == [] {
    } else {
      DistinctListsAreAsLongAsTheirIds(list[1..]);
      assert Ids(list) == {list[0].Id()} + Ids(list[1..]);
    }
  }

  function With(states: map<Id, MemberState>, status: Status): set<Id> {
    set id | id in states && states[id].Status() == status
  }

  /** The members that are alive or leaving. */
  function Live(states: map<Id, MemberState>): set<Id> {
    set id | id in states && (states[id].Status().Alive? || states[id].Status().Leaving?)
  }

  lemma IdsAreTheStatus(list: seq<MemberState>, status: Status, states: map<Id, MemberState>)
    requires Indexes(list, status, states)
    ensures Ids(list) == With(states, status) && |list| == |With(states, status)|
  {
    DistinctListsAreAsLongAsTheirIds(list);
    forall m | m in list ensures Matches(m, status, states) {}
    forall id | id in states && states[id].Status() == status ensures id in Ids(list) {
      assert Mentions(list, id);
    }
  }

  lemma StatusesPartition(states: map<Id, MemberState>)
    requires forall id :: id in states ==> WellFormed(id, states[id])
    ensures |states| == |Live(states)| + |With(states, Failed)| + |With(states, Left)|
  {
    var gone := With(states, Failed) + With(states, Left);
    assert states.Keys == Live(states) + gone;
  }

  /** The count of live members, `states - failed - left`, never underflows: it is
      the number of members that are alive or leaving. */
  lemma LiveCountNeverUnderflows(s: Serf)
    requires Indexed(s)
    ensures |s.states| - |s.failed| - |s.left| == |Live(s.states)|
  {
    IdsAreTheStatus(s.failed, Failed, s.states);
    IdsAreTheStatus(s.left, Left, s.states);
    StatusesPartition(s.states);
  }

  // ----- The clock stays ahead -----

  ghost predicate Dominated(s: Serf) {
    && s.clock >= 1
    && (forall id :: id in s.states ==> s.states[id].statusTime < s.clock)
    && (forall id :: id in s.intents ==> s.intents[id].ltime < s.clock)
  }

  lemma JoinIntentKeepsDominance(s: Serf, id: Id, t: nat, now: nat)
    requires Dominated(s)
    ensures Dominated(JoinIntent(s, id, t, now).0) && JoinIntent(s, id, t, now).0.clock >= s.clock
  {
  }

  lemma LeaveIntentKeepsDominance(s: Serf, id: Id, t: nat, prune: bool, now: nat)
    requires Dominated(s)
    ensures Dominated(LeaveIntent(s, id, t, prune, now).serf) && LeaveIntent(s, id, t, prune, now).serf.clock >= s.clock
  {
  }

  lemma EraseKeepsDominance(s: Serf, gone: seq<MemberState>)
    requires Dominated(s)
    ensures Dominated(Erase(s, gone)) && Erase(s, gone).clock == s.clock
  {
    EraseTakesIds(s, gone);
  }

  lemma StepKeepsDominance(s: Serf, a: Action)
    requires Dominated(s)
    ensures Dominated(Apply(s, a)) && Apply(s, a).clock >= s.clock
  {
    match a
    case JoinArrives(id, t, now) => JoinIntentKeepsDominance(s, id, t, now);
    case Announces(t, now) => JoinIntentKeepsDominance(Witness(s, t), s.localId, t, now);
    case LeaveArrives(id, t, prune, now) => LeaveIntentKeepsDominance(s, id, t, prune, now);
    case ReapsFailed(now, timeout) =>
      var (kept, gone) := Sweep(s.failed, 0, now, timeout);
      EraseKeepsDominance(s.(failed := kept), gone);
    case ReapsLeft(now, timeout) =>
      var (kept, gone) := Sweep(s.left, 0, now, timeout);
      EraseKeepsDominance(s.(left := kept), gone);
    case _ =>
  }

  // ----- The event stream rebuilds the view -----

  datatype Presence = Up | Down | Away

  /** What a consumer of the events knows about one member. */
  datatype Entry = Entry(presence: Presence, node: Node, tags: Tags)

  function PresenceOf(status: Status): Presence {
    match status case Failed => Down case Left => Away case _ => Up
  }

  function EntryOf(ms: MemberState): Entry {
    Entry(PresenceOf(ms.Status()), ms.member.node, ms.member.tags)
  }

  function View(states: map<Id, MemberState>): map<Id, Entry> {
    map id | id in states :: EntryOf(states[id])
  }

  /** One event, as a consumer reads it; None is an event that makes no sense here:
      anything but a join about an absent member, a failure or departure of a
      member that is not up (a failed one may still depart). */
  function Consume(view: map<Id, Entry>, e: MemberEvent): Option<map<Id, Entry>> {
    var id := e.member.node.id;
    if e.ty.Joined? then Some(view[id := Entry(Up, e.member.node, e.member.tags)])
    else if id !in view then None
    else match e.ty
         case Departed =>
           if view[id].presence.Away? then None else Some(view[id := Entry(Away, e.member.node, e.member.tags)])
         case Lost =>
           if view[id].presence.Up? then Some(view[id := Entry(Down, e.member.node, e.member.tags)]) else None
         case Updated => Some(view[id := Entry(view[id].presence, e.member.node, e.member.tags)])
         case _ => Some(view - {id})
  }

  function Replay(events: seq<MemberEvent>): Option<map<Id, Entry>> {
    if events == [] then Some(map[])
    else
      var before := Replay(events[..|events| - 1]);
      if before.None? then None else Consume(before.value, events[|events| - 1])
  }

  ghost predicate Faithful(s: Serf) {
    Replay(s.events) == Some(View(s.states))
  }

  lemma ReplayOne(events: seq<MemberEvent>, e: MemberEvent)
    ensures Replay(events + [e]) == (if Replay(events).None? then None else Consume(Replay(events).value, e))
  {
    assert (events + [e])[..|events|] == events;
  }

  /** Emitting the right event for a change of the map keeps the stream faithful. */
  lemma EmitKeepsFaith(s: Serf, states: map<Id, MemberState>, ty: EventType, m: Member)
    requires Faithful(s) && Consume(View(s.states), MemberEvent(ty, m)) == Some(View(states))
    ensures Replay(s.events + [MemberEvent(ty, m)]) == Some(View(states))
  {
    ReplayOne(s.events, MemberEvent(ty, m));
  }

  lemma JoinKeepsFaith(s: Serf, node: Node, tags: Option<Tags>)
    requires Faithful(s)
    ensures Faithful(NodeJoin(s, node, tags))
  {
    if tags.Some? {
      var s' := NodeJoin(s, node, tags);
      var m := s'.states[node.id].member;
      assert View(s'.states) == View(s.states)[node.id := Entry(Up, node, tags.value)];
      EmitKeepsFaith(s, s'.states, Joined, m);
    }
  }

  lemma LeaveKeepsFaith(s: Serf, id: Id, now: nat)
    requires Indexed(s) && Faithful(s)
    ensures Faithful(NodeLeave(s, id, now))
  {
    if id in s.states && s.states[id].leaveTime.None? {
      var s' := NodeLeave(s, id, now);
      var m := s'.states[id].member;
      assert WellFormed(id, s.states[id]);
      assert View(s'.states) == View(s.states)[id := EntryOf(s'.states[id])];
      EmitKeepsFaith(s, s'.states, if s.states[id].Status().Leaving? then Departed else Lost, m);
    }
  }

  lemma UpdateKeepsFaith(s: Serf, node: Node, tags: Option<Tags>)
    requires Faithful(s)
    ensures Faithful(NodeUpdate(s, node, tags))
  {
    if tags.Some? && node.id in s.states {
      var s' := NodeUpdate(s, node, tags);
      assert View(s'.states) == View(s.states)[node.id := EntryOf(s'.states[node.id])];
      EmitKeepsFaith(s, s'.states, Updated, s'.states[node.id].member);
    }
  }

  lemma JoinIntentKeepsFaith(s: Serf, id: Id, t: nat, now: nat)
    requires Faithful(s)
    ensures Faithful(JoinIntent(s, id, t, now).0)
  {
    var s' := JoinIntent(s, id, t, now).0;
    assert View(s'.states) == View(s.states);
  }

  lemma PruneKeepsFaith(s: Serf, ms: MemberState)
    requires Faithful(s) && ms.Id() in s.states
    ensures Faithful(Prune(s, ms))
  {
    assert View(s.states - {ms.Id()}) == View(s.states) - {ms.Id()};
    EmitKeepsFaith(s, s.states - {ms.Id()}, Reaped, ms.member);
  }

  /** A failed member departs. */
  lemma DepartKeepsFaith(s: Serf, ms: MemberState)
    requires Faithful(s) && ms.Id() in s.states
    requires s.states[ms.Id()].Status().Failed? && ms.Status().Left?
    ensures Replay(s.events + [MemberEvent(Departed, ms.member)]) == Some(View(s.states[ms.Id() := ms]))
  {
    assert View(s.states[ms.Id() := ms]) == View(s.states)[ms.Id() := EntryOf(ms)];
    EmitKeepsFaith(s, s.states[ms.Id() := ms], Departed, ms.member);
  }

  /** A member changes in a way the events do not tell. */
  lemma SilentChangeKeepsFaith(s: Serf, ms: MemberState)
    requires Faithful(s) && ms.Id() in s.states && EntryOf(s.states[ms.Id()]) == EntryOf(ms)
    ensures Faithful(s.(states := s.states[ms.Id() := ms]))
  {
    assert View(s.states[ms.Id() := ms]) == View(s.states);
  }

  lemma PrunedDepartKeepsFaith(s: Serf, ms: MemberState)
    requires Faithful(s) && ms.Id() in s.states
    requires s.states[ms.Id()].Status().Failed? && ms.Status().Left?
    ensures var left :=
              s.(states := s.states[ms.Id() := ms], failed := Retain(s.failed, ms.Id()), left := s.left + [ms]);
            Faithful(Prune(Emit(left, Departed, ms.member), ms))
  {
    DepartKeepsFaith(s, ms);
    var left := s.(states := s.states[ms.Id() := ms], failed := Retain(s.failed, ms.Id()), left := s.left + [ms]);
    PruneKeepsFaith(Emit(left, Departed, ms.member), ms);
  }

  lemma PrunedChangeKeepsFaith(s: Serf, ms: MemberState)
    requires Faithful(s) && ms.Id() in s.states && EntryOf(s.states[ms.Id()]) == EntryOf(ms)
    ensures Faithful(Prune(s.(states := s.states[ms.Id() := ms]), ms))
  {
    SilentChangeKeepsFaith(s, ms);
    PruneKeepsFaith(s.(states := s.states[ms.Id() := ms]), ms);
  }

  lemma LeaveIntentKeepsFaith(s0: Serf, id: Id, t: nat, prune: bool, now: nat)
    requires Indexed(s0) && Faithful(s0)
    ensures Faithful(LeaveIntent(s0, id, t, prune, now).serf)
  {
    var s := Witness(s0, t);
    if id in s.states && t > s.states[id].statusTime && !(id == s.localId && s.life.Running?) {
      var was := s.states[id].(statusTime := t);
      assert WellFormed(id, s.states[id]);
      if was.Status().Failed? {
        var ms := was.(member := was.member.(status := Left));
        if prune { PrunedDepartKeepsFaith(s, ms); } else { DepartKeepsFaith(s, ms); }
      } else {
        var ms := if was.Status().Left? then was else was.(member := was.member.(status := Leaving));
        if prune { PrunedChangeKeepsFaith(s, ms); } else { SilentChangeKeepsFaith(s, ms); }
      }
    }
  }

  lemma {:induction false} EraseKeepsFaith(s: Serf, gone: seq<MemberState>)
    requires Faithful(s) && Distinct(gone) && forall m :: m in gone ==> m.Id() in s.states
    ensures Faithful(Erase(s, gone))
    decreases |gone|
  {
    if gone == [] {
    } else {
      var id := gone[0].Id();
      assert gone[0] in gone;
      assert View(s.states - {id}) == View(s.states) - {id};
      EmitKeepsFaith(s, s.states - {id}, Reaped, gone[0].member);
      EraseKeepsFaith(Emit(s.(states := s.states - {id}), Reaped, gone[0].member), gone[1..]);
    }
  }

  lemma ReapKeepsFaith(s: Serf, failing: bool, now: nat, timeout: Member -> nat)
    requires Indexed(s) && Faithful(s)
    ensures Faithful(if failing then ReapFailed(s, now, timeout) else ReapLeft(s, now, timeout))
  {
    var list := if failing then s.failed else s.left;
    var (kept, gone) := Sweep(list, 0, now, timeout);
    SweepTakesTheExpired(list, 0, now, timeout);
    DistinctByCount(list, kept, gone);
    forall m | m in gone ensures m.Id() in s.states {
      assert Matches(m, if failing then Failed else Left, s.states);
    }
    EraseKeepsFaith(if failing then s.(failed := kept) else s.(left := kept), gone);
  }

  lemma StepKeepsFaith(s: Serf, a: Action)
    requires Indexed(s) && Faithful(s)
    ensures Faithful(Apply(s, a))
  {
    match a
    case NodeJoins(node, tags) => JoinKeepsFaith(s, node, tags);
    case NodeLeaves(id, now) => LeaveKeepsFaith(s, id, now);
    case NodeUpdates(node, tags) => UpdateKeepsFaith(s, node, tags);
    case JoinArrives(id, t, now) => JoinIntentKeepsFaith(s, id, t, now);
    case Announces(t, now) => JoinIntentKeepsFaith(Witness(s, t), s.localId, t, now);
    case LeaveArrives(id, t, prune, now) => LeaveIntentKeepsFaith(s, id, t, prune, now);
    case ReapsFailed(now, timeout) => ReapKeepsFaith(s, true, now, timeout);
    case ReapsLeft(now, timeout) => ReapKeepsFaith(s, false, now, timeout);
    case _ =>
  }

  // ----- Whole runs -----

  ghost predicate Sound(s: Serf) {
    Indexed(s) && Dominated(s) && Faithful(s)
  }

  lemma StepKeepsSound(s: Serf, a: Action)
    requires Sound(s)
    ensures Sound(Apply(s, a)) && Apply(s, a).clock >= s.clock
  {
    StepKeepsIndex(s, a);
    StepKeepsDominance(s, a);
    StepKeepsFaith(s, a);
  }

  lemma {:induction false} RunKeepsSound(s: Serf, actions: seq<Action>)
    requires Sound(s)
    ensures Sound(Run(s, actions)) && Run(s, actions).clock >= s.clock
    decreases |actions|
  {
    if actions == [] {
    } else {
      StepKeepsSound(s, actions[0]);
      RunKeepsSound(Apply(s, actions[0]), actions[1..]);
    }
  }

  /** Every reachable state: the side lists index the members, the clock is ahead
      of every recorded time, and the events rebuild the view. */
  lemma EveryReachableStateIsSound(localId: Id, versions: Versions, oldClock: nat, actions: seq<Action>)
    ensures Sound(Run(Fresh(localId, versions, oldClock), actions))
  {
    var s := Fresh(localId, versions, oldClock);
    assert View(s.states) == map[];
    RunKeepsSound(s, actions);
  }
}
