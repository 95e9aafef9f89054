/** The state exchange between two nodes. A node turns what its peer sends into
    one artificial intent per member; the result does not depend on the order in
    which it goes through them, and merging the same message twice changes
    nothing more. */
module PushPull {
  import opened Types
  import opened Membership
  import opened MembershipInvariants
  import opened Gossip
  import Clock

  /** The part of the message about members. */
  datatype Remote = Remote(time: nat, statusTimes: map<Id, nat>, left: set<Id>)

  /** What a node sends. */
  function LocalState(s: Serf): Remote {
    Remote(s.clock, map id | id in s.states :: s.states[id].statusTime, Ids(s.left))
  }

  /** The artificial intent about `id`. The time of the leave is not known, only
      that it was accepted after the recorded time. */
  function IntentFor(r: Remote, id: Id): Msg
    requires id in r.statusTimes
  {
    if id in r.left then Msg(LeaveKind, id, r.statusTimes[id] + 1) else Msg(JoinKind, id, r.statusTimes[id])
  }

  function Intents(r: Remote): set<Msg> {
    set id | id in r.statusTimes :: IntentFor(r, id)
  }

  function HandleAll(s: Serf, ms: seq<Msg>, now: nat): Serf {
    if ms == [] then s else Handle(HandleAll(s, ms[..|ms| - 1], now), ms[|ms| - 1], now).serf
  }

  /** Witnesses the peer's clock, less one since nothing was sent with that time yet. */
  function Start(s: Serf, r: Remote): Serf {
    if r.time > 0 then Witness(s, r.time - 1) else s
  }

  /** The member part of merging, going through the intents in the order `ms`. */
  function Merge(s: Serf, r: Remote, ms: seq<Msg>, now: nat): Serf {
    HandleAll(Start(s, r), ms, now)
  }

  /** The times of the refutations spawned on the way. */
  function Refutations(s: Serf, ms: seq<Msg>, now: nat): seq<nat> {
    if ms == [] then []
    else
      var before := ms[..|ms| - 1];
      Refutations(s, before, now) + Spawned(Handle(HandleAll(s, before, now), ms[|ms| - 1], now))
  }

  function Spawned(o: Outcome): seq<nat> {
    if o.refute.Some? then [o.refute.value] else []
  }

  function MergeRefutations(s: Serf, r: Remote, ms: seq<Msg>, now: nat): seq<nat> {
    Refutations(Start(s, r), ms, now)
  }

  ghost predicate Order(ms: seq<Msg>, msgs: set<Msg>) {
    && (forall m :: m in ms <==> m in msgs)
    && (forall i, j :: 0 <= i < j < |ms| ==> ms[i].id != ms[j].id)
  }

  // ----- One intent touches one member -----

  datatype Slot = Slot(state: Option<MemberState>, intent: Option<Intent>)

  function SlotOf(s: Serf, id: Id): Slot {
    Slot(if id in s.states then Some(s.states[id]) else None, if id in s.intents then Some(s.intents[id]) else None)
  }

  /** Does the intent move its member from failed to left? */
  predicate Moves(s: Serf, m: Msg) {
    && m.kind.LeaveKind? && m.id in s.states && s.states[m.id].Status().Failed? && m.time > s.states[m.id].statusTime
    && !(m.id == s.localId && s.life.Running?)
  }

  /** What one intent leaves alone. */
  ghost predicate TouchesOne(s: Serf, m: Msg, s': Serf) {
    && s' == s.(clock := s'.clock, states := s'.states, intents := s'.intents,
                left := s'.left, failed := s'.failed, events := s'.events)
    && (forall id :: id != m.id ==> SlotOf(s', id) == SlotOf(s, id))
    && s'.clock == Clock.Witnessed(s.clock, m.time)
    && (Moves(s, m) ==>
          m.id in s'.states && s'.left == s.left + [s'.states[m.id]] && s'.failed == Retain(s.failed, m.id))
    && (!Moves(s, m) ==> s'.left == s.left && s'.failed == s.failed)
  }

  lemma JoinTouchesOne(s: Serf, m: Msg, now: nat)
    requires m.kind.JoinKind?
    ensures TouchesOne(s, m, JoinIntent(s, m.id, m.time, now).0)
  {
  }

  lemma LeaveTouchesOne(s: Serf, m: Msg, now: nat)
    requires m.kind.LeaveKind? && (m.id in s.states ==> WellFormed(m.id, s.states[m.id]))
    ensures TouchesOne(s, m, LeaveIntent(s, m.id, m.time, false, now).serf)
  {
  }

  lemma HandleTouchesOneMember(s: Serf, m: Msg, now: nat)
    requires Indexed(s)
    ensures TouchesOne(s, m, Handle(s, m, now).serf)
  {
    match m.kind
    case JoinKind => JoinTouchesOne(s, m, now);
    case LeaveKind => LeaveTouchesOne(s, m, now);
  }

  /** What an intent makes of the one slot it is about. */
  function SlotAfter(x: Slot, refutes: bool, m: Msg, now: nat): Slot {
    match x.state
    case None =>
      if x.intent.Some? && m.time <= x.intent.value.ltime then x
      else x.(intent := Some(Intent(m.kind, m.time, now)))
    case Some(ms) =>
      if m.time <= ms.statusTime || (m.kind.LeaveKind? && refutes) then x
      else
        var status := match ms.Status()
                      case Alive => if m.kind.JoinKind? then Alive else Leaving
                      case Leaving => if m.kind.JoinKind? then Alive else Leaving
                      case Failed => if m.kind.JoinKind? then Failed else Left
                      case other => other;
        x.(state := Some(ms.(statusTime := m.time, member := ms.member.(status := status))))
  }

  lemma HandleIsSlotAfter(s: Serf, m: Msg, now: nat)
    requires m.id in s.states ==> WellFormed(m.id, s.states[m.id])
    ensures SlotOf(Handle(s, m, now).serf, m.id) ==
            SlotAfter(SlotOf(s, m.id), m.id == s.localId && s.life.Running?, m, now)
  {
    match m.kind
    case JoinKind =>
    case LeaveKind =>
  }

  /** The outcome for a member depends on nothing but what is held about it. */
  lemma HandleIsLocal(a: Serf, b: Serf, m: Msg, now: nat)
    requires Indexed(a) && Indexed(b)
    requires a.localId == b.localId && a.life == b.life && SlotOf(a, m.id) == SlotOf(b, m.id)
    ensures SlotOf(Handle(a, m, now).serf, m.id) == SlotOf(Handle(b, m, now).serf, m.id)
    ensures Moves(a, m) == Moves(b, m)
  {
    HandleIsSlotAfter(a, m, now);
    HandleIsSlotAfter(b, m, now);
    assert SlotOf(a, m.id).state == SlotOf(b, m.id).state;
  }

  // ----- What any order of the intents `done` makes of `s` -----

  ghost predicate Merged(s: Serf, done: set<Msg>, s': Serf, now: nat) {
    && s'.localId == s.localId && s'.life == s.life
    && MergedSlots(s, done, s', now) && MergedClock(s, done, s') && MergedLists(s, done, s', now)
  }

  ghost predicate MergedSlots(s: Serf, done: set<Msg>, s': Serf, now: nat) {
    && (forall m :: m in done ==> SlotOf(s', m.id) == SlotOf(Handle(s, m, now).serf, m.id))
    && (forall id :: !Names(done, id) ==> SlotOf(s', id) == SlotOf(s, id))
  }

  ghost predicate Names(done: set<Msg>, id: Id) {
    exists m :: m in done && m.id == id
  }

  ghost predicate MergedClock(s: Serf, done: set<Msg>, s': Serf) {
    && s'.clock >= s.clock
    && (forall m :: m in done ==> m.time < s'.clock)
    && (s'.clock == s.clock || exists m :: m in done && s'.clock == m.time + 1)
  }

  ghost predicate MergedLists(s: Serf, done: set<Msg>, s': Serf, now: nat) {
    && (forall x :: x in s'.failed <==> x in s.failed && !MovedAway(s, done, x))
    && (forall x :: x in s'.left <==> x in s.left || MovedIn(s, done, x, now))
  }

  ghost predicate MovedAway(s: Serf, done: set<Msg>, x: MemberState) {
    exists m :: m in done && Moves(s, m) && m.id == x.Id()
  }

  ghost predicate MovedIn(s: Serf, done: set<Msg>, x: MemberState, now: nat) {
    exists m :: m in done && Moves(s, m) && SlotOf(Handle(s, m, now).serf, m.id).state == Some(x)
  }

  lemma OneMoreIntent(s: Serf, done: set<Msg>, s1: Serf, m: Msg, now: nat)
    requires Indexed(s) && Indexed(s1) && Merged(s, done, s1, now) && !Names(done, m.id)
    ensures Merged(s, done + {m}, Handle(s1, m, now).serf, now)
  {
    var s2 := Handle(s1, m, now).serf;
    HandleTouchesOneMember(s1, m, now);
    HandleIsLocal(s, s1, m, now);
    forall x | x in done + {m} ensures SlotOf(s2, x.id) == SlotOf(Handle(s, x, now).serf, x.id) {
      if x != m { assert Names(done, x.id); }
    }
    forall id | !Names(done + {m}, id) ensures SlotOf(s2, id) == SlotOf(s, id) {
      assert m in done + {m};
      assert forall x :: x in done ==> x in done + {m};
      assert !Names(done, id);
    }
    ClockOfOneMore(s, done, s1, m, s2);
    ListsOfOneMore(s, done, s1, m, s2, now);
  }

  lemma ClockOfOneMore(s: Serf, done: set<Msg>, s1: Serf, m: Msg, s2: Serf)
    requires MergedClock(s, done, s1) && s2.clock == Clock.Witnessed(s1.clock, m.time)
    ensures MergedClock(s, done + {m}, s2)
  {
    if s2.clock == m.time + 1 {
      assert m in done + {m};
    } else if s2.clock != s.clock {
      var x :| x in done && s1.clock == x.time + 1;
      assert x in done + {m};
    }
  }

  lemma ListsOfOneMore(s: Serf, done: set<Msg>, s1: Serf, m: Msg, s2: Serf, now: nat)
    requires MergedLists(s, done, s1, now) && Moves(s, m) == Moves(s1, m)
    requires SlotOf(s2, m.id) == SlotOf(Handle(s, m, now).serf, m.id)
    requires Moves(s1, m) ==>
               m.id in s2.states && s2.left == s1.left + [s2.states[m.id]] && s2.failed == Retain(s1.failed, m.id)
    requires !Moves(s1, m) ==> s2.left == s1.left && s2.failed == s1.failed
    ensures MergedLists(s, done + {m}, s2, now)
  {
    RetainKeepsTheRest(s1.failed, m.id);
    forall x: MemberState
      ensures MovedAway(s, done + {m}, x) <==> MovedAway(s, done, x) || (Moves(s, m) && m.id == x.Id())
    {
      if MovedAway(s, done, x) { var y :| y in done && Moves(s, y) && y.id == x.Id(); assert y in done + {m}; }
      assert m in done + {m};
    }
    forall x: MemberState
      ensures MovedIn(s, done + {m}, x, now) <==>
              MovedIn(s, done, x, now) || (Moves(s, m) && SlotOf(Handle(s, m, now).serf, m.id).state == Some(x))
    {
      if MovedIn(s, done, x, now) {
        var y :| y in done && Moves(s, y) && SlotOf(Handle(s, y, now).serf, y.id).state == Some(x);
        assert y in done + {m};
      }
      assert m in done + {m};
    }
  }

  lemma HandleKeepsIndex(s: Serf, m: Msg, now: nat)
    requires Indexed(s)
    ensures Indexed(Handle(s, m, now).serf)
  {
    RelayedExactlyIfNew(s, m, now);
  }

  lemma NothingMerged(s: Serf, now: nat)
    ensures Merged(s, {}, s, now)
  {
    var none: set<Msg> := {};
    assert forall id :: !Names(none, id);
    assert forall x :: !MovedAway(s, none, x) && !MovedIn(s, none, x, now);
  }

  function SetOf(ms: seq<Msg>): set<Msg> {
    set m | m in ms
  }

  lemma SetOfSnoc(ms: seq<Msg>)
    requires ms != [] && forall i, j :: 0 <= i < j < |ms| ==> ms[i].id != ms[j].id
    ensures var n := |ms| - 1; SetOf(ms) == SetOf(ms[..n]) + {ms[n]} && !Names(SetOf(ms[..n]), ms[n].id)
  {
    var n := |ms| - 1;
    assert ms == ms[..n] + [ms[n]];
    forall m | m in SetOf(ms[..n]) ensures m.id != ms[n].id {
      var i :| 0 <= i < n && ms[..n][i] == m;
    }
  }

  lemma {:induction false} AnyOrderIsMerged(s: Serf, ms: seq<Msg>, now: nat)
    requires Indexed(s) && forall i, j :: 0 <= i < j < |ms| ==> ms[i].id != ms[j].id
    ensures Merged(s, SetOf(ms), HandleAll(s, ms, now), now) && Indexed(HandleAll(s, ms, now))
  {
    if ms == [] {
      assert SetOf(ms) == {};
      NothingMerged(s, now);
    } else {
      var n := |ms| - 1;
      var s1 := HandleAll(s, ms[..n], now);
      AnyOrderIsMerged(s, ms[..n], now);
      SetOfSnoc(ms);
      OneMoreIntent(s, SetOf(ms[..n]), s1, ms[n], now);
      HandleKeepsIndex(s1, ms[n], now);
    }
  }

  /** Equal in everything but the order of the side lists and of the events. */
  ghost predicate SameMembers(a: Serf, b: Serf) {
    && a.states == b.states && a.intents == b.intents && a.clock == b.clock
    && multiset(a.failed) == multiset(b.failed) && multiset(a.left) == multiset(b.left)
  }

  lemma SameElementsSameList(a: seq<MemberState>, b: seq<MemberState>)
    requires Distinct(a) && Distinct(b) && forall m :: m in a <==> m in b
    ensures multiset(a) == multiset(b)
  {
    AtMostOnce(a);
    AtMostOnce(b);
    forall m ensures multiset(a)[m] == multiset(b)[m] {
      assert m in multiset(a) <==> m in a;
      assert m in multiset(b) <==> m in b;
    }
  }

  lemma MergedIsUnique(s: Serf, done: set<Msg>, a: Serf, b: Serf, now: nat)
    requires Merged(s, done, a, now) && Merged(s, done, b, now) && Indexed(a) && Indexed(b)
    ensures SameMembers(a, b)
  {
    forall id ensures SlotOf(a, id) == SlotOf(b, id) {
      if Names(done, id) { var m :| m in done && m.id == id; }
    }
    SameSlotsSameMaps(a, b);
    SameElementsSameList(a.failed, b.failed);
    SameElementsSameList(a.left, b.left);
  }

  lemma SameSlotsSameMaps(a: Serf, b: Serf)
    requires forall id :: SlotOf(a, id) == SlotOf(b, id)
    ensures a.states == b.states && a.intents == b.intents
  {
    forall id ensures (id in a.states <==> id in b.states) && (id in a.states ==> a.states[id] == b.states[id]) {
      assert SlotOf(a, id) == SlotOf(b, id);
    }
    forall id ensures (id in a.intents <==> id in b.intents) && (id in a.intents ==> a.intents[id] == b.intents[id]) {
      assert SlotOf(a, id) == SlotOf(b, id);
    }
  }

  lemma StartIsIndexed(s: Serf, r: Remote) returns (s0: Serf)
    requires Indexed(s)
    ensures s0 == Start(s, r) && Indexed(s0)
  {
    s0 := Start(s, r);
  }

  /** Merging does not depend on the order of iteration. */
  lemma MergeOrderDoesNotMatter(s: Serf, r: Remote, ms: seq<Msg>, ms': seq<Msg>, now: nat)
    requires Indexed(s) && Order(ms, Intents(r)) && Order(ms', Intents(r))
    ensures SameMembers(Merge(s, r, ms, now), Merge(s, r, ms', now))
  {
    var s0 := StartIsIndexed(s, r);
    AnyOrderIsMerged(s0, ms, now);
    AnyOrderIsMerged(s0, ms', now);
    assert SetOf(ms) == Intents(r) == SetOf(ms');
    MergedIsUnique(s0, Intents(r), HandleAll(s0, ms, now), HandleAll(s0, ms', now), now);
  }

  /** An intent the node is done with: its time is noted, or it is one the node
      answers with a refutation. */
  predicate Settled(s: Serf, m: Msg) {
    && m.time < s.clock
    && (|| m.time <= LastTime(s, m.id)
        || (m.kind.LeaveKind? && m.id == s.localId && s.life.Running? && m.id in s.states))
  }

  lemma SettledIntentsChangeNothing(s: Serf, m: Msg, now: nat)
    requires Settled(s, m)
    ensures Handle(s, m, now).serf == s
  {
  }

  lemma {:induction false} SettledAllChangeNothing(s: Serf, ms: seq<Msg>, now: nat)
    requires forall m :: m in ms ==> Settled(s, m)
    ensures HandleAll(s, ms, now) == s
  {
    if ms == [] {
    } else {
      SettledAllChangeNothing(s, ms[..|ms| - 1], now);
      assert ms[|ms| - 1] in ms;
      SettledIntentsChangeNothing(s, ms[|ms| - 1], now);
    }
  }

  lemma HandledIsSettled(s: Serf, m: Msg, now: nat)
    requires Indexed(s)
    ensures var s' := Handle(s, m, now).serf;
            || m.time <= LastTime(s', m.id)
            || (m.kind.LeaveKind? && m.id == s.localId && s.life.Running? && m.id in s'.states)
  {
    RelayedExactlyIfNew(s, m, now);
    if Handle(s, m, now).refute.Some? { assert m.id in s.states; }
  }

  lemma MergeSettles(s: Serf, r: Remote, ms: seq<Msg>, now: nat)
    requires Indexed(s) && Order(ms, Intents(r))
    ensures var s' := Merge(s, r, ms, now);
            && Indexed(s') && s'.clock >= r.time
            && (forall m :: m in Intents(r) ==> Settled(s', m))
  {
    var s0 := StartIsIndexed(s, r);
    AnyOrderIsMerged(s0, ms, now);
    assert SetOf(ms) == Intents(r);
    var s' := Merge(s, r, ms, now);
    forall m | m in Intents(r) ensures Settled(s', m) {
      HandledIsSettled(s0, m, now);
      assert SlotOf(s', m.id) == SlotOf(Handle(s0, m, now).serf, m.id);
      SameSlotSameTime(s', Handle(s0, m, now).serf, m.id);
    }
  }

  lemma SameSlotSameTime(a: Serf, b: Serf, id: Id)
    requires SlotOf(a, id) == SlotOf(b, id)
    ensures LastTime(a, id) == LastTime(b, id) && (id in a.states <==> id in b.states)
  {
    assert SlotOf(a, id).state == SlotOf(b, id).state && SlotOf(a, id).intent == SlotOf(b, id).intent;
  }

  // ----- Refutations -----

  /** A leave about the running local node that is newer than its status time. */
  predicate Refuting(s: Serf, m: Msg) {
    && m.kind.LeaveKind? && m.id == s.localId && s.life.Running?
    && m.id in s.states && m.time > s.states[m.id].statusTime
  }

  lemma RefutesExactly(s: Serf, m: Msg, now: nat)
    ensures Spawned(Handle(s, m, now)) == (if Refuting(s, m) then [Clock.Witnessed(s.clock, m.time)] else [])
  {
  }

  /** Going through intents about different members refutes at most one of them, with
      a time past that leave and not past the clock reached. */
  lemma {:induction false} AnyOrderRefutesOnce(s: Serf, ms: seq<Msg>, now: nat)
    requires Indexed(s) && forall i, j :: 0 <= i < j < |ms| ==> ms[i].id != ms[j].id
    ensures var ts := Refutations(s, ms, now);
            && |ts| <= 1 && (ts != [] <==> exists m :: m in ms && Refuting(s, m))
            && (forall m :: m in ms && Refuting(s, m) ==> m.time < ts[0] <= HandleAll(s, ms, now).clock)
  {
    if ms == [] {
    } else {
      var n := |ms| - 1;
      var s1 := HandleAll(s, ms[..n], now);
      AnyOrderRefutesOnce(s, ms[..n], now);
      AnyOrderIsMerged(s, ms[..n], now);
      SetOfSnoc(ms);
      RefutesExactly(s1, ms[n], now);
      HandleTouchesOneMember(s1, ms[n], now);
      if ms[n].id == s.localId {
        assert !Names(SetOf(ms[..n]), s.localId);
        SameSlotSameTime(s1, s, s.localId);
        assert SlotOf(s1, s.localId).state == SlotOf(s, s.localId).state;
        assert Refuting(s1, ms[n]) == Refuting(s, ms[n]);
        forall m | m in ms[..n] ensures !Refuting(s, m) { assert m in SetOf(ms[..n]); }
      }
      MembersOfSnoc(ms);
    }
  }

  lemma MembersOfSnoc(ms: seq<Msg>)
    requires ms != []
    ensures forall m :: m in ms <==> m in ms[..|ms| - 1] || m == ms[|ms| - 1]
  {
    assert ms == ms[..|ms| - 1] + [ms[|ms| - 1]];
  }

  /** The peer lists the running local node as left, at a time that is not old here. */
  predicate ListedAsLeft(s: Serf, r: Remote) {
    && s.localId in r.statusTimes && s.localId in r.left && Refuting(s, IntentFor(r, s.localId))
  }

  /** A merge refutes if and only if the peer so lists the local node, and then once. */
  lemma MergeRefutesIffListed(s: Serf, r: Remote, ms: seq<Msg>, now: nat)
    requires Indexed(s) && Order(ms, Intents(r))
    ensures var ts := MergeRefutations(s, r, ms, now);
            && |ts| <= 1 && (ts != [] <==> ListedAsLeft(s, r))
            && (ListedAsLeft(s, r) ==> r.statusTimes[s.localId] + 1 < ts[0] <= Merge(s, r, ms, now).clock)
  {
    var s0 := StartIsIndexed(s, r);
    AnyOrderRefutesOnce(s0, ms, now);
    if ListedAsLeft(s, r) {
      assert IntentFor(r, s.localId) in ms && Refuting(s0, IntentFor(r, s.localId));
    }
    forall m | m in ms && Refuting(s0, m) ensures ListedAsLeft(s, r) {
      assert m in Intents(r);
    }
  }

  /** What a merge makes of a member is what the intent about it makes of its slot. */
  lemma MergedSlot(s: Serf, r: Remote, ms: seq<Msg>, m: Msg, now: nat)
    requires Indexed(s) && Order(ms, Intents(r)) && m in Intents(r)
    ensures SlotOf(Merge(s, r, ms, now), m.id) ==
            SlotAfter(SlotOf(s, m.id), m.id == s.localId && s.life.Running?, m, now)
  {
    var s0 := StartIsIndexed(s, r);
    AnyOrderIsMerged(s0, ms, now);
    assert SetOf(ms) == Intents(r);
    if m.id in s0.states { assert WellFormed(m.id, s0.states[m.id]); }
    HandleIsSlotAfter(s0, m, now);
    assert SlotOf(s0, m.id) == SlotOf(s, m.id);
  }

  /** A refuted leave leaves no trace: whether the local node is so listed is the same
      after the merge. */
  lemma StillListedAfterMerge(s: Serf, r: Remote, ms: seq<Msg>, now: nat)
    requires Indexed(s) && Order(ms, Intents(r))
    ensures var s' := Merge(s, r, ms, now);
            s'.localId == s.localId && s'.life == s.life && (ListedAsLeft(s', r) <==> ListedAsLeft(s, r))
  {
    var s0 := StartIsIndexed(s, r);
    AnyOrderIsMerged(s0, ms, now);
    if s.localId in r.statusTimes && s.localId in r.left && s.life.Running? {
      var m := IntentFor(r, s.localId);
      assert m in Intents(r);
      MergedSlot(s, r, ms, m, now);
      assert SlotOf(Merge(s, r, ms, now), s.localId).state == SlotOf(s, s.localId).state;
    }
  }

  /** Merging the same message again, in whatever order, changes nothing; and it spawns
      no refutation if and only if the peer does not list the running local node as
      left at a time that is not old. */
  lemma MergeIsIdempotent(s: Serf, r: Remote, ms: seq<Msg>, ms': seq<Msg>, now: nat, later: nat)
    requires Indexed(s) && Order(ms, Intents(r)) && Order(ms', Intents(r))
    ensures var s' := Merge(s, r, ms, now);
            && Merge(s', r, ms', later) == s'
            && (MergeRefutations(s', r, ms', later) == [] <==> !ListedAsLeft(s, r))
  {
    MergeSettles(s, r, ms, now);
    SettledAllChangeNothing(Merge(s, r, ms, now), ms', later);
    StillListedAfterMerge(s, r, ms, now);
    MergeRefutesIffListed(Merge(s, r, ms, now), r, ms', later);
  }

  /** Once the refutation has run, the same message is refuted no more. */
  lemma RefutationSettlesTheMerge(s: Serf, r: Remote, ms: seq<Msg>, ms': seq<Msg>, now: nat, after: nat, later: nat)
    requires Indexed(s) && Order(ms, Intents(r)) && Order(ms', Intents(r)) && ListedAsLeft(s, r)
    ensures var ts := MergeRefutations(s, r, ms, now);
            && ts != []
            && var s' := BroadcastJoin(Merge(s, r, ms, now), ts[0], after);
               && MergeRefutations(s', r, ms', later) == []
               && s.localId in s'.states && s'.states[s.localId].statusTime == ts[0]
  {
    var s1 := Merge(s, r, ms, now);
    MergeRefutesIffListed(s, r, ms, now);
    StillListedAfterMerge(s, r, ms, now);
    MergeSettles(s, r, ms, now);
    var t := MergeRefutations(s, r, ms, now)[0];
    JoinIntentKeepsIndex(Witness(s1, t), s.localId, t, after);
    MergeRefutesIffListed(BroadcastJoin(s1, t, after), r, ms', later);
  }

  // ----- What the exchange brings over -----

  /** A member that left at the peer, failed here, and nothing newer is noted here. */
  predicate LeftThereFailedHere(s: Serf, peer: Serf, id: Id) {
    && id in peer.states && peer.states[id].Status().Left?
    && id in s.states && s.states[id].Status().Failed? && s.states[id].statusTime <= peer.states[id].statusTime
  }

  /** After the exchange the node has noted, for every member the peer knows, the
      peer's time, and for those that left at the peer a later one; a member that
      failed here and left there has left here, unless a newer intent is noted. The one
      exception is a leave about the node itself while it runs, which it refutes. */
  lemma MergeCatchesUp(s: Serf, peer: Serf, ms: seq<Msg>, now: nat)
    requires Indexed(s) && Indexed(peer) && Order(ms, Intents(LocalState(peer)))
    ensures var s' := Merge(s, LocalState(peer), ms, now);
            && s'.clock >= peer.clock
            && (forall id :: id in peer.states && !(id == s.localId && s.life.Running?) ==>
                  LastTime(s', id) >= LastTime(peer, id) + (if peer.states[id].Status().Left? then 1 else 0))
            && (forall id ::
                  id in peer.states && !(id == s.localId && s.life.Running?) && LeftThereFailedHere(s, peer, id) ==>
                  id in s'.states && s'.states[id].Status().Left?)
  {
    var s' := Merge(s, LocalState(peer), ms, now);
    MergeSettles(s, LocalState(peer), ms, now);
    forall id | id in peer.states && !(id == s.localId && s.life.Running?)
      ensures LastTime(s', id) >= LastTime(peer, id) + (if peer.states[id].Status().Left? then 1 else 0)
      ensures LeftThereFailedHere(s, peer, id) ==> id in s'.states && s'.states[id].Status().Left?
    {
      CaughtUpWithPeer(s, peer, ms, id, now);
    }
  }

  lemma CaughtUpWithPeer(s: Serf, peer: Serf, ms: seq<Msg>, id: Id, now: nat)
    requires Indexed(s) && Indexed(peer) && Order(ms, Intents(LocalState(peer)))
    requires id in peer.states && !(id == s.localId && s.life.Running?)
    ensures var s' := Merge(s, LocalState(peer), ms, now);
            && LastTime(s', id) >= LastTime(peer, id) + (if peer.states[id].Status().Left? then 1 else 0)
            && (LeftThereFailedHere(s, peer, id) ==> id in s'.states && s'.states[id].Status().Left?)
  {
    IdsAreTheStatus(peer.left, Left, peer.states);
    var m := IntentFor(LocalState(peer), id);
    assert m in Intents(LocalState(peer));
    CaughtUpOn(s, LocalState(peer), ms, m, now);
  }

  lemma CaughtUpOn(s: Serf, r: Remote, ms: seq<Msg>, m: Msg, now: nat)
    requires Indexed(s) && Order(ms, Intents(r)) && m in Intents(r)
    requires !(m.kind.LeaveKind? && m.id == s.localId && s.life.Running?)
    ensures var s' := Merge(s, r, ms, now);
            && LastTime(s', m.id) >= m.time
            && (Moves(s, m) ==> m.id in s'.states && s'.states[m.id].Status().Left?)
  {
    MergedSlot(s, r, ms, m, now);
    if m.id in s.states { assert WellFormed(m.id, s.states[m.id]); }
    var x := SlotOf(Merge(s, r, ms, now), m.id);
    assert x.state.Some? || x.intent.Some?;
  }

  // ----- Nothing more than that -----

  /** The clock after a merge is the least past its own, the peer's, and the times of the
      artificial intents: no time is made up. */
  lemma MergeMovesClockNoFurther(s: Serf, r: Remote, ms: seq<Msg>, now: nat)
    requires Indexed(s) && Order(ms, Intents(r))
    ensures var c := Merge(s, r, ms, now).clock;
            && c >= s.clock && c >= r.time && (forall m :: m in Intents(r) ==> c > m.time)
            && (c == s.clock || c == r.time || exists m :: m in Intents(r) && c == m.time + 1)
  {
    var s0 := StartIsIndexed(s, r);
    AnyOrderIsMerged(s0, ms, now);
    assert SetOf(ms) == Intents(r);
  }

  /** What a merge makes of a member is what one intent makes of it: a leave one past the
      peer's time if the member has left there, else a join at the peer's time. What the
      peer does not know stays as it is. */
  lemma MergeBringsPeersView(s: Serf, peer: Serf, ms: seq<Msg>, id: Id, now: nat)
    requires Indexed(s) && Indexed(peer) && Order(ms, Intents(LocalState(peer)))
    ensures SlotOf(Merge(s, LocalState(peer), ms, now), id) ==
            if id !in peer.states then SlotOf(s, id)
            else
              var t := peer.states[id].statusTime;
              var m := if peer.states[id].Status().Left? then Msg(LeaveKind, id, t + 1) else Msg(JoinKind, id, t);
              SlotAfter(SlotOf(s, id), id == s.localId && s.life.Running?, m, now)
  {
    var r := LocalState(peer);
    IdsAreTheStatus(peer.left, Left, peer.states);
    if id in peer.states {
      assert IntentFor(r, id) in Intents(r);
      MergedSlot(s, r, ms, IntentFor(r, id), now);
    } else {
      assert forall m :: m in Intents(r) ==> m.id in peer.states;
      UnnamedStaysAsItIs(s, r, ms, id, now);
    }
  }

  lemma UnnamedStaysAsItIs(s: Serf, r: Remote, ms: seq<Msg>, id: Id, now: nat)
    requires Indexed(s) && Order(ms, Intents(r)) && forall m :: m in Intents(r) ==> m.id != id
    ensures SlotOf(Merge(s, r, ms, now), id) == SlotOf(s, id)
  {
    var s0 := StartIsIndexed(s, r);
    AnyOrderIsMerged(s0, ms, now);
    assert !Names(SetOf(ms), id);
    assert SlotOf(s0, id) == SlotOf(s, id);
  }
}
