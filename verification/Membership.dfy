/** What each membership handler makes of a node's state, as a function. The
    handlers hold the members lock from start to end, so each is one step. */
module Membership {
  import opened Types
  import Clock

  datatype SerfState = Running | Departing | Gone | Shutdown

  datatype Serf = Serf(
    localId: Id,
    versions: Versions,            // what the local node advertises
    life: SerfState,
    clock: nat,
    states: map<Id, MemberState>,
    intents: map<Id, Intent>,
    left: seq<MemberState>,
    failed: seq<MemberState>,
    events: seq<MemberEvent>       // everything sent to the event channel
  )

  /** A fresh node whose snapshot, if any, ended at `oldClock`. */
  function Fresh(localId: Id, versions: Versions, oldClock: nat): Serf {
    Serf(localId, versions, Running, Clock.Witnessed(1, oldClock), map[], map[], [], [], [])
  }

  /** The list without the entries about `id`. */
  function Retain(list: seq<MemberState>, id: Id): seq<MemberState> {
    if list == [] then []
    else if list[0].Id() == id then Retain(list[1..], id)
    else [list[0]] + Retain(list[1..], id)
  }

  function Emit(s: Serf, ty: EventType, m: Member): Serf {
    s.(events := s.events + [MemberEvent(ty, m)])
  }

  function SetState(s: Serf, ms: MemberState): Serf {
    s.(states := s.states[ms.Id() := ms])
  }

  function Witness(s: Serf, t: nat): Serf {
    s.(clock := Clock.Witnessed(s.clock, t))
  }

  /** Memberlist reports a node up; `tags` is None when its metadata does not decode. */
  function NodeJoin(s: Serf, node: Node, tags: Option<Tags>): Serf {
    if tags.None? then s
    else if node.id in s.states then
      var was := s.states[node.id];
      var ms := MemberState(Member(node, tags.value, Alive, was.member.versions), was.statusTime, None);
      var gone := was.Status().Failed? || was.Status().Left?;
      Emit(SetState(s, ms), Joined, ms.member).(
        failed := if gone then Retain(s.failed, node.id) else s.failed,
        left := if gone then Retain(s.left, node.id) else s.left)
    else
      var ms := if node.id !in s.intents then MemberState(Member(node, tags.value, Alive, s.versions), 0, None)
                else
                  var i := s.intents[node.id];
                  var status := if i.kind.LeaveKind? then Leaving else Alive;
                  MemberState(Member(node, tags.value, status, s.versions), i.ltime, None);
      Emit(SetState(s, ms), Joined, ms.member)
  }

  /** Memberlist reports a node down. */
  function NodeLeave(s: Serf, id: Id, now: nat): Serf {
    if id !in s.states then s
    else
      var was := s.states[id];
      match was.Status()
      case Leaving =>
        var ms := was.(member := was.member.(status := Left), leaveTime := Some(now));
        Emit(s.(states := s.states[id := ms], left := s.left + [ms]), Departed, ms.member)
      case Alive =>
        var ms := was.(member := was.member.(status := Failed), leaveTime := Some(now));
        Emit(s.(states := s.states[id := ms], failed := s.failed + [ms]), Lost, ms.member)
      case _ => s
  }

  /** Memberlist reports changed metadata. */
  function NodeUpdate(s: Serf, node: Node, tags: Option<Tags>): Serf {
    if tags.None? || node.id !in s.states then s
    else
      var was := s.states[node.id];
      var ms := was.(member := Member(node, tags.value, was.Status(), V1));
      Emit(s.(states := s.states[node.id := ms]), Updated, ms.member)
  }

  /** Keep an early intent if it is newer than the one already kept. */
  function UpsertIntent(intents: map<Id, Intent>, id: Id, kind: Kind, t: nat, now: nat): (map<Id, Intent>, bool) {
    if id in intents && t <= intents[id].ltime then (intents, false)
    else (intents[id := Intent(kind, t, now)], true)
  }

  /** The new state, and whether the message is to be gossiped on. */
  function JoinIntent(s0: Serf, id: Id, t: nat, now: nat): (Serf, bool) {
    var s := Witness(s0, t);
    if id in s.states then
      var was := s.states[id];
      if t <= was.statusTime then (s, false)
      else
        var status := if was.Status().Leaving? then Alive else was.Status();
        (s.(states := s.states[id := was.(statusTime := t, member := was.member.(status := status))]), true)
    else
      var (intents, newer) := UpsertIntent(s.intents, id, JoinKind, t, now);
      (s.(intents := intents), newer)
  }

  /** Erase a member at once. */
  function Prune(s: Serf, ms: MemberState): Serf {
    var stored := ms.Status().Leaving? || ms.Status().Left?;
    Emit(s.(left := if stored then Retain(s.left, ms.Id()) else s.left, states := s.states - {ms.Id()}),
         Reaped, ms.member)
  }

  /** `refute` holds the time of the join the node will broadcast about itself. */
  datatype Outcome = Outcome(serf: Serf, rebroadcast: bool, refute: Option<nat>)

  function LeaveIntent(s0: Serf, id: Id, t: nat, prune: bool, now: nat): Outcome {
    var s := Witness(s0, t);
    if id !in s.states then
      var (intents, newer) := UpsertIntent(s.intents, id, LeaveKind, t, now);
      Outcome(s.(intents := intents), newer, None)
    else if t <= s.states[id].statusTime then Outcome(s, false, None)
    else if id == s.localId && s.life.Running? then Outcome(s, false, Some(s.clock))
    else
      var was := s.states[id].(statusTime := t);
      match was.Status()
      case Nothing => Outcome(s.(states := s.states[id := was]), false, None)
      case Failed =>
        var ms := was.(member := was.member.(status := Left));
        var s' := Emit(s.(states := s.states[id := ms], failed := Retain(s.failed, ms.Id()), left := s.left + [ms]),
                       Departed, ms.member);
        Outcome(if prune then Prune(s', ms) else s', true, None)
      case _ =>
        var ms := if was.Status().Left? then was else was.(member := was.member.(status := Leaving));
        var s' := s.(states := s.states[id := ms]);
        Outcome(if prune then Prune(s', ms) else s', true, None)
  }

  /** Longer away than its timeout. A member without a leave time counts as expired. */
  predicate Expired(m: MemberState, now: nat, timeout: Member -> nat) {
    m.leaveTime.None? || now - m.leaveTime.value > timeout(m.member)
  }

  function SwapRemove(list: seq<MemberState>, i: nat): seq<MemberState>
    requires i < |list|
  {
    list[i := list[|list| - 1]][..|list| - 1]
  }

  /** The sweep of a side list from index `i` on: what stays in the list, and the
      entries taken out in the order they go. */
  function Sweep(list: seq<MemberState>, i: nat, now: nat, timeout: Member -> nat): (seq<MemberState>, seq<MemberState>)
    requires i <= |list|
    decreases |list| - i
  {
    if i == |list| then (list, [])
    else if !Expired(list[i], now, timeout) then Sweep(list, i + 1, now, timeout)
    else
      var (kept, gone) := Sweep(SwapRemove(list, i), i, now, timeout);
      (kept, [list[i]] + gone)
  }

  function Erase(s: Serf, gone: seq<MemberState>): Serf
    decreases |gone|
  {
    if gone == [] then s
    else Erase(Emit(s.(states := s.states - {gone[0].Id()}), Reaped, gone[0].member), gone[1..])
  }

  function ReapFailed(s: Serf, now: nat, timeout: Member -> nat): Serf {
    var (kept, gone) := Sweep(s.failed, 0, now, timeout);
    Erase(s.(failed := kept), gone)
  }

  function ReapLeft(s: Serf, now: nat, timeout: Member -> nat): Serf {
    var (kept, gone) := Sweep(s.left, 0, now, timeout);
    Erase(s.(left := kept), gone)
  }

  function ReapIntents(s: Serf, now: nat, timeout: nat): Serf {
    s.(intents := map id | id in s.intents && now - s.intents[id].wallTime <= timeout :: s.intents[id])
  }

  /** A join the node announces about itself, at startup of a join or as a refutation. */
  function BroadcastJoin(s: Serf, t: nat, now: nat): Serf {
    JoinIntent(Witness(s, t), s.localId, t, now).0
  }

  /** One step of a node. `Witnessing` stands for a clock update that other code
      does between two handlers, including the part of a handler that runs
      before the lock is taken. */
  datatype Action =
    | NodeJoins(node: Node, tags: Option<Tags>)
    | NodeLeaves(id: Id, now: nat)
    | NodeUpdates(node: Node, tags: Option<Tags>)
    | JoinArrives(id: Id, t: nat, now: nat)
    | LeaveArrives(id: Id, t: nat, prune: bool, now: nat)
    | Announces(t: nat, now: nat)
    | ReapsFailed(now: nat, timeout: Member -> nat)
    | ReapsLeft(now: nat, timeout: Member -> nat)
    | ReapsIntents(now: nat, limit: nat)
    | Witnessing(t: nat)
    | ChangesLife(life: SerfState)

  function Apply(s: Serf, a: Action): Serf {
    match a
    case NodeJoins(node, tags) => NodeJoin(s, node, tags)
    case NodeLeaves(id, now) => NodeLeave(s, id, now)
    case NodeUpdates(node, tags) => NodeUpdate(s, node, tags)
    case JoinArrives(id, t, now) => JoinIntent(s, id, t, now).0
    case LeaveArrives(id, t, prune, now) => LeaveIntent(s, id, t, prune, now).serf
    case Announces(t, now) => BroadcastJoin(s, t, now)
    case ReapsFailed(now, timeout) => ReapFailed(s, now, timeout)
    case ReapsLeft(now, timeout) => ReapLeft(s, now, timeout)
    case ReapsIntents(now, limit) => ReapIntents(s, now, limit)
    case Witnessing(t) => Witness(s, t)
    case ChangesLife(life) => s.(life := life)
  }

  function Run(s: Serf, actions: seq<Action>): Serf
    decreases |actions|
  {
    if actions == [] then s else Run(Apply(s, actions[0]), actions[1..])
  }
}
