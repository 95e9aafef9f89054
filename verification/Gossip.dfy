/** Gossip of join and leave intents through a cluster dies out.

    A cluster is any number of nodes with copies of messages in flight between
    them. A node that finds a message new hands it to its broadcast queue, which
    sends it on at most `fanout` times in all. Nodes refute leaves about
    themselves by announcing a join with a new time, so new messages do come up
    on the way. Copies may be lost, and nodes may take other steps meanwhile. */
module Gossip {
  import opened Types
  import opened Membership
  import opened MembershipInvariants

  datatype Msg = Msg(kind: Kind, id: Id, time: nat)

  /** What a node does with a gossiped intent. */
  function Handle(s: Serf, m: Msg, now: nat): Outcome {
    match m.kind
    case JoinKind => var (s', newer) := JoinIntent(s, m.id, m.time, now); Outcome(s', newer, None)
    case LeaveKind => LeaveIntent(s, m.id, m.time, false, now)
  }

  /** The same as a step of the node. */
  function StepFor(m: Msg, now: nat): Action {
    if m.kind.JoinKind? then JoinArrives(m.id, m.time, now) else LeaveArrives(m.id, m.time, false, now)
  }

  lemma HandleIsAStep(s: Serf, m: Msg, now: nat)
    ensures Handle(s, m, now).serf == Apply(s, StepFor(m, now))
  {
  }

  /** The newest time a node has taken note of for `id`; -1 before any. */
  function LastTime(s: Serf, id: Id): int {
    if id in s.states then s.states[id].statusTime
    else if id in s.intents then s.intents[id].ltime
    else -1
  }

  ghost predicate Later(s: Serf, s': Serf) {
    s'.localId == s.localId && forall id :: LastTime(s', id) >= LastTime(s, id)
  }

  /** A message is passed on exactly if it is newer than anything noted for that
      member, and is then noted; refuting is the exception. */
  ghost predicate Reacts(s: Serf, m: Msg, o: Outcome) {
    && (o.rebroadcast <==> m.time > LastTime(s, m.id) && o.refute.None?)
    && (o.rebroadcast ==> LastTime(o.serf, m.id) == m.time)
    && (o.refute.Some? ==> m.kind.LeaveKind? && m.id == s.localId && o.refute.value > m.time)
    && Later(s, o.serf) && Indexed(o.serf)
  }

  lemma RelayedExactlyIfNew(s: Serf, m: Msg, now: nat)
    requires Indexed(s)
    ensures Reacts(s, m, Handle(s, m, now))
  {
    if m.id in s.states { assert WellFormed(m.id, s.states[m.id]); }
    match m.kind
    case JoinKind => JoinIntentKeepsIndex(s, m.id, m.time, now);
    case LeaveKind => LeaveIntentKeepsIndex(s, m.id, m.time, false, now);
  }

  /** Why pruning leaves are no part of this: a pruning leave that erases a member
      erases the note of its time as well, so the same message is passed on a
      second time, exactly unless an intent at least as new was kept from before
      the member was known. */
  lemma PruningLeaveIsRelayedTwice(s: Serf, id: Id, t: nat, now: nat)
    requires Indexed(s) && id in s.states && id != s.localId && t > s.states[id].statusTime
    ensures var o := LeaveIntent(s, id, t, true, now);
            && o.rebroadcast && id !in o.serf.states
            && (LeaveIntent(o.serf, id, t, true, now).rebroadcast <==> !(id in s.intents && s.intents[id].ltime >= t))
  {
    assert WellFormed(id, s.states[id]);
  }

  /** Steps that neither erase a member or a kept intent, nor send anything. */
  predicate Quiet(s: Serf, a: Action) {
    match a
    case LeaveArrives(id, t, prune, now) => !prune && LeaveIntent(s, id, t, false, now).refute.None?
    case Announces(_, _) => false
    case ReapsFailed(_, _) => false
    case ReapsLeft(_, _) => false
    case ReapsIntents(_, _) => false
    case _ => true
  }

  lemma QuietStepsOnlyLearn(s: Serf, a: Action)
    requires Indexed(s) && Quiet(s, a)
    ensures Later(s, Apply(s, a)) && Indexed(Apply(s, a))
  {
    StepKeepsIndex(s, a);
    match a
    case LeaveArrives(id, t, prune, now) => RelayedExactlyIfNew(s, Msg(LeaveKind, id, t), now);
    case JoinArrives(id, t, now) => RelayedExactlyIfNew(s, Msg(JoinKind, id, t), now);
    case _ =>
  }

  // ----- The cluster -----

  datatype Packet = Packet(to: nat, msg: Msg)

  /** A refutation spawned by a node and not run yet. */
  datatype Task = Task(at: nat, time: nat)

  /** `leaveMsgs` and `joinMsgs` hold every message there has been; `relayed` who
      passed on what so far. */
  datatype Cluster = Cluster(
    nodes: seq<Serf>,
    leaves: multiset<Packet>,
    joins: multiset<Packet>,
    tasks: multiset<Task>,
    leaveMsgs: set<Msg>,
    joinMsgs: set<Msg>,
    relayed: seq<Packet>
  )

  ghost predicate Valid(c: Cluster) {
    && (forall i :: 0 <= i < |c.nodes| ==> Indexed(c.nodes[i]))
    && (forall p :: p in c.leaves ==> p.to < |c.nodes| && p.msg.kind.LeaveKind? && p.msg in c.leaveMsgs)
    && (forall p :: p in c.joins ==> p.to < |c.nodes| && p.msg.kind.JoinKind? && p.msg in c.joinMsgs)
    && (forall t :: t in c.tasks ==> t.at < |c.nodes| && Refutation(c, t) in c.joinMsgs)
  }

  function Refutation(c: Cluster, t: Task): Msg
    requires t.at < |c.nodes|
  {
    Msg(JoinKind, c.nodes[t.at].localId, t.time)
  }

  datatype Step =
    | DeliverLeave(p: Packet, now: nat, copies: multiset<Packet>)
    | DeliverJoin(p: Packet, now: nat, copies: multiset<Packet>)
    | RunTask(task: Task, now: nat, copies: multiset<Packet>)
    | LoseLeave(p: Packet)
    | LoseJoin(p: Packet)
    | Local(i: nat, a: Action)

  ghost predicate Copies(copies: multiset<Packet>, m: Msg, nodes: nat, limit: nat) {
    |copies| <= limit && forall p :: p in copies ==> p.msg == m && p.to < nodes
  }

  ghost predicate Enabled(c: Cluster, step: Step, fanout: nat)
    requires Valid(c)
  {
    match step
    case DeliverLeave(p, now, copies) =>
      && p in c.leaves
      && Copies(copies, p.msg, |c.nodes|, if Handle(c.nodes[p.to], p.msg, now).rebroadcast then fanout else 0)
    case DeliverJoin(p, now, copies) =>
      && p in c.joins
      && Copies(copies, p.msg, |c.nodes|, if Handle(c.nodes[p.to], p.msg, now).rebroadcast then fanout else 0)
    case RunTask(task, now, copies) =>
      task in c.tasks && Copies(copies, Refutation(c, task), |c.nodes|, fanout)
    case LoseLeave(p) => p in c.leaves
    case LoseJoin(p) => p in c.joins
    case Local(i, a) => i < |c.nodes| && Quiet(c.nodes[i], a)
  }

  function AfterLeave(c: Cluster, p: Packet, o: Outcome, copies: multiset<Packet>): Cluster
    requires p.to < |c.nodes|
  {
    var c' := c.(nodes := c.nodes[p.to := o.serf], leaves := c.leaves - multiset{p} + copies,
                 relayed := if o.rebroadcast then c.relayed + [p] else c.relayed);
    if o.refute.None? then c'
    else
      var task := Task(p.to, o.refute.value);
      c'.(tasks := c.tasks + multiset{task}, joinMsgs := c.joinMsgs + {Refutation(c, task)})
  }

  function AfterJoin(c: Cluster, p: Packet, o: Outcome, copies: multiset<Packet>): Cluster
    requires p.to < |c.nodes|
  {
    c.(nodes := c.nodes[p.to := o.serf], joins := c.joins - multiset{p} + copies,
       relayed := if o.rebroadcast then c.relayed + [p] else c.relayed)
  }

  function AfterTask(c: Cluster, task: Task, s': Serf, copies: multiset<Packet>): Cluster
    requires task.at < |c.nodes|
  {
    c.(nodes := c.nodes[task.at := s'], tasks := c.tasks - multiset{task}, joins := c.joins + copies)
  }

  ghost function Do(c: Cluster, step: Step, fanout: nat): Cluster
    requires Valid(c) && Enabled(c, step, fanout)
  {
    match step
    case DeliverLeave(p, now, copies) => AfterLeave(c, p, Handle(c.nodes[p.to], p.msg, now), copies)
    case DeliverJoin(p, now, copies) => AfterJoin(c, p, Handle(c.nodes[p.to], p.msg, now), copies)
    case RunTask(task, now, copies) =>
      AfterTask(c, task, BroadcastJoin(c.nodes[task.at], task.time, now), copies)
    case LoseLeave(p) => c.(leaves := c.leaves - multiset{p})
    case LoseJoin(p) => c.(joins := c.joins - multiset{p})
    case Local(i, a) => c.(nodes := c.nodes[i := Apply(c.nodes[i], a)])
  }

  // ----- What there is left to learn -----

  /** The messages a node would still find new. */
  function News(s: Serf, msgs: set<Msg>): set<Msg> {
    set m | m in msgs && m.time > LastTime(s, m.id)
  }

  function AllNews(nodes: seq<Serf>, msgs: set<Msg>): nat {
    if nodes == [] then 0 else |News(nodes[0], msgs)| + AllNews(nodes[1..], msgs)
  }

  lemma NewsShrinks(s: Serf, s': Serf, msgs: set<Msg>)
    requires Later(s, s')
    ensures News(s', msgs) <= News(s, msgs) && |News(s', msgs)| <= |News(s, msgs)|
  {
    forall m | m in News(s', msgs) ensures m in News(s, msgs) { assert LastTime(s', m.id) >= LastTime(s, m.id); }
    SmallerSet(News(s', msgs), News(s, msgs));
  }

  lemma SmallerSet<T>(a: set<T>, b: set<T>)
    requires a <= b
    ensures |a| <= |b| && (a < b ==> |a| < |b|)
  {
    assert b == a + (b - a);
  }

  /** Learning one message that was news leaves less news. */
  lemma LearningIsProgress(s: Serf, s': Serf, msgs: set<Msg>, m: Msg)
    requires Later(s, s') && m in msgs && m.time > LastTime(s, m.id) && LastTime(s', m.id) >= m.time
    ensures |News(s', msgs)| < |News(s, msgs)|
  {
    NewsShrinks(s, s', msgs);
    assert m in News(s, msgs) && m !in News(s', msgs);
    SmallerSet(News(s', msgs), News(s, msgs));
  }

  lemma {:induction false} OneNodeChanges(nodes: seq<Serf>, i: nat, s': Serf, msgs: set<Msg>)
    requires i < |nodes|
    ensures AllNews(nodes[i := s'], msgs) == AllNews(nodes, msgs) - |News(nodes[i], msgs)| + |News(s', msgs)|
  {
    if i == 0 {
      assert nodes[0 := s'][1..] == nodes[1..];
    } else {
      assert nodes[i := s'][1..] == nodes[1..][i - 1 := s'];
      OneNodeChanges(nodes[1..], i - 1, s', msgs);
    }
  }

  lemma {:induction false} OneMoreMessage(nodes: seq<Serf>, msgs: set<Msg>, m: Msg)
    ensures AllNews(nodes, msgs + {m}) <= AllNews(nodes, msgs) + |nodes|
  {
    if nodes == [] {
    } else {
      OneMoreMessage(nodes[1..], msgs, m);
      SmallerSet(News(nodes[0], msgs + {m}), News(nodes[0], msgs) + {m});
    }
  }

  /** A debt is something still to be learned or run: it may cost `fanout` copies
      when it is settled. A copy in flight costs one delivery. */
  function Ledger(fanout: nat, debts: nat, copies: nat): nat {
    (fanout + 1) * debts + copies
  }

  function LeaveWork(c: Cluster, fanout: nat): nat {
    Ledger(fanout, AllNews(c.nodes, c.leaveMsgs), |c.leaves|)
  }

  function JoinWork(c: Cluster, fanout: nat): nat {
    Ledger(fanout, AllNews(c.nodes, c.joinMsgs) + |c.tasks|, |c.joins|)
  }

  /** What one refutation can add to the join work: news for every node, and its task. */
  function RefutationCost(nodes: nat, fanout: nat): nat {
    Ledger(fanout, nodes + 1, 0)
  }

  function Work(c: Cluster, fanout: nat): nat {
    LeaveWork(c, fanout) * (RefutationCost(|c.nodes|, fanout) + 1) + JoinWork(c, fanout)
  }

  /** What one changed node does to the news of all: less by what it learned. */
  lemma NewsAfter(nodes: seq<Serf>, i: nat, s': Serf, msgs: set<Msg>, learned: Option<Msg>)
    requires i < |nodes| && Later(nodes[i], s')
    requires learned.Some? ==>
               var m := learned.value; m in msgs && LastTime(nodes[i], m.id) < m.time <= LastTime(s', m.id)
    ensures AllNews(nodes[i := s'], msgs) + (if learned.Some? then 1 else 0) <= AllNews(nodes, msgs)
  {
    OneNodeChanges(nodes, i, s', msgs);
    NewsShrinks(nodes[i], s', msgs);
    if learned.Some? { LearningIsProgress(nodes[i], s', msgs, learned.value); }
  }

  /** Settling a debt pays for the copies it sends. */
  lemma Settled(fanout: nat, debts': nat, copies': nat, debts: nat, copies: nat, settles: bool)
    requires debts' + (if settles then 1 else 0) <= debts && copies' <= copies + (if settles then fanout else 0)
    ensures Ledger(fanout, debts', copies') + (if settles then 1 else 0) <= Ledger(fanout, debts, copies)
    ensures copies' < copies ==> Ledger(fanout, debts', copies') < Ledger(fanout, debts, copies)
  {
    var d := debts - debts';
    assert (fanout + 1) * debts == (fanout + 1) * debts' + (fanout + 1) * d;
    if settles { assert (fanout + 1) * d >= (fanout + 1) * 1; }
  }

  lemma LeaveDeliveryIsProgress(c: Cluster, p: Packet, o: Outcome, copies: multiset<Packet>, fanout: nat)
    requires p in c.leaves && p.to < |c.nodes| && p.msg in c.leaveMsgs && Reacts(c.nodes[p.to], p.msg, o)
    requires |copies| <= (if o.rebroadcast then fanout else 0)
    ensures var c' := AfterLeave(c, p, o, copies);
            && LeaveWork(c', fanout) < LeaveWork(c, fanout)
            && JoinWork(c', fanout) <= JoinWork(c, fanout) + RefutationCost(|c.nodes|, fanout)
  {
    var c' := AfterLeave(c, p, o, copies);
    NewsAfter(c.nodes, p.to, o.serf, c.leaveMsgs, if o.rebroadcast then Some(p.msg) else None);
    assert |c'.leaves| == |c.leaves| - 1 + |copies|;
    Settled(fanout, AllNews(c'.nodes, c.leaveMsgs), |c'.leaves|,
            AllNews(c.nodes, c.leaveMsgs), |c.leaves|, o.rebroadcast);
    RefutationAddsLittle(c, p, o, copies, fanout);
  }

  lemma RefutationAddsLittle(c: Cluster, p: Packet, o: Outcome, copies: multiset<Packet>, fanout: nat)
    requires p.to < |c.nodes| && Later(c.nodes[p.to], o.serf)
    ensures JoinWork(AfterLeave(c, p, o, copies), fanout) <= JoinWork(c, fanout) + RefutationCost(|c.nodes|, fanout)
  {
    var c' := AfterLeave(c, p, o, copies);
    NewsAfter(c.nodes, p.to, o.serf, c.joinMsgs, None);
    var debts := AllNews(c.nodes, c.joinMsgs) + |c.tasks|;
    var debts' := AllNews(c'.nodes, c'.joinMsgs) + |c'.tasks|;
    if o.refute.Some? {
      OneMoreMessage(c'.nodes, c.joinMsgs, Refutation(c, Task(p.to, o.refute.value)));
      assert |c'.tasks| == |c.tasks| + 1;
    }
    assert debts' <= debts + (|c.nodes| + 1);
    Settled(fanout, debts', |c.joins|, debts + (|c.nodes| + 1), |c.joins|, false);
    assert (fanout + 1) * (debts + (|c.nodes| + 1)) == (fanout + 1) * debts + (fanout + 1) * (|c.nodes| + 1);
  }

  lemma JoinDeliveryIsProgress(c: Cluster, p: Packet, o: Outcome, copies: multiset<Packet>, fanout: nat)
    requires p in c.joins && p.to < |c.nodes| && p.msg in c.joinMsgs && Reacts(c.nodes[p.to], p.msg, o)
    requires |copies| <= (if o.rebroadcast then fanout else 0)
    ensures var c' := AfterJoin(c, p, o, copies);
            LeaveWork(c', fanout) <= LeaveWork(c, fanout) && JoinWork(c', fanout) < JoinWork(c, fanout)
  {
    var c' := AfterJoin(c, p, o, copies);
    NewsAfter(c.nodes, p.to, o.serf, c.leaveMsgs, None);
    Settled(fanout, AllNews(c'.nodes, c.leaveMsgs), |c.leaves|, AllNews(c.nodes, c.leaveMsgs), |c.leaves|, false);
    NewsAfter(c.nodes, p.to, o.serf, c.joinMsgs, if o.rebroadcast then Some(p.msg) else None);
    assert |c'.joins| == |c.joins| - 1 + |copies|;
    Settled(fanout, AllNews(c'.nodes, c.joinMsgs) + |c.tasks|, |c'.joins|,
            AllNews(c.nodes, c.joinMsgs) + |c.tasks|, |c.joins|, o.rebroadcast);
  }

  /** A node replaced by one that has only learned does not add work. */
  lemma LearningAddsNoWork(c: Cluster, i: nat, s': Serf, fanout: nat)
    requires i < |c.nodes| && Later(c.nodes[i], s')
    ensures var c' := c.(nodes := c.nodes[i := s']);
            LeaveWork(c', fanout) <= LeaveWork(c, fanout) && JoinWork(c', fanout) <= JoinWork(c, fanout)
  {
    var nodes := c.nodes[i := s'];
    NewsAfter(c.nodes, i, s', c.leaveMsgs, None);
    NewsAfter(c.nodes, i, s', c.joinMsgs, None);
    Settled(fanout, AllNews(nodes, c.leaveMsgs), |c.leaves|, AllNews(c.nodes, c.leaveMsgs), |c.leaves|, false);
    Settled(fanout, AllNews(nodes, c.joinMsgs) + |c.tasks|, |c.joins|,
            AllNews(c.nodes, c.joinMsgs) + |c.tasks|, |c.joins|, false);
  }

  lemma TaskIsProgress(c: Cluster, task: Task, s': Serf, copies: multiset<Packet>, fanout: nat)
    requires task in c.tasks && task.at < |c.nodes| && Later(c.nodes[task.at], s') && |copies| <= fanout
    ensures var c' := AfterTask(c, task, s', copies);
            LeaveWork(c', fanout) <= LeaveWork(c, fanout) && JoinWork(c', fanout) < JoinWork(c, fanout)
  {
    var c' := AfterTask(c, task, s', copies);
    LearningAddsNoWork(c, task.at, s', fanout);
    NewsAfter(c.nodes, task.at, s', c.joinMsgs, None);
    assert |c'.tasks| == |c.tasks| - 1 && |c'.joins| == |c.joins| + |copies|;
    Settled(fanout, AllNews(c'.nodes, c.joinMsgs) + |c'.tasks|, |c'.joins|,
            AllNews(c.nodes, c.joinMsgs) + |c.tasks|, |c.joins|, true);
  }

  /** Lexicographic progress as progress of one number. */
  lemma Weighted(l': nat, l: nat, j': nat, j: nat, cost: nat)
    requires (l' < l && j' <= j + cost) || (l' <= l && j' <= j)
    ensures l' * (cost + 1) + j' <= l * (cost + 1) + j
    ensures l' < l || j' < j ==> l' * (cost + 1) + j' < l * (cost + 1) + j
  {
    var d := l - l';
    assert l * (cost + 1) == l' * (cost + 1) + d * (cost + 1);
    if d > 0 { assert d * (cost + 1) >= 1 * (cost + 1); }
  }

  ghost predicate Progress(c: Cluster, c': Cluster, gossip: bool, fanout: nat) {
    var (l', l, j', j) := (LeaveWork(c', fanout), LeaveWork(c, fanout), JoinWork(c', fanout), JoinWork(c, fanout));
    && |c'.nodes| == |c.nodes|
    && (|| (l' < l && j' <= j + RefutationCost(|c.nodes|, fanout))
        || (l' <= l && (if gossip then j' < j else j' <= j)))
  }

  /** What a step does to one node, said without looking into the handlers. */
  lemma StepFacts(c: Cluster, step: Step)
    requires Valid(c)
    ensures match step
            case DeliverLeave(p, now, _) =>
              p in c.leaves ==> Reacts(c.nodes[p.to], p.msg, Handle(c.nodes[p.to], p.msg, now))
            case DeliverJoin(p, now, _) =>
              p in c.joins ==> Reacts(c.nodes[p.to], p.msg, Handle(c.nodes[p.to], p.msg, now))
            case RunTask(t, now, _) =>
              t in c.tasks ==>
                var s' := BroadcastJoin(c.nodes[t.at], t.time, now); Later(c.nodes[t.at], s') && Indexed(s')
            case Local(i, a) =>
              i < |c.nodes| && Quiet(c.nodes[i], a) ==>
                var s' := Apply(c.nodes[i], a); Later(c.nodes[i], s') && Indexed(s')
            case _ => true
  {
    match step
    case DeliverLeave(p, now, _) => if p in c.leaves { RelayedExactlyIfNew(c.nodes[p.to], p.msg, now); }
    case DeliverJoin(p, now, _) => if p in c.joins { RelayedExactlyIfNew(c.nodes[p.to], p.msg, now); }
    case RunTask(t, now, _) =>
      if t in c.tasks {
        RelayedExactlyIfNew(Witness(c.nodes[t.at], t.time), Msg(JoinKind, c.nodes[t.at].localId, t.time), now);
      }
    case Local(i, a) => if i < |c.nodes| && Quiet(c.nodes[i], a) { QuietStepsOnlyLearn(c.nodes[i], a); }
    case _ =>
  }

  lemma StepIsProgress(c: Cluster, step: Step, fanout: nat)
    requires Valid(c) && Enabled(c, step, fanout)
    ensures Progress(c, Do(c, step, fanout), !step.Local?, fanout)
  {
    StepFacts(c, step);
    match step
    case DeliverLeave(p, now, copies) =>
      LeaveDeliveryIsProgress(c, p, Handle(c.nodes[p.to], p.msg, now), copies, fanout);
    case DeliverJoin(p, now, copies) =>
      JoinDeliveryIsProgress(c, p, Handle(c.nodes[p.to], p.msg, now), copies, fanout);
    case RunTask(task, now, copies) =>
      TaskIsProgress(c, task, BroadcastJoin(c.nodes[task.at], task.time, now), copies, fanout);
    case Local(i, a) => LearningAddsNoWork(c, i, Apply(c.nodes[i], a), fanout);
    case LoseLeave(p) => LosingIsProgress(c, c.(leaves := c.leaves - multiset{p}), fanout);
    case LoseJoin(p) => LosingIsProgress(c, c.(joins := c.joins - multiset{p}), fanout);
  }

  lemma LosingIsProgress(c: Cluster, c': Cluster, fanout: nat)
    requires c' == c.(leaves := c'.leaves, joins := c'.joins)
    requires (c'.leaves == c.leaves && |c'.joins| < |c.joins|) || (|c'.leaves| < |c.leaves| && c'.joins == c.joins)
    ensures Progress(c, c', true, fanout)
  {
  }

  /** Every gossip step uses up work, and no other step adds any. */
  lemma GossipUsesUpWork(c: Cluster, step: Step, fanout: nat)
    requires Valid(c) && Enabled(c, step, fanout)
    ensures Work(Do(c, step, fanout), fanout) + (if step.Local? then 0 else 1) <= Work(c, fanout)
  {
    StepIsProgress(c, step, fanout);
    ProgressUsesUpWork(c, Do(c, step, fanout), !step.Local?, fanout);
  }

  lemma ProgressUsesUpWork(c: Cluster, c': Cluster, gossip: bool, fanout: nat)
    requires Progress(c, c', gossip, fanout)
    ensures Work(c', fanout) + (if gossip then 1 else 0) <= Work(c, fanout)
  {
    Weighted(LeaveWork(c', fanout), LeaveWork(c, fanout), JoinWork(c', fanout), JoinWork(c, fanout),
             RefutationCost(|c.nodes|, fanout));
  }

  ghost predicate Advances(c: Cluster, c': Cluster) {
    && Valid(c') && |c'.nodes| == |c.nodes|
    && forall i :: 0 <= i < |c.nodes| ==> Later(c.nodes[i], c'.nodes[i])
  }

  /** One node moved on, and the packets and messages stay accounted for. */
  lemma ValidAfter(c: Cluster, i: nat, s': Serf, c': Cluster)
    requires Valid(c) && i < |c.nodes| && Later(c.nodes[i], s') && Indexed(s') && c'.nodes == c.nodes[i := s']
    requires c.leaveMsgs <= c'.leaveMsgs && c.joinMsgs <= c'.joinMsgs
    requires forall p :: p in c'.leaves && p !in c.leaves ==>
               p.to < |c.nodes| && p.msg.kind.LeaveKind? && p.msg in c'.leaveMsgs
    requires forall p :: p in c'.joins && p !in c.joins ==>
               p.to < |c.nodes| && p.msg.kind.JoinKind? && p.msg in c'.joinMsgs
    requires forall t :: t in c'.tasks && t !in c.tasks ==> t.at < |c.nodes| && Refutation(c, t) in c'.joinMsgs
    ensures Advances(c, c')
  {
    forall t | t in c'.tasks ensures t.at < |c'.nodes| && Refutation(c', t) in c'.joinMsgs {
      assert t.at < |c.nodes| && Refutation(c', t) == Refutation(c, t);
    }
  }

  lemma LeaveKeepsValid(c: Cluster, p: Packet, o: Outcome, copies: multiset<Packet>)
    requires Valid(c) && p in c.leaves && Reacts(c.nodes[p.to], p.msg, o) && Copies(copies, p.msg, |c.nodes|, |copies|)
    ensures Advances(c, AfterLeave(c, p, o, copies))
  {
    ValidAfter(c, p.to, o.serf, AfterLeave(c, p, o, copies));
  }

  lemma JoinKeepsValid(c: Cluster, p: Packet, o: Outcome, copies: multiset<Packet>)
    requires Valid(c) && p in c.joins && Reacts(c.nodes[p.to], p.msg, o) && Copies(copies, p.msg, |c.nodes|, |copies|)
    ensures Advances(c, AfterJoin(c, p, o, copies))
  {
    ValidAfter(c, p.to, o.serf, AfterJoin(c, p, o, copies));
  }

  lemma TaskKeepsValid(c: Cluster, task: Task, s': Serf, copies: multiset<Packet>)
    requires Valid(c) && task in c.tasks && Later(c.nodes[task.at], s') && Indexed(s')
    requires Copies(copies, Refutation(c, task), |c.nodes|, |copies|)
    ensures Advances(c, AfterTask(c, task, s', copies))
  {
    ValidAfter(c, task.at, s', AfterTask(c, task, s', copies));
  }

  lemma LocalKeepsValid(c: Cluster, i: nat, s': Serf)
    requires Valid(c) && i < |c.nodes| && Later(c.nodes[i], s') && Indexed(s')
    ensures Advances(c, c.(nodes := c.nodes[i := s']))
  {
    ValidAfter(c, i, s', c.(nodes := c.nodes[i := s']));
  }

  lemma LossKeepsValid(c: Cluster, c': Cluster)
    requires Valid(c) && c' == c.(leaves := c'.leaves, joins := c'.joins)
    requires c'.leaves <= c.leaves && c'.joins <= c.joins
    ensures Advances(c, c')
  {
    forall t | t in c'.tasks ensures Refutation(c', t) in c'.joinMsgs { assert Refutation(c', t) == Refutation(c, t); }
  }

  lemma StepKeepsValid(c: Cluster, step: Step, fanout: nat)
    requires Valid(c) && Enabled(c, step, fanout)
    ensures Advances(c, Do(c, step, fanout))
  {
    StepFacts(c, step);
    match step
    case DeliverLeave(p, now, copies) => LeaveKeepsValid(c, p, Handle(c.nodes[p.to], p.msg, now), copies);
    case DeliverJoin(p, now, copies) => JoinKeepsValid(c, p, Handle(c.nodes[p.to], p.msg, now), copies);
    case RunTask(task, now, copies) => TaskKeepsValid(c, task, BroadcastJoin(c.nodes[task.at], task.time, now), copies);
    case Local(i, a) => LocalKeepsValid(c, i, Apply(c.nodes[i], a));
    case LoseLeave(p) => LossKeepsValid(c, Do(c, step, fanout));
    case LoseJoin(p) => LossKeepsValid(c, Do(c, step, fanout));
  }

  // ----- Runs -----

  ghost predicate Runnable(c: Cluster, steps: seq<Step>, fanout: nat)
    requires Valid(c)
    decreases |steps|
  {
    steps == [] ||
    (Enabled(c, steps[0], fanout) &&
     (StepKeepsValid(c, steps[0], fanout); Runnable(Do(c, steps[0], fanout), steps[1..], fanout)))
  }

  ghost function Run(c: Cluster, steps: seq<Step>, fanout: nat): Cluster
    requires Valid(c) && Runnable(c, steps, fanout)
    decreases |steps|
  {
    if steps == [] then c
    else StepKeepsValid(c, steps[0], fanout); Run(Do(c, steps[0], fanout), steps[1..], fanout)
  }

  function GossipSteps(steps: seq<Step>): nat {
    if steps == [] then 0 else (if steps[0].Local? then 0 else 1) + GossipSteps(steps[1..])
  }

  /** In every run, of whatever length and order, the gossip steps are bounded by
      the work there is at the start: floods, and the floods of refutations they
      set off, all die out. */
  lemma {:induction false} FloodsDieOut(c: Cluster, steps: seq<Step>, fanout: nat)
    requires Valid(c) && Runnable(c, steps, fanout)
    ensures GossipSteps(steps) <= Work(c, fanout)
    decreases |steps|
  {
    if steps == [] {
    } else {
      StepKeepsValid(c, steps[0], fanout);
      GossipUsesUpWork(c, steps[0], fanout);
      FloodsDieOut(Do(c, steps[0], fanout), steps[1..], fanout);
    }
  }

  predicate SameTopic(p: Packet, q: Packet) {
    p.to == q.to && p.msg.id == q.msg.id
  }

  /** Every relayed message has been noted by its relay, and no relay has passed
      on two messages about one member with the same time. */
  ghost predicate RelayedOnce(c: Cluster) {
    && (forall k :: 0 <= k < |c.relayed| ==>
          c.relayed[k].to < |c.nodes| &&
          c.relayed[k].msg.time <= LastTime(c.nodes[c.relayed[k].to], c.relayed[k].msg.id))
    && (forall j, k :: 0 <= j < k < |c.relayed| && SameTopic(c.relayed[j], c.relayed[k]) ==>
          c.relayed[j].msg.time < c.relayed[k].msg.time)
  }

  lemma NotedStaysNoted(c: Cluster, c': Cluster)
    requires RelayedOnce(c) && |c'.nodes| == |c.nodes|
    requires forall i :: 0 <= i < |c.nodes| ==> Later(c.nodes[i], c'.nodes[i])
    ensures forall k :: 0 <= k < |c.relayed| ==>
              c.relayed[k].msg.time <= LastTime(c'.nodes[c.relayed[k].to], c.relayed[k].msg.id)
  {
    forall k | 0 <= k < |c.relayed|
      ensures c.relayed[k].msg.time <= LastTime(c'.nodes[c.relayed[k].to], c.relayed[k].msg.id)
    {
      assert Later(c.nodes[c.relayed[k].to], c'.nodes[c.relayed[k].to]);
    }
  }

  lemma RelayedOnceAfter(c: Cluster, c': Cluster, p: Packet, o: Outcome)
    requires RelayedOnce(c) && |c'.nodes| == |c.nodes| && p.to < |c.nodes| && Reacts(c.nodes[p.to], p.msg, o)
    requires c'.nodes[p.to] == o.serf && forall i :: 0 <= i < |c.nodes| ==> Later(c.nodes[i], c'.nodes[i])
    requires c'.relayed == if o.rebroadcast then c.relayed + [p] else c.relayed
    ensures RelayedOnce(c')
  {
    NotedStaysNoted(c, c');
    if o.rebroadcast {
      forall j | 0 <= j < |c.relayed| && SameTopic(c.relayed[j], p) ensures c.relayed[j].msg.time < p.msg.time {
        assert c.relayed[j].msg.time <= LastTime(c.nodes[p.to], p.msg.id);
      }
      OneMoreRelayed(c, c', p);
    }
  }

  lemma OneMoreRelayed(c: Cluster, c': Cluster, p: Packet)
    requires RelayedOnce(c) && |c'.nodes| == |c.nodes| && p.to < |c.nodes| && c'.relayed == c.relayed + [p]
    requires forall k :: 0 <= k < |c.relayed| ==>
               c.relayed[k].msg.time <= LastTime(c'.nodes[c.relayed[k].to], c.relayed[k].msg.id)
    requires p.msg.time <= LastTime(c'.nodes[p.to], p.msg.id)
    requires forall j :: 0 <= j < |c.relayed| && SameTopic(c.relayed[j], p) ==> c.relayed[j].msg.time < p.msg.time
    ensures RelayedOnce(c')
  {
    forall j, k | 0 <= j < k < |c'.relayed| && SameTopic(c'.relayed[j], c'.relayed[k])
      ensures c'.relayed[j].msg.time < c'.relayed[k].msg.time
    {
      assert c'.relayed[j] == c.relayed[j];
    }
  }

  lemma StepKeepsRelayedOnce(c: Cluster, step: Step, fanout: nat)
    requires Valid(c) && Enabled(c, step, fanout) && RelayedOnce(c)
    ensures RelayedOnce(Do(c, step, fanout))
  {
    StepKeepsValid(c, step, fanout);
    StepFacts(c, step);
    var c' := Do(c, step, fanout);
    if step.DeliverLeave? || step.DeliverJoin? {
      RelayedOnceAfter(c, c', step.p, Handle(c.nodes[step.p.to], step.p.msg, step.now));
    } else {
      NotedStaysNoted(c, c');
    }
  }

  /** In every run each node passes on each (member, time) at most once. */
  lemma {:induction false} EachNodeRelaysOnce(c: Cluster, steps: seq<Step>, fanout: nat)
    requires Valid(c) && RelayedOnce(c) && Runnable(c, steps, fanout)
    ensures RelayedOnce(Run(c, steps, fanout))
    decreases |steps|
  {
    if steps == [] {
    } else {
      StepKeepsValid(c, steps[0], fanout);
      StepKeepsRelayedOnce(c, steps[0], fanout);
      EachNodeRelaysOnce(Do(c, steps[0], fanout), steps[1..], fanout);
    }
  }
}
