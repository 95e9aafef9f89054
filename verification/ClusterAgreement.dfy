/** The nodes of a gossiping cluster agree on a member. */
module ClusterAgreement {
  import opened Types
  import opened Membership
  import opened MembershipInvariants
  import opened IntentConvergence
  import Gossip

  /** What a step of the cluster makes node `i` do. */
  function ActionAt(step: Gossip.Step, i: nat): seq<Action> {
    match step
    case DeliverLeave(p, now, _) => if p.to == i then [LeaveArrives(p.msg.id, p.msg.time, false, now)] else []
    case DeliverJoin(p, now, _) => if p.to == i then [JoinArrives(p.msg.id, p.msg.time, now)] else []
    case RunTask(task, now, _) => if task.at == i then [Announces(task.time, now)] else []
    case Local(j, a) => if j == i then [a] else []
    case _ => []
  }

  function ActionsAt(steps: seq<Gossip.Step>, i: nat): seq<Action> {
    if steps == [] then [] else ActionAt(steps[0], i) + ActionsAt(steps[1..], i)
  }

  lemma StepOfNode(c: Gossip.Cluster, step: Gossip.Step, fanout: nat, i: nat)
    requires Gossip.Valid(c) && Gossip.Enabled(c, step, fanout) && i < |c.nodes|
    ensures var c' := Gossip.Do(c, step, fanout);
            && |c'.nodes| == |c.nodes|
            && c'.nodes[i] == (if ActionAt(step, i) == [] then c.nodes[i] else Apply(c.nodes[i], ActionAt(step, i)[0]))
  {
    match step
    case DeliverLeave(p, now, copies) => LeaveOfNode(c, p, now, copies, i);
    case DeliverJoin(p, now, copies) => JoinOfNode(c, p, now, copies, i);
    case RunTask(task, now, copies) => TaskOfNode(c, task, now, copies, i);
    case Local(j, a) => LocalOfNode(c, j, Apply(c.nodes[j], a), i);
    case _ =>
  }

  lemma TaskOfNode(c: Gossip.Cluster, task: Gossip.Task, now: nat, copies: multiset<Gossip.Packet>, i: nat)
    requires task.at < |c.nodes| && i < |c.nodes|
    ensures var nodes := Gossip.AfterTask(c, task, BroadcastJoin(c.nodes[task.at], task.time, now), copies).nodes;
            && |nodes| == |c.nodes|
            && nodes[i] == if task.at == i then Apply(c.nodes[i], Announces(task.time, now)) else c.nodes[i]
  {
  }

  lemma LocalOfNode(c: Gossip.Cluster, j: nat, s: Serf, i: nat)
    requires j < |c.nodes| && i < |c.nodes|
    ensures c.(nodes := c.nodes[j := s]).nodes[i] == if j == i then s else c.nodes[i]
  {
  }

  lemma LeaveOfNode(c: Gossip.Cluster, p: Gossip.Packet, now: nat, copies: multiset<Gossip.Packet>, i: nat)
    requires p.to < |c.nodes| && p.msg.kind.LeaveKind? && i < |c.nodes|
    ensures var nodes := Gossip.AfterLeave(c, p, Gossip.Handle(c.nodes[p.to], p.msg, now), copies).nodes;
            && |nodes| == |c.nodes|
            && nodes[i] == if p.to != i then c.nodes[i]
                           else Apply(c.nodes[i], LeaveArrives(p.msg.id, p.msg.time, false, now))
  {
    NodesAfterLeave(c, p, Gossip.Handle(c.nodes[p.to], p.msg, now), copies);
    Gossip.HandleIsAStep(c.nodes[p.to], p.msg, now);
  }

  lemma JoinOfNode(c: Gossip.Cluster, p: Gossip.Packet, now: nat, copies: multiset<Gossip.Packet>, i: nat)
    requires p.to < |c.nodes| && p.msg.kind.JoinKind? && i < |c.nodes|
    ensures var nodes := Gossip.AfterJoin(c, p, Gossip.Handle(c.nodes[p.to], p.msg, now), copies).nodes;
            && |nodes| == |c.nodes|
            && nodes[i] == if p.to == i then Apply(c.nodes[i], JoinArrives(p.msg.id, p.msg.time, now)) else c.nodes[i]
  {
    NodesAfterJoin(c, p, Gossip.Handle(c.nodes[p.to], p.msg, now), copies);
    Gossip.HandleIsAStep(c.nodes[p.to], p.msg, now);
  }

  lemma NodesAfterLeave(c: Gossip.Cluster, p: Gossip.Packet, o: Outcome, copies: multiset<Gossip.Packet>)
    requires p.to < |c.nodes|
    ensures Gossip.AfterLeave(c, p, o, copies).nodes == c.nodes[p.to := o.serf]
  {
  }

  lemma NodesAfterJoin(c: Gossip.Cluster, p: Gossip.Packet, o: Outcome, copies: multiset<Gossip.Packet>)
    requires p.to < |c.nodes|
    ensures Gossip.AfterJoin(c, p, o, copies).nodes == c.nodes[p.to := o.serf]
  {
  }

  /** In a run of the cluster each node makes the run of its own actions. */
  lemma {:induction false} RunOfNode(c: Gossip.Cluster, steps: seq<Gossip.Step>, fanout: nat, i: nat)
    requires Gossip.Valid(c) && Gossip.Runnable(c, steps, fanout) && i < |c.nodes|
    ensures var c' := Gossip.Run(c, steps, fanout);
            |c'.nodes| == |c.nodes| && c'.nodes[i] == Run(c.nodes[i], ActionsAt(steps, i))
    decreases |steps|
  {
    if steps == [] {
    } else {
      Gossip.StepKeepsValid(c, steps[0], fanout);
      StepOfNode(c, steps[0], fanout, i);
      RunOfNode(Gossip.Do(c, steps[0], fanout), steps[1..], fanout, i);
      RunFromFront(c.nodes[i], ActionAt(steps[0], i), ActionsAt(steps[1..], i));
    }
  }

  lemma RunFromFront(s: Serf, first: seq<Action>, rest: seq<Action>)
    requires |first| <= 1
    ensures Run(s, first + rest) == Run(if first == [] then s else Apply(s, first[0]), rest)
  {
    if first == [] {
      assert first + rest == rest;
    } else {
      assert (first + rest)[1..] == rest;
    }
  }

  /** Node `i` is not the member itself, starts out knowing nothing of it, and hears the
      intents about it around its one join, in any order and any number of times. */
  ghost predicate Listens(c: Gossip.Cluster, steps: seq<Gossip.Step>, i: nat, id: Id, intents: set<Delivery>)
    requires i < |c.nodes|
  {
    var (s, run) := (c.nodes[i], ActionsAt(steps, i));
    && id != s.localId && id !in s.states && id !in s.intents
    && AllGentle(s, run, id) && Schedule(AllAbout(run, id), intents)
  }

  /** Two nodes hold the same status and status time for the member. */
  ghost predicate Agree(a: Serf, b: Serf, id: Id) {
    && id in a.states && id in b.states
    && a.states[id].Status() == b.states[id].Status() && a.states[id].statusTime == b.states[id].statusTime
  }

  /** In every run of a cluster, whatever is gossiped, lost, refuted or done besides, all
      nodes that hear the same decisive intents about a member end with the same status
      and status time for it. */
  lemma ClusterAgrees(c: Gossip.Cluster, steps: seq<Gossip.Step>, fanout: nat, id: Id, intents: set<Delivery>)
    requires Gossip.Valid(c) && Gossip.Runnable(c, steps, fanout) && Decisive(intents)
    ensures var c' := Gossip.Run(c, steps, fanout);
            && |c'.nodes| == |c.nodes|
            && forall i, j | 0 <= i < |c.nodes| && 0 <= j < |c.nodes| ::
                 Listens(c, steps, i, id, intents) && Listens(c, steps, j, id, intents) ==>
                   Agree(c'.nodes[i], c'.nodes[j], id)
  {
    var c' := Gossip.Run(c, steps, fanout);
    SameNumber(c, steps, fanout);
    forall i, j | 0 <= i < |c.nodes| && 0 <= j < |c.nodes|
      ensures Listens(c, steps, i, id, intents) && Listens(c, steps, j, id, intents) ==>
                Agree(c'.nodes[i], c'.nodes[j], id)
    {
      if Listens(c, steps, i, id, intents) && Listens(c, steps, j, id, intents) {
        RunOfNode(c, steps, fanout, i);
        RunOfNode(c, steps, fanout, j);
        NodesAgreeOnMember(c.nodes[i], ActionsAt(steps, i), c.nodes[j], ActionsAt(steps, j), id, intents);
      }
    }
  }

  lemma {:induction false} SameNumber(c: Gossip.Cluster, steps: seq<Gossip.Step>, fanout: nat)
    requires Gossip.Valid(c) && Gossip.Runnable(c, steps, fanout)
    ensures |Gossip.Run(c, steps, fanout).nodes| == |c.nodes|
    decreases |steps|
  {
    if steps == [] {
    } else {
      Gossip.StepKeepsValid(c, steps[0], fanout);
      SameNumber(Gossip.Do(c, steps[0], fanout), steps[1..], fanout);
    }
  }
}
