/** Join and leave intents about one member behave as a last-writer-wins
    register, however they are delivered. */
module IntentConvergence {
  import opened Types
  import opened Membership
  import opened MembershipInvariants

  // ----- The register -----

  /** What a node holds about one member that has neither failed nor left. */
  datatype Register =
    | Absent                         // neither known nor heard of
    | Buffered(kind: Kind, time: nat) // not known yet, newest intent kept
    | Known(leaving: bool, time: nat)

  datatype Delivery = Arrives(kind: Kind, time: nat) | Appears

  function Deliver(r: Register, d: Delivery): Register {
    match d
    case Arrives(kind, time) => (
      match r
      case Absent => Buffered(kind, time)
      case Buffered(_, t) => if time > t then Buffered(kind, time) else r
      case Known(_, t) => if time > t then Known(kind.LeaveKind?, time) else r
    )
    case Appears => (
      match r
      case Absent => Known(false, 0)
      case Buffered(kind, time) => Known(kind.LeaveKind?, time)
      case Known(_, time) => Known(false, time)
    )
  }

  function DeliverAll(r: Register, ds: seq<Delivery>): Register {
    if ds == [] then r else Deliver(DeliverAll(r, ds[..|ds| - 1]), ds[|ds| - 1])
  }

  /** The member appears exactly once, and around it arrive exactly the intents
      of `intents`, in any order and any number of times each. */
  ghost predicate Schedule(ds: seq<Delivery>, intents: set<Delivery>) {
    && (forall d :: d in intents ==> d.Arrives?)
    && (exists k :: 0 <= k < |ds| && AppearsAt(ds, k))
    && (forall d :: d in ds && d.Arrives? <==> d in intents)
  }

  predicate AppearsAt(ds: seq<Delivery>, k: nat)
    requires k < |ds|
  {
    ds[k].Appears? && forall j :: 0 <= j < |ds| && j != k ==> ds[j].Arrives?
  }

  /** No intent of `ds` is newer than `t`. */
  ghost predicate Bounded(ds: seq<Delivery>, t: nat) {
    forall d :: d in ds && d.Arrives? ==> d.time <= t
  }

  /** Before the member appears the register holds a newest intent. */
  ghost predicate HoldsNewest(r: Register, ds: seq<Delivery>) {
    match r
    case Absent => ds == []
    case Buffered(kind, time) => Arrives(kind, time) in ds && Bounded(ds, time)
    case Known(_, _) => false
  }

  /** Afterwards it holds the newest time, and the kind of an intent with it. At
      time zero it may also be the default, an alive member. */
  ghost predicate ReflectsNewest(r: Register, ds: seq<Delivery>) {
    && r.Known? && Bounded(ds, r.time)
    && (r.time > 0 ==> Arrives(if r.leaving then LeaveKind else JoinKind, r.time) in ds)
    && (r.time == 0 && r.leaving ==> Arrives(LeaveKind, 0) in ds)
  }

  lemma PrefixMembers(ds: seq<Delivery>, n: nat)
    requires n <= |ds|
    ensures forall d :: d in ds[..n] ==> d in ds
  {
  }

  lemma BoundedByOneMore(ds: seq<Delivery>, t: nat)
    requires ds != [] && Bounded(ds[..|ds| - 1], t) && (ds[|ds| - 1].Arrives? ==> ds[|ds| - 1].time <= t)
    ensures Bounded(ds, t)
  {
    forall d | d in ds && d.Arrives? ensures d.time <= t {
      var k :| 0 <= k < |ds| && ds[k] == d;
      if k < |ds| - 1 { assert ds[..|ds| - 1][k] == d; }
    }
  }

  lemma {:induction false} BeforeItAppears(ds: seq<Delivery>)
    requires forall d :: d in ds ==> d.Arrives?
    ensures HoldsNewest(DeliverAll(Absent, ds), ds)
  {
    if ds == [] {
    } else {
      var n := |ds| - 1;
      PrefixMembers(ds, n);
      BeforeItAppears(ds[..n]);
      var (r, d) := (DeliverAll(Absent, ds[..n]), ds[n]);
      assert d in ds && d == Arrives(d.kind, d.time);
      BoundedByOneMore(ds, if r.Absent? || d.time > r.time then d.time else r.time);
    }
  }

  lemma {:induction false} OnceItAppeared(ds: seq<Delivery>, k: nat)
    requires k < |ds| && AppearsAt(ds, k)
    ensures ReflectsNewest(DeliverAll(Absent, ds), ds)
  {
    var n := |ds| - 1;
    PrefixMembers(ds, n);
    var (r, d) := (DeliverAll(Absent, ds[..n]), ds[n]);
    if k == n {
      forall j | 0 <= j < n ensures ds[..n][j].Arrives? {}
      BeforeItAppears(ds[..n]);
      BoundedByOneMore(ds, if r.Absent? then 0 else r.time);
    } else {
      assert AppearsAt(ds[..n], k);
      OnceItAppeared(ds[..n], k);
      assert d in ds && d == Arrives(d.kind, d.time);
      BoundedByOneMore(ds, if d.time > r.time then d.time else r.time);
    }
  }

  /** The newest time of a set of intents decides: every intent with it is of one
      kind, and if it is zero there is no leave. */
  ghost predicate Decisive(intents: set<Delivery>) {
    forall d :: d in intents && d.Arrives? && d.kind.LeaveKind? ==>
      (exists e :: e in intents && e.Arrives? && e.time > d.time) ||
        (d.time > 0 && Arrives(JoinKind, d.time) !in intents)
  }

  /** Any two deliveries of the same intents agree, in status and in time. */
  lemma DecisiveIntentsConverge(intents: set<Delivery>, a: seq<Delivery>, b: seq<Delivery>)
    requires Schedule(a, intents) && Schedule(b, intents) && Decisive(intents)
    ensures DeliverAll(Absent, a) == DeliverAll(Absent, b)
  {
    var j :| 0 <= j < |a| && AppearsAt(a, j);
    var k :| 0 <= k < |b| && AppearsAt(b, k);
    OnceItAppeared(a, j);
    OnceItAppeared(b, k);
    var ra, rb := DeliverAll(Absent, a), DeliverAll(Absent, b);
    assert ra.time <= rb.time by {
      if ra.time > 0 { assert Arrives(if ra.leaving then LeaveKind else JoinKind, ra.time) in intents; }
    }
    assert rb.time <= ra.time by {
      if rb.time > 0 { assert Arrives(if rb.leaving then LeaveKind else JoinKind, rb.time) in intents; }
    }
    forall e | e in intents && e.Arrives? ensures e.time <= ra.time { assert e in a; }
    if ra.leaving { LeaveWins(intents, ra, rb); }
    if rb.leaving { LeaveWins(intents, rb, ra); }
  }

  lemma LeaveWins(intents: set<Delivery>, r: Register, other: Register)
    requires Decisive(intents) && r.Known? && other.Known? && r.time == other.time && r.leaving
    requires Arrives(LeaveKind, r.time) in intents
    requires forall e :: e in intents && e.Arrives? ==> e.time <= r.time
    requires other.time > 0 ==> Arrives(if other.leaving then LeaveKind else JoinKind, other.time) in intents
    ensures other.leaving
  {
    var d := Arrives(LeaveKind, r.time);
    assert d in intents && d.kind.LeaveKind?;
  }

  lemma {:induction false} Listed(intents: set<Delivery>) returns (ds: seq<Delivery>)
    ensures forall d :: d in ds <==> d in intents
  {
    ds := [];
    var rest := intents;
    while rest != {}
      invariant rest <= intents && forall d :: d in ds <==> d in intents && d !in rest
      decreases rest
    {
      var d :| d in rest;
      rest := rest - {d};
      ds := ds + [d];
    }
  }

  /** Intents that are not newer than a known member's time change nothing. */
  lemma {:induction false} OldIntentsAreIgnored(ds: seq<Delivery>, more: seq<Delivery>)
    requires DeliverAll(Absent, ds).Known? && Bounded(more, DeliverAll(Absent, ds).time)
    requires forall d :: d in more ==> d.Arrives?
    ensures DeliverAll(Absent, ds + more) == DeliverAll(Absent, ds)
  {
    if more == [] {
      assert ds + more == ds;
    } else {
      var n := |more| - 1;
      OldIntentsAreIgnored(ds, more[..n]);
      assert (ds + more)[..|ds + more| - 1] == ds + more[..n];
      assert more[n] in more;
    }
  }

  lemma StartingWith(intents: set<Delivery>, first: seq<Delivery>, k: nat) returns (ds: seq<Delivery>)
    requires forall d :: d in intents ==> d.Arrives?
    requires k < |first| && AppearsAt(first, k) && DeliverAll(Absent, first).Known?
    requires forall d :: d in first && d.Arrives? ==> d in intents
    requires forall d :: d in intents ==> d.time <= DeliverAll(Absent, first).time
    ensures Schedule(ds, intents) && DeliverAll(Absent, ds) == DeliverAll(Absent, first)
  {
    var rest := Listed(intents);
    ds := first + rest;
    OldIntentsAreIgnored(first, rest);
    forall j | 0 <= j < |ds| && j != k ensures ds[j].Arrives? {
      if j >= |first| { assert ds[j] in rest; }
    }
    assert AppearsAt(ds, k);
  }

  /** Without a decisive newest intent the outcome does depend on the order. */
  lemma UndecidedIntentsDiverge(intents: set<Delivery>) returns (a: seq<Delivery>, b: seq<Delivery>)
    requires (forall d :: d in intents ==> d.Arrives?) && !Decisive(intents)
    ensures Schedule(a, intents) && Schedule(b, intents)
    ensures DeliverAll(Absent, a) != DeliverAll(Absent, b)
  {
    var d :| d in intents && d.kind.LeaveKind? && (forall e :: e in intents && e.Arrives? ==> e.time <= d.time)
             && (d.time == 0 || Arrives(JoinKind, d.time) in intents);
    var early := [d, Appears];
    assert early[..1] == [d] && [d][..0] == [];
    assert DeliverAll(Absent, [d]) == Buffered(LeaveKind, d.time);
    assert DeliverAll(Absent, early) == Known(true, d.time);
    a := StartingWith(intents, early, 1);
    if d.time == 0 {
      assert [Appears][..0] == [];
      assert DeliverAll(Absent, [Appears]) == Known(false, 0);
      b := StartingWith(intents, [Appears], 0);
    } else {
      var e := Arrives(JoinKind, d.time);
      var other := [e, Appears];
      assert other[..1] == [e] && [e][..0] == [];
      assert DeliverAll(Absent, [e]) == Buffered(JoinKind, d.time);
      b := StartingWith(intents, other, 1);
    }
  }

  /** Convergence holds exactly for the decisive sets of intents. */
  lemma ConvergesIffDecisive(intents: set<Delivery>)
    requires forall d :: d in intents ==> d.Arrives?
    ensures Decisive(intents) <==>
            forall a, b :: Schedule(a, intents) && Schedule(b, intents) ==>
              DeliverAll(Absent, a) == DeliverAll(Absent, b)
  {
    if Decisive(intents) {
      forall a, b | Schedule(a, intents) && Schedule(b, intents)
        ensures DeliverAll(Absent, a) == DeliverAll(Absent, b)
      {
        DecisiveIntentsConverge(intents, a, b);
      }
    } else {
      var a, b := UndecidedIntentsDiverge(intents);
    }
  }

  // ----- The node holds such a register for every other member -----

  /** The register a node holds about `id`. */
  function RegisterOf(s: Serf, id: Id): Register {
    if id in s.states then Known(s.states[id].Status().Leaving?, s.states[id].statusTime)
    else if id in s.intents then Buffered(s.intents[id].kind, s.intents[id].ltime)
    else Absent
  }

  /** `id` has not failed or left here. */
  predicate NotGone(s: Serf, id: Id) {
    id in s.states ==> s.states[id].Status().Alive? || s.states[id].Status().Leaving?
  }

  /** Not a step that fails or prunes `id`, or forgets the intent kept for it. */
  predicate Gentle(s: Serf, a: Action, id: Id) {
    match a
    case NodeLeaves(who, _) => who != id
    case LeaveArrives(who, _, prune, _) => who != id || !prune
    case ReapsIntents(now, limit) => id in s.intents ==> now - s.intents[id].wallTime <= limit
    case _ => true
  }

  /** What a step delivers about a member other than the local one. */
  function About(a: Action, id: Id): seq<Delivery> {
    match a
    case NodeJoins(node, tags) => if node.id == id && tags.Some? then [Appears] else []
    case JoinArrives(who, t, _) => if who == id then [Arrives(JoinKind, t)] else []
    case LeaveArrives(who, t, _, _) => if who == id then [Arrives(LeaveKind, t)] else []
    case _ => []
  }

  lemma LeaveDelivers(s: Serf, who: Id, t: nat, prune: bool, now: nat, id: Id)
    requires id != s.localId && NotGone(s, id) && Indexed(s) && (who == id ==> !prune)
    ensures var s' := LeaveIntent(s, who, t, prune, now).serf;
            && NotGone(s', id) && s'.localId == s.localId
            && RegisterOf(s', id) ==
               (if who == id then Deliver(RegisterOf(s, id), Arrives(LeaveKind, t)) else RegisterOf(s, id))
  {
    if who in s.states { assert WellFormed(who, s.states[who]); }
  }

  lemma ReapDeliversNothing(s: Serf, failing: bool, now: nat, timeout: Member -> nat, id: Id)
    requires NotGone(s, id) && Indexed(s)
    ensures var s' := if failing then ReapFailed(s, now, timeout) else ReapLeft(s, now, timeout);
            && NotGone(s', id) && s'.localId == s.localId && RegisterOf(s', id) == RegisterOf(s, id)
  {
    var list := if failing then s.failed else s.left;
    var (kept, gone) := Sweep(list, 0, now, timeout);
    SweepTakesTheExpired(list, 0, now, timeout);
    DistinctByCount(list, kept, gone);
    EraseTakesIds(if failing then s.(failed := kept) else s.(left := kept), gone);
    forall m | m in gone ensures m.Id() != id {
      assert Matches(m, if failing then Failed else Left, s.states);
    }
  }

  lemma JoinDelivers(s: Serf, who: Id, t: nat, now: nat, id: Id)
    requires NotGone(s, id)
    ensures var s' := JoinIntent(s, who, t, now).0;
            && NotGone(s', id) && s'.localId == s.localId
            && RegisterOf(s', id) ==
               (if who == id then Deliver(RegisterOf(s, id), Arrives(JoinKind, t)) else RegisterOf(s, id))
  {
  }

  lemma NodeJoinDelivers(s: Serf, node: Node, tags: Option<Tags>, id: Id)
    requires NotGone(s, id)
    ensures var s' := NodeJoin(s, node, tags);
            && NotGone(s', id) && s'.localId == s.localId
            && RegisterOf(s', id) ==
               (if node.id == id && tags.Some? then Deliver(RegisterOf(s, id), Appears) else RegisterOf(s, id))
  {
  }

  lemma StepDelivers(s: Serf, a: Action, id: Id)
    requires id != s.localId && NotGone(s, id) && Indexed(s) && Gentle(s, a, id)
    ensures NotGone(Apply(s, a), id) && Apply(s, a).localId == s.localId
    ensures RegisterOf(Apply(s, a), id) ==
            (if About(a, id) == [] then RegisterOf(s, id) else Deliver(RegisterOf(s, id), About(a, id)[0]))
  {
    match a
    case NodeJoins(node, tags) => NodeJoinDelivers(s, node, tags, id);
    case NodeLeaves(who, now) => assert who in s.states ==> WellFormed(who, s.states[who]);
    case NodeUpdates(node, tags) =>
    case JoinArrives(who, t, now) => JoinDelivers(s, who, t, now, id);
    case Announces(t, now) => JoinDelivers(Witness(s, t), s.localId, t, now, id);
    case LeaveArrives(who, t, prune, now) => LeaveDelivers(s, who, t, prune, now, id);
    case ReapsFailed(now, timeout) => ReapDeliversNothing(s, true, now, timeout, id);
    case ReapsLeft(now, timeout) => ReapDeliversNothing(s, false, now, timeout, id);
    case _ =>
  }

  function AllAbout(actions: seq<Action>, id: Id): seq<Delivery> {
    if actions == [] then [] else About(actions[0], id) + AllAbout(actions[1..], id)
  }

  ghost predicate AllGentle(s: Serf, actions: seq<Action>, id: Id)
    decreases |actions|
  {
    actions == [] || (Gentle(s, actions[0], id) && AllGentle(Apply(s, actions[0]), actions[1..], id))
  }

  lemma {:induction false} DeliverFront(r: Register, d: Delivery, ds: seq<Delivery>)
    ensures DeliverAll(r, [d] + ds) == DeliverAll(Deliver(r, d), ds)
  {
    if ds == [] {
      assert [d] + ds == [d] && [d][..0] == [];
    } else {
      var n := |ds| - 1;
      assert ([d] + ds)[..|ds|] == [d] + ds[..n];
      DeliverFront(r, d, ds[..n]);
    }
  }

  /** Over a whole run the node's register sees exactly what the run delivers about `id`. */
  lemma {:induction false} RunDelivers(s: Serf, actions: seq<Action>, id: Id)
    requires id != s.localId && NotGone(s, id) && Indexed(s) && AllGentle(s, actions, id)
    ensures RegisterOf(Run(s, actions), id) == DeliverAll(RegisterOf(s, id), AllAbout(actions, id))
    ensures NotGone(Run(s, actions), id)
    decreases |actions|
  {
    if actions == [] {
    } else {
      var a := actions[0];
      StepDelivers(s, a, id);
      StepKeepsIndex(s, a);
      RunDelivers(Apply(s, a), actions[1..], id);
      if About(a, id) != [] {
        DeliverFront(RegisterOf(s, id), About(a, id)[0], AllAbout(actions[1..], id));
      } else {
        assert About(a, id) + AllAbout(actions[1..], id) == AllAbout(actions[1..], id);
      }
    }
  }

  /** Two nodes that start out knowing nothing about `id`, and hear the same
      decisive set of intents about it in any order, with any repetition, around
      its one memberlist join and among any other traffic, end up with the same
      status and status time for it. */
  lemma NodesAgreeOnMember(s1: Serf, run1: seq<Action>, s2: Serf, run2: seq<Action>, id: Id, intents: set<Delivery>)
    requires Indexed(s1) && id != s1.localId && id !in s1.states && id !in s1.intents
    requires Indexed(s2) && id != s2.localId && id !in s2.states && id !in s2.intents
    requires AllGentle(s1, run1, id) && AllGentle(s2, run2, id)
    requires Schedule(AllAbout(run1, id), intents) && Schedule(AllAbout(run2, id), intents) && Decisive(intents)
    ensures var e1, e2 := Run(s1, run1), Run(s2, run2);
            && id in e1.states && id in e2.states
            && e1.states[id].Status() == e2.states[id].Status()
            && e1.states[id].statusTime == e2.states[id].statusTime
  {
    RunDelivers(s1, run1, id);
    RunDelivers(s2, run2, id);
    DecisiveIntentsConverge(intents, AllAbout(run1, id), AllAbout(run2, id));
    var k :| 0 <= k < |AllAbout(run1, id)| && AppearsAt(AllAbout(run1, id), k);
    OnceItAppeared(AllAbout(run1, id), k);
  }

  /** A step that makes a delivery about `id`. */
  function Making(d: Delivery, id: Id): Action {
    match d
    case Arrives(JoinKind, t) => JoinArrives(id, t, 0)
    case Arrives(LeaveKind, t) => LeaveArrives(id, t, false, 0)
    case Appears => NodeJoins(Node(id, ""), Some(map[]))
  }

  function MakingAll(ds: seq<Delivery>, id: Id): seq<Action> {
    if ds == [] then [] else [Making(ds[0], id)] + MakingAll(ds[1..], id)
  }

  lemma MakingOne(s: Serf, d: Delivery, id: Id)
    ensures About(Making(d, id), id) == [d] && Gentle(s, Making(d, id), id)
  {
  }

  lemma {:induction false} MakingDelivers(s: Serf, ds: seq<Delivery>, id: Id)
    ensures AllAbout(MakingAll(ds, id), id) == ds && AllGentle(s, MakingAll(ds, id), id)
    decreases |ds|
  {
    if ds == [] {
    } else {
      var actions := MakingAll(ds, id);
      assert actions[1..] == MakingAll(ds[1..], id);
      MakingDelivers(Apply(s, actions[0]), ds[1..], id);
      MakingOne(s, ds[0], id);
    }
  }

  /** Any node that knows nothing about `id` can be brought to different ends by
      the same undecided intents. */
  lemma NodesDisagreeOnMember(s: Serf, id: Id, intents: set<Delivery>) returns (a: seq<Action>, b: seq<Action>)
    requires Indexed(s) && id != s.localId && id !in s.states && id !in s.intents
    requires (forall d :: d in intents ==> d.Arrives?) && !Decisive(intents)
    ensures AllGentle(s, a, id) && Schedule(AllAbout(a, id), intents)
    ensures AllGentle(s, b, id) && Schedule(AllAbout(b, id), intents)
    ensures RegisterOf(Run(s, a), id) != RegisterOf(Run(s, b), id)
  {
    var ds, es := UndecidedIntentsDiverge(intents);
    a, b := MakingAll(ds, id), MakingAll(es, id);
    MakingDelivers(s, ds, id);
    MakingDelivers(s, es, id);
    RunDelivers(s, a, id);
    RunDelivers(s, b, id);
  }

  /** A run that delivers the intents about `id` around its one join. */
  ghost predicate Hears(s: Serf, run: seq<Action>, id: Id, intents: set<Delivery>) {
    AllGentle(s, run, id) && Schedule(AllAbout(run, id), intents)
  }

  /** Of a node that knows nothing about `id`: all the ways of hearing a set of
      intents about it end the same if and only if the set is decisive. */
  lemma NodesAgreeIffDecisive(s: Serf, id: Id, intents: set<Delivery>)
    requires Indexed(s) && id != s.localId && id !in s.states && id !in s.intents
    requires forall d :: d in intents ==> d.Arrives?
    ensures Decisive(intents) <==>
            forall a, b :: Hears(s, a, id, intents) && Hears(s, b, id, intents) ==>
              RegisterOf(Run(s, a), id) == RegisterOf(Run(s, b), id)
  {
    if Decisive(intents) {
      forall a, b | Hears(s, a, id, intents) && Hears(s, b, id, intents)
        ensures RegisterOf(Run(s, a), id) == RegisterOf(Run(s, b), id)
      {
        RunDelivers(s, a, id);
        RunDelivers(s, b, id);
        DecisiveIntentsConverge(intents, AllAbout(a, id), AllAbout(b, id));
      }
    } else {
      var a, b := NodesDisagreeOnMember(s, id, intents);
      assert Hears(s, a, id, intents) && Hears(s, b, id, intents);
    }
  }
}
