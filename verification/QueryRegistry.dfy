/** Which collector a reply to a query reaches. A node stamps a query with its query
    clock, registers a collector under that time, and only then moves the clock past it
    by processing the query; a timer closes whatever is registered under the time. Any
    number of queries may be under way at once, so two can have the same time. */
module QueryRegistry {
  import opened Types
  import Clock

  datatype Stage = Stamped | Registered | Processed

  /** A query of this node; `expired` once its timer has gone off. */
  datatype Query = Query(id: nat, time: nat, stage: Stage, expired: bool)

  /** The queries by the order in which they were stamped, the collector registered
      under each time, and the collectors that are closed; a collector is named by the
      index of its query. */
  datatype Registry = Registry(clock: nat, queries: seq<Query>, responses: map<nat, nat>, closed: set<nat>)

  function Start(clock: nat): Registry {
    Registry(clock, [], map[], {})
  }

  datatype Step =
    | Stamp(id: nat)
    | Register(q: nat)
    | Process(q: nat)
    | Expire(q: nat)
    | Witness(t: nat)       // a query of another node, or an exchange

  predicate Enabled(s: Registry, step: Step) {
    match step
    case Register(q) => q < |s.queries| && s.queries[q].stage.Stamped?
    case Process(q) => q < |s.queries| && s.queries[q].stage.Registered?
    case Expire(q) => q < |s.queries| && !s.queries[q].stage.Stamped? && !s.queries[q].expired
    case _ => true
  }

  function Do(s: Registry, step: Step): Registry
    requires Enabled(s, step)
  {
    match step
    case Stamp(id) => s.(queries := s.queries + [Query(id, s.clock, Stamped, false)])
    case Register(q) =>
      var x := s.queries[q];
      s.(queries := s.queries[q := x.(stage := Registered)], responses := s.responses[x.time := q])
    case Process(q) =>
      var x := s.queries[q];
      s.(queries := s.queries[q := x.(stage := Processed)], clock := Clock.Witnessed(s.clock, x.time))
    case Expire(q) =>
      var x := s.queries[q];
      var s' := s.(queries := s.queries[q := x.(expired := true)]);
      if x.time !in s.responses then s'
      else s'.(responses := s.responses - {x.time}, closed := s.closed + {s.responses[x.time]})
    case Witness(t) => s.(clock := Clock.Witnessed(s.clock, t))
  }

  ghost predicate Runnable(s: Registry, steps: seq<Step>)
    decreases |steps|
  {
    steps == [] || (Enabled(s, steps[0]) && Runnable(Do(s, steps[0]), steps[1..]))
  }

  ghost function Run(s: Registry, steps: seq<Step>): Registry
    requires Runnable(s, steps)
    decreases |steps|
  {
    if steps == [] then s else Run(Do(s, steps[0]), steps[1..])
  }

  /** The collector a reply reaches: the one registered under its time, if that is for
      the same query id. */
  function Reached(s: Registry, time: nat, id: nat): Option<nat> {
    if time in s.responses && s.responses[time] < |s.queries| && s.queries[s.responses[time]].id == id
    then Some(s.responses[time]) else None
  }

  /** A reply to the query reaches its own collector, and that is open. */
  predicate Served(s: Registry, q: nat)
    requires q < |s.queries|
  {
    Reached(s, s.queries[q].time, s.queries[q].id) == Some(q) && q !in s.closed
  }

  // ----- What every step keeps -----

  ghost predicate Inv(s: Registry) {
    && (forall t :: t in s.responses ==>
          && s.responses[t] < |s.queries| && s.queries[s.responses[t]].time == t
          && !s.queries[s.responses[t]].stage.Stamped? && s.responses[t] !in s.closed)
    && (forall q :: q in s.closed ==> q < |s.queries| && !s.queries[q].stage.Stamped?)
    && (forall q :: 0 <= q < |s.queries| && s.queries[q].stage.Processed? ==> s.queries[q].time < s.clock)
    && (forall q :: 0 <= q < |s.queries| ==> s.queries[q].time <= s.clock)
  }

  lemma StepKeepsInv(s: Registry, step: Step)
    requires Inv(s) && Enabled(s, step)
    ensures var s' := Do(s, step);
            && Inv(s') && s'.clock >= s.clock && |s'.queries| >= |s.queries|
            && forall q :: 0 <= q < |s.queries| ==> SameQuery(s.queries[q], s'.queries[q])
  {
  }

  predicate SameQuery(a: Query, b: Query) {
    a.id == b.id && a.time == b.time && (!a.stage.Stamped? ==> !b.stage.Stamped?)
  }

  /** Another query of the same time registers or expires. */
  predicate Disturbs(s: Registry, step: Step, q: nat)
    requires q < |s.queries| && Enabled(s, step)
  {
    && (step.Register? || step.Expire?)
    && step.q != q && s.queries[step.q].time == s.queries[q].time
  }

  /** A served query stays served by a step exactly if its own timer does not go off and
      no other query of its time registers or expires. */
  lemma StaysServedIff(s: Registry, step: Step, q: nat)
    requires Inv(s) && q < |s.queries| && Served(s, q) && Enabled(s, step)
    ensures Served(Do(s, step), q) <==> step != Expire(q) && !Disturbs(s, step, q)
  {
  }

  /** A query that is no longer served never is again. */
  lemma UnservedStaysUnserved(s: Registry, step: Step, q: nat)
    requires Inv(s) && q < |s.queries| && !s.queries[q].stage.Stamped? && !Served(s, q) && Enabled(s, step)
    ensures !Served(Do(s, step), q)
  {
  }

  ghost predicate Undisturbed(s: Registry, steps: seq<Step>, q: nat)
    requires q < |s.queries| && Runnable(s, steps)
    decreases |steps|
  {
    steps == [] ||
    (&& steps[0] != Expire(q) && !Disturbs(s, steps[0], q)
     && |Do(s, steps[0]).queries| >= |s.queries| && Undisturbed(Do(s, steps[0]), steps[1..], q))
  }

  lemma {:induction false} ServedIffUndisturbed(s: Registry, steps: seq<Step>, q: nat)
    requires Inv(s) && q < |s.queries| && !s.queries[q].stage.Stamped? && Runnable(s, steps)
    ensures q < |Run(s, steps).queries|
    ensures Served(Run(s, steps), q) <==> Served(s, q) && Undisturbed(s, steps, q)
    decreases |steps|
  {
    if steps == [] {
    } else {
      StepKeepsInv(s, steps[0]);
      if Served(s, q) { StaysServedIff(s, steps[0], q); } else { UnservedStaysUnserved(s, steps[0], q); }
      ServedIffUndisturbed(Do(s, steps[0]), steps[1..], q);
    }
  }

  /** From the moment a query registers, a reply to it reaches its own open collector if
      and only if, meanwhile, its timer has not gone off and no other query of its time
      has registered or expired. */
  lemma RepliesReachTheirQueryIffUndisturbed(s: Registry, q: nat, steps: seq<Step>)
    requires Inv(s) && Enabled(s, Register(q)) && Runnable(Do(s, Register(q)), steps)
    ensures var s1 := Do(s, Register(q));
            && Served(s1, q) && q < |Run(s1, steps).queries|
            && (Served(Run(s1, steps), q) <==> Undisturbed(s1, steps, q))
  {
    StepKeepsInv(s, Register(q));
    ServedIffUndisturbed(Do(s, Register(q)), steps, q);
  }

  /** A reply reaches no collector but that of a query with its time and its id. */
  lemma ReplyReachesNoOther(s: Registry, time: nat, id: nat)
    requires Inv(s)
    ensures var q := Reached(s, time, id);
            && (q.Some? ==> q.value < |s.queries| && s.queries[q.value].time == time && s.queries[q.value].id == id
                            && q.value !in s.closed)
            && (q.None? <==> time !in s.responses || s.queries[s.responses[time]].id != id)
  {
  }

  // ----- When times are shared -----

  /** A stamp is new exactly if the clock has moved past every earlier one, as it has once
      each earlier query is processed. */
  lemma StampIsNewIffClockMovedOn(s: Registry, id: nat)
    requires Inv(s)
    ensures var time := Do(s, Stamp(id)).queries[|s.queries|].time;
            && ((forall q :: 0 <= q < |s.queries| ==> s.queries[q].time != time) <==>
                  forall q :: 0 <= q < |s.queries| ==> s.queries[q].time < s.clock)
            && ((forall q :: 0 <= q < |s.queries| ==> s.queries[q].stage.Processed?) ==>
                  forall q :: 0 <= q < |s.queries| ==> s.queries[q].time != time)
  {
  }

  /** No query is stamped before the clock has moved past every earlier stamp. */
  ghost predicate OneByOne(s: Registry, steps: seq<Step>)
    requires Runnable(s, steps)
    decreases |steps|
  {
    steps == [] ||
    (&& (steps[0].Stamp? ==> forall q :: 0 <= q < |s.queries| ==> s.queries[q].time < s.clock)
     && OneByOne(Do(s, steps[0]), steps[1..]))
  }

  ghost predicate Distinct(s: Registry) {
    forall p, q :: 0 <= p < q < |s.queries| ==> s.queries[p].time != s.queries[q].time
  }

  /** In a run the times are all different exactly if the queries are stamped so. */
  lemma {:induction false} TimesDistinctIffOneByOne(s: Registry, steps: seq<Step>)
    requires Inv(s) && Runnable(s, steps)
    ensures Distinct(Run(s, steps)) <==> Distinct(s) && OneByOne(s, steps)
    decreases |steps|
  {
    if steps == [] {
    } else {
      StepKeepsInv(s, steps[0]);
      StepKeepsDistinctIff(s, steps[0]);
      TimesDistinctIffOneByOne(Do(s, steps[0]), steps[1..]);
    }
  }

  lemma StepKeepsDistinctIff(s: Registry, step: Step)
    requires Inv(s) && Enabled(s, step)
    ensures Distinct(Do(s, step)) <==>
            Distinct(s) && (step.Stamp? ==> forall q :: 0 <= q < |s.queries| ==> s.queries[q].time < s.clock)
  {
    var s' := Do(s, step);
    forall q | 0 <= q < |s.queries| ensures s'.queries[q].time == s.queries[q].time {}
    if step.Stamp? && Distinct(s') {
      var n := |s.queries|;
      forall q | 0 <= q < n ensures s.queries[q].time < s.clock { assert s'.queries[q].time != s'.queries[n].time; }
    }
    if Distinct(s') {
      forall p, q | 0 <= p < q < |s.queries| ensures s.queries[p].time != s.queries[q].time {
        assert s'.queries[p].time != s'.queries[q].time;
      }
    }
  }

  /** Queries one by one: each is served until its own timer goes off. */
  lemma {:induction false} DistinctTimesAreUndisturbed(s: Registry, steps: seq<Step>, q: nat)
    requires Inv(s) && Runnable(s, steps) && q < |s.queries| && Distinct(Run(s, steps)) && Expire(q) !in steps
    ensures Undisturbed(s, steps, q)
    decreases |steps|
  {
    if steps == [] {
    } else {
      StepKeepsInv(s, steps[0]);
      TimesDistinctIffOneByOne(s, steps);
      DistinctTimesAreUndisturbed(Do(s, steps[0]), steps[1..], q);
    }
  }

  /** Two at once: both get the same time, the second takes the place of the first, and
      the timer of the first closes the second. Neither is served. */
  lemma TwoAtOnceAreBothLost(clock: nat, id: nat, id': nat)
    ensures var s4 := Do(Do(Do(Do(Start(clock), Stamp(id)), Stamp(id')), Register(0)), Register(1));
            && Inv(s4) && !Served(s4, 0) && 0 !in s4.closed && Served(s4, 1)
            && var s5 := Do(s4, Expire(0)); !Served(s5, 0) && !Served(s5, 1) && s5.closed == {1}
  {
  }
}
