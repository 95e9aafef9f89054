/** What one life of a node leaves for the next: the snapshot it reads at startup,
    and the times it will not accept again. */
module Restart {
  import opened Types
  import opened Clock
  import opened SnapshotLog
  import opened Snapshotter
  import Membership
  import MembershipInvariants
  import EventRing
  import QueryRing

  // ----- Leaving -----

  lemma {:induction false} MainLoopAfterLeave(l: Life, inputs: seq<Input>, rejoin: bool)
    requires l.leaving && (rejoin || l.memory.alive == {})
    ensures MainLoop(l, inputs, rejoin).leaving && MainLoop(l, inputs, rejoin).memory.alive == l.memory.alive
    decreases |inputs|
  {
    if inputs == [] {
    } else {
      match inputs[0]
      case Leave => MainLoopAfterLeave(Resigned(l, rejoin), inputs[1..], rejoin);
      case Tick(now) => MainLoopAfterLeave(l.(memory := Ticked(l.memory, now)), inputs[1..], rejoin);
      case _ =>
    }
  }

  /** Whatever follows a leave, the live nodes in memory are those at the leave if
      the node means to come back, and none if it does not. */
  lemma NothingIsRecordedAfterLeave(l: Life, inputs: seq<Input>, late: bool, now: u64, queued: seq<(Event, u64)>,
                                    rejoin: bool)
    ensures var after := WholeLife(Resigned(l, rejoin), inputs, late, now, queued, rejoin);
            after.leaving && after.memory.alive == if rejoin then l.memory.alive else {}
  {
    MainLoopAfterLeave(Resigned(l, rejoin), inputs, rejoin);
  }

  /** Once a leave is handled without the intention to come back, the file replays
      to no live nodes from then on, whatever events, ticks, drains and
      compactions follow. With that intention it replays to those at the leave. */
  method LeaveForGood(s: Snapshot, inputs: seq<Input>, late: bool, now: u64, queued: seq<(Event, u64)>)
    requires s.Valid()
    modifies s
    ensures s.Valid()
    ensures var r := ReplayFile(s.codec, s.file, s.rejoin);
            r.Ok? && r.value.alive == if s.rejoin then Writables(s.codec, old(s.alive)) else {}
  {
    ghost var before := Life(s.Mem(), s.leaving);
    s.HandleLeave();
    NothingIsRecordedAfterLeave(before, inputs, late, now, queued, s.rejoin);
    s.Stream(inputs, late, now, queued);
  }

  // ----- The next start -----

  lemma {:induction false} ReplayedNodesAreSmall(c: Codec, rs: seq<Record>, rejoin: bool)
    requires Loggable(c, rs)
    ensures forall n :: n in Replay(rs, rejoin).alive ==> Small(c, n)
  {
    if rs == [] {
    } else {
      ReplayedNodesAreSmall(c, rs[..|rs| - 1], rejoin);
      assert Encode(c, rs[|rs| - 1]).Some?;
    }
  }

  /** What a node sets up from its snapshot file. The file the last process left
      behind always opens; what it yields is that process's memory, short of what
      could not be written, and the queues refuse every time the last process
      recorded. */
  method Reopen(last: Snapshot, eventSize: nat, querySize: nat)
    returns (next: Snapshot, events: EventRing.EventCore, queries: QueryRing.QueryCore)
    requires last.Valid()
    ensures next.Valid() && !next.leaving && next.file == last.file
    ensures next.codec == last.codec && next.rejoin == last.rejoin && next.minCompactSize == last.minCompactSize
    ensures Accounts(last.codec, next.Mem(), last.Mem(), last.Left())
    ensures last.Tight() ==> next.Tight()
    ensures events.View() == EventRing.Empty(Witnessed(1, next.lastEventClock), next.lastEventClock + 1, eventSize)
    ensures queries.View() == QueryRing.Empty(Witnessed(1, next.lastQueryClock), next.lastQueryClock + 1, querySize)
  {
    var result := OpenAndReplay(last.codec, last.file, last.rejoin);
    ReplayOfWritten(last.codec, last.log, last.rejoin);
    ReplayedNodesAreSmall(last.codec, last.log, last.rejoin);
    assert last.AllSmall() ==> Writables(last.codec, last.alive) == last.alive;
    next := new Snapshot(last.codec, last.rejoin, last.minCompactSize, last.file, result.value, last.log);
    events := new EventRing.EventCore(Witnessed(1, next.lastEventClock), next.lastEventClock + 1, eventSize);
    queries := new QueryRing.QueryCore(Witnessed(1, next.lastQueryClock), next.lastQueryClock + 1, querySize);
  }

  /** A node too large to be written is live while the process runs, and forgotten by the
      next. */
  method LargeNodeIsForgotten(last: Snapshot, n: Node, now: u64) returns (next: Snapshot)
    requires last.Valid() && !last.leaving && !Small(last.codec, n)
    modifies last
    ensures n in last.alive && n !in next.alive && next.Valid() && next.file == last.file
  {
    var inputs := [Arrival(MemberChange(Joined, [n]), now)];
    ghost var before := Life(last.Mem(), false);
    assert inputs[1..] == [];
    assert MainLoop(before, inputs, last.rejoin) == Life(Observed(before.memory, inputs[0].e, now), false);
    last.Stream(inputs, false, now, []);
    var reopened, _, _ := Reopen(last, 0, 0);
    next := reopened;
  }

  // ----- What the last process recorded -----

  /** Something the snapshotter comes to know: an event, or what the member clock shows. */
  datatype Fact = Saw(e: Event) | Read(now: u64)

  /** The clock is read at a tick, and after a member event. */
  predicate Tells(x: Input, f: Fact) {
    match f
    case Saw(e) => x.Arrival? && x.e == e
    case Read(now) => (x.Tick? && x.now == now) || (x.Arrival? && x.e.MemberChange? && x.now == now)
  }

  /** The main loop gets to this input: it has not been stopped, and no event came after a
      leave. */
  predicate Handled(inputs: seq<Input>, leaving: bool, k: nat)
    requires k < |inputs|
  {
    forall j :: 0 <= j <= k ==> !inputs[j].Stop? && (inputs[j].Arrival? ==> !leaving && NoLeave(inputs[..j]))
  }

  predicate NoLeave(inputs: seq<Input>) {
    forall k :: 0 <= k < |inputs| ==> !inputs[k].Leave?
  }

  ghost predicate Learned(inputs: seq<Input>, leaving: bool, f: Fact) {
    exists k :: 0 <= k < |inputs| && Handled(inputs, leaving, k) && Tells(inputs[k], f)
  }

  lemma HandledFromFront(inputs: seq<Input>, leaving: bool, k: nat)
    requires 0 < k < |inputs|
    ensures Handled(inputs, leaving, k) <==>
            Handled(inputs, leaving, 0) && Handled(inputs[1..], leaving || inputs[0].Leave?, k - 1)
  {
    var (rest, leaving') := (inputs[1..], leaving || inputs[0].Leave?);
    forall j | 1 <= j <= k
      ensures rest[j - 1] == inputs[j] && (!leaving && NoLeave(inputs[..j]) <==> !leaving' && NoLeave(rest[..j - 1]))
    {
      LeaveFromFront(inputs[..j]);
      assert inputs[..j][1..] == rest[..j - 1];
    }
    if Handled(rest, leaving', k - 1) {
      forall j | 1 <= j <= k
        ensures !inputs[j].Stop? && (inputs[j].Arrival? ==> !leaving && NoLeave(inputs[..j]))
      {
        assert rest[j - 1] == inputs[j];
      }
    }
  }

  lemma LeaveFromFront(inputs: seq<Input>)
    requires inputs != []
    ensures NoLeave(inputs) <==> !inputs[0].Leave? && NoLeave(inputs[1..])
  {
    assert forall k :: 0 < k < |inputs| ==> inputs[k] == inputs[1..][k - 1];
  }

  lemma LearnedFromFront(inputs: seq<Input>, leaving: bool, f: Fact)
    requires inputs != []
    ensures Learned(inputs, leaving, f) <==>
            && Handled(inputs, leaving, 0)
            && (Tells(inputs[0], f) || Learned(inputs[1..], leaving || inputs[0].Leave?, f))
  {
    var (rest, leaving') := (inputs[1..], leaving || inputs[0].Leave?);
    if Learned(inputs, leaving, f) {
      var k :| 0 <= k < |inputs| && Handled(inputs, leaving, k) && Tells(inputs[k], f);
      if k > 0 {
        HandledFromFront(inputs, leaving, k);
        assert rest[k - 1] == inputs[k];
      }
    }
    if Handled(inputs, leaving, 0) && Learned(rest, leaving', f) {
      var k :| 0 <= k < |rest| && Handled(rest, leaving', k) && Tells(rest[k], f);
      HandledFromFront(inputs, leaving, k + 1);
      assert inputs[k + 1] == rest[k];
    }
  }

  /** The memory has caught up with a fact. */
  predicate Covers(m: Memory, f: Fact) {
    match f
    case Saw(UserAt(t)) => t <= m.eventClock
    case Saw(QueryAt(t)) => t <= m.queryClock
    case Saw(MemberChange(_, _)) => true
    case Read(now) => now <= m.clock + 1
  }

  /** One turn of the main loop. */
  function Turn(l: Life, x: Input, rejoin: bool): Life {
    match x
    case Leave => Resigned(l, rejoin)
    case Arrival(e, now) => if l.leaving then l else Life(Observed(l.memory, e, now), false)
    case Tick(now) => l.(memory := Ticked(l.memory, now))
    case Stop => l
  }

  lemma TurnCovers(l: Life, x: Input, rejoin: bool, f: Fact)
    requires !x.Stop? && (x.Arrival? ==> !l.leaving)
    ensures Covers(l.memory, f) || Tells(x, f) ==> Covers(Turn(l, x, rejoin).memory, f)
  {
  }

  lemma {:induction false} MainLoopCovers(l: Life, inputs: seq<Input>, rejoin: bool, f: Fact)
    ensures Covers(l.memory, f) || Learned(inputs, l.leaving, f) ==> Covers(MainLoop(l, inputs, rejoin).memory, f)
    decreases |inputs|
  {
    if inputs == [] {
    } else {
      LearnedFromFront(inputs, l.leaving, f);
      assert inputs[..0] == [];
      if !inputs[0].Stop? && (inputs[0].Arrival? ==> !l.leaving) {
        TurnCovers(l, inputs[0], rejoin, f);
        MainLoopCovers(Turn(l, inputs[0], rejoin), inputs[1..], rejoin, f);
      }
    }
  }

  ghost predicate QueueTells(queued: seq<(Event, u64)>, f: Fact) {
    exists k :: 0 <= k < |queued| && Tells(Arrival(queued[k].0, queued[k].1), f)
  }

  lemma QueueFromFront(queued: seq<(Event, u64)>, f: Fact)
    requires queued != []
    ensures QueueTells(queued, f) <==> Tells(Arrival(queued[0].0, queued[0].1), f) || QueueTells(queued[1..], f)
  {
    if QueueTells(queued[1..], f) {
      var k :| 0 <= k < |queued[1..]| && Tells(Arrival(queued[1..][k].0, queued[1..][k].1), f);
      assert queued[k + 1] == queued[1..][k];
    }
    if k :| 0 < k < |queued| && Tells(Arrival(queued[k].0, queued[k].1), f) { assert queued[1..][k - 1] == queued[k]; }
  }

  lemma {:induction false} DrainCovers(l: Life, queued: seq<(Event, u64)>, rejoin: bool, f: Fact)
    requires !l.leaving
    ensures Covers(l.memory, f) || QueueTells(queued, f) ==> Covers(Drain(l, queued).memory, f)
    decreases |queued|
  {
    if queued == [] {
    } else {
      QueueFromFront(queued, f);
      TurnCovers(l, Arrival(queued[0].0, queued[0].1), rejoin, f);
      DrainCovers(Turn(l, Arrival(queued[0].0, queued[0].1), rejoin), queued[1..], rejoin, f);
    }
  }

  /** What the snapshotter comes to know in its life: in the main loop, at its end, and,
      unless there was a leave, from the queue. */
  ghost predicate LifeTells(l: Life, inputs: seq<Input>, late: bool, now: u64, queued: seq<(Event, u64)>,
                            rejoin: bool, f: Fact)
  {
    || Learned(inputs, l.leaving, f) || f == Read(now)
    || (!MainLoop(l, inputs, rejoin).leaving && !late && QueueTells(queued, f))
  }

  /** All of that is covered by its clocks. */
  lemma LifeCovers(l: Life, inputs: seq<Input>, late: bool, now: u64, queued: seq<(Event, u64)>, rejoin: bool, f: Fact)
    requires LifeTells(l, inputs, late, now, queued, rejoin, f)
    ensures Covers(WholeLife(l, inputs, late, now, queued, rejoin).memory, f)
  {
    MainLoopCovers(l, inputs, rejoin, f);
    var l1 := MainLoop(l, inputs, rejoin);
    var l2 := if late then Resigned(l1, rejoin) else l1;
    TurnCovers(l2, Tick(now), rejoin, f);
    if !l2.leaving { DrainCovers(Turn(l2, Tick(now), rejoin), queued, rejoin, f); }
  }

  /** The clocks show nothing else: each is as it was, or shows such a fact. */
  ghost predicate Founded(m: Memory, m': Memory, told: Fact -> bool) {
    && (m'.eventClock == m.eventClock || told(Saw(UserAt(m'.eventClock))))
    && (m'.queryClock == m.queryClock || told(Saw(QueryAt(m'.queryClock))))
    && (m'.clock == m.clock || (m'.clock < MAX && told(Read(m'.clock + 1))))
  }

  lemma TurnIsFounded(l: Life, x: Input, rejoin: bool)
    requires !x.Stop? && (x.Arrival? ==> !l.leaving)
    ensures Founded(l.memory, Turn(l, x, rejoin).memory, f => Tells(x, f))
  {
  }

  lemma FoundedOnMore(m: Memory, m1: Memory, m': Memory, one: Fact -> bool, more: Fact -> bool, told: Fact -> bool)
    requires Founded(m, m1, one) && Founded(m1, m', more)
    requires forall f :: one(f) || more(f) ==> told(f)
    ensures Founded(m, m', told)
  {
  }

  lemma {:induction false} MainLoopIsFounded(l: Life, inputs: seq<Input>, rejoin: bool, told: Fact -> bool)
    requires forall f :: Learned(inputs, l.leaving, f) ==> told(f)
    ensures Founded(l.memory, MainLoop(l, inputs, rejoin).memory, told)
    decreases |inputs|
  {
    if inputs == [] {
    } else if !inputs[0].Stop? && (inputs[0].Arrival? ==> !l.leaving) {
      assert inputs[..0] == [] && Handled(inputs, l.leaving, 0);
      var l1 := Turn(l, inputs[0], rejoin);
      forall f ensures Tells(inputs[0], f) || Learned(inputs[1..], l1.leaving, f) ==> told(f) {
        LearnedFromFront(inputs, l.leaving, f);
      }
      TurnIsFounded(l, inputs[0], rejoin);
      MainLoopIsFounded(l1, inputs[1..], rejoin, told);
      FoundedOnMore(l.memory, l1.memory, MainLoop(l1, inputs[1..], rejoin).memory,
                    f => Tells(inputs[0], f), told, told);
    }
  }

  lemma {:induction false} DrainIsFounded(l: Life, queued: seq<(Event, u64)>, rejoin: bool, told: Fact -> bool)
    requires !l.leaving && forall f :: QueueTells(queued, f) ==> told(f)
    ensures Founded(l.memory, Drain(l, queued).memory, told)
    decreases |queued|
  {
    if queued == [] {
    } else {
      var x := Arrival(queued[0].0, queued[0].1);
      forall f ensures Tells(x, f) || QueueTells(queued[1..], f) ==> told(f) { QueueFromFront(queued, f); }
      TurnIsFounded(l, x, rejoin);
      DrainIsFounded(Turn(l, x, rejoin), queued[1..], rejoin, told);
      FoundedOnMore(l.memory, Turn(l, x, rejoin).memory, Drain(l, queued).memory, f => Tells(x, f), told, told);
    }
  }

  lemma LifeIsFounded(l: Life, inputs: seq<Input>, late: bool, now: u64, queued: seq<(Event, u64)>, rejoin: bool,
                      told: Fact -> bool)
    requires forall f :: LifeTells(l, inputs, late, now, queued, rejoin, f) ==> told(f)
    ensures Founded(l.memory, WholeLife(l, inputs, late, now, queued, rejoin).memory, told)
  {
    var l1 := MainLoop(l, inputs, rejoin);
    var l2 := if late then Resigned(l1, rejoin) else l1;
    var l3 := Turn(l2, Tick(now), rejoin);
    MainLoopIsFounded(l, inputs, rejoin, told);
    TurnIsFounded(l2, Tick(now), rejoin);
    FoundedOnMore(l.memory, l2.memory, l3.memory, told, f => Tells(Tick(now), f), told);
    if !l2.leaving {
      DrainIsFounded(l3, queued, rejoin, told);
      FoundedOnMore(l.memory, l3.memory, Drain(l3, queued).memory, told, told, told);
    }
  }

  /** A leave that is waiting when the main loop ends counts: nothing queued is recorded,
      and the live nodes are those at the end of the loop when rejoining, none otherwise. */
  lemma LateLeaveCounts(l: Life, inputs: seq<Input>, now: u64, queued: seq<(Event, u64)>, rejoin: bool)
    ensures var after := WholeLife(l, inputs, true, now, queued, rejoin);
            && after.leaving && after.memory.alive == (if rejoin then MainLoop(l, inputs, rejoin).memory.alive else {})
            && after.memory.eventClock == MainLoop(l, inputs, rejoin).memory.eventClock
  {
  }

  // ----- What the next process makes of it -----

  /** In these runs the rings take nothing at the time of the event. */
  ghost predicate RingsRefuse(events: EventRing.Ring, eventOps: seq<EventRing.Op>,
                              queries: QueryRing.Ring, queryOps: seq<QueryRing.Op>, e: Event)
  {
    && (e.UserAt? ==> forall x :: x in EventRing.Run(events, eventOps).delivered ==> x.time > e.time)
    && (var verdicts := QueryRing.Verdicts(queries, queryOps);
        && |verdicts| == |queryOps|
        && (e.QueryAt? ==> forall k :: 0 <= k < |queryOps| && verdicts[k] ==>
              queryOps[k].Query? && queryOps[k].t > e.time))
  }

  /** Rings set up from the clocks of a life accept no user event and no query at a time
      that life saw, in any run. */
  lemma RecordedTimesAreNeverAcceptedAgain(
      l: Life, inputs: seq<Input>, late: bool, now: u64, queued: seq<(Event, u64)>, rejoin: bool, e: Event,
      eventSize: nat, eventOps: seq<EventRing.Op>, querySize: nat, queryOps: seq<QueryRing.Op>)
    requires LifeTells(l, inputs, late, now, queued, rejoin, Saw(e))
    ensures var m := WholeLife(l, inputs, late, now, queued, rejoin).memory;
            RingsRefuse(EventRing.Empty(Witnessed(1, m.eventClock), m.eventClock + 1, eventSize), eventOps,
                        QueryRing.Empty(Witnessed(1, m.queryClock), m.queryClock + 1, querySize), queryOps, e)
  {
    LifeCovers(l, inputs, late, now, queued, rejoin, Saw(e));
    var m := WholeLife(l, inputs, late, now, queued, rejoin).memory;
    EventRing.NothingIsDeliveredTwice(Witnessed(1, m.eventClock), m.eventClock + 1, eventSize, eventOps);
    OnlyAfterMinimum(QueryRing.Empty(Witnessed(1, m.queryClock), m.queryClock + 1, querySize), queryOps);
  }

  /** And they do accept what is newer: a first event, or query, is taken exactly if its
      time is past the recorded clock and there is a ring at all. */
  lemma NewerTimesAreAccepted(last: u64, size: nat, x: EventRing.Stamped, t: nat, id: nat)
    ensures EventRing.Accept(EventRing.Empty(Witnessed(1, last), last + 1, size), x).1 <==> size > 0 && x.time > last
    ensures QueryRing.Record(QueryRing.Empty(Witnessed(1, last), last + 1, size), t, id).1 <==> size > 0 && t > last
  {
  }

  /** Through the file: the snapshotter lives and stops, not having left for good, and a new
      process opens the file it left. Whatever then happens to the new process, its rings
      take nothing at a time the old one saw, and its member clock starts past every time
      at which the old one was read. */
  method RestartTakesNothingTwice(
      last: Snapshot, inputs: seq<Input>, late: bool, now: u64, queued: seq<(Event, u64)>, ghost f: Fact,
      eventSize: nat, ghost eventOps: seq<EventRing.Op>, querySize: nat, ghost queryOps: seq<QueryRing.Op>)
    returns (next: Snapshot, events: EventRing.EventCore, queries: QueryRing.QueryCore)
    requires last.Valid()
    requires LifeTells(Life(last.Mem(), last.leaving), inputs, late, now, queued, last.rejoin, f)
    modifies last
    ensures next.Valid() && next.file == last.file
    ensures last.Left() <==> last.leaving && !last.rejoin
    ensures !last.Left() ==> next.Mem() == last.Mem().(alive := Writables(last.codec, last.alive))
    ensures !last.Left() && f.Saw? ==> RingsRefuse(events.View(), eventOps, queries.View(), queryOps, f.e)
    ensures !last.Left() && f.Read? ==> Witnessed(1, next.lastClock) >= f.now
  {
    ghost var before := Life(last.Mem(), last.leaving);
    LifeCovers(before, inputs, late, now, queued, last.rejoin, f);
    if f.Saw? {
      RecordedTimesAreNeverAcceptedAgain(before, inputs, late, now, queued, last.rejoin, f.e,
                                         eventSize, eventOps, querySize, queryOps);
    }
    next, events, queries := LiveAndReopen(last, inputs, late, now, queued, eventSize, querySize);
  }

  method LiveAndReopen(
      last: Snapshot, inputs: seq<Input>, late: bool, now: u64, queued: seq<(Event, u64)>,
      eventSize: nat, querySize: nat)
    returns (next: Snapshot, events: EventRing.EventCore, queries: QueryRing.QueryCore)
    requires last.Valid()
    modifies last
    ensures last.Valid() && next.Valid() && next.file == last.file
    ensures !last.Left() ==>
              var m := WholeLife(old(Life(last.Mem(), last.leaving)), inputs, late, now, queued, last.rejoin).memory;
              && m == last.Mem() && next.Mem() == m.(alive := Writables(last.codec, m.alive))
              && events.View() == EventRing.Empty(Witnessed(1, m.eventClock), m.eventClock + 1, eventSize)
              && queries.View() == QueryRing.Empty(Witnessed(1, m.queryClock), m.queryClock + 1, querySize)
  {
    last.Stream(inputs, late, now, queued);
    next, events, queries := Reopen(last, eventSize, querySize);
  }

  /** So a restarted node is ahead of all it had recorded about others by the time its
      snapshotter last read the clock, and its stamps are new. */
  lemma RestartedNodeIsAhead(s: Membership.Serf, m: Memory, now: u64, versions: Versions)
    requires MembershipInvariants.Sound(s) && s.clock <= now && Covers(m, Read(now))
    ensures var next := Membership.Fresh(s.localId, versions, m.clock);
            && next.clock >= s.clock
            && (forall id :: id in s.states ==> s.states[id].statusTime < next.clock)
            && (forall id :: id in s.intents ==> s.intents[id].ltime < next.clock)
  {
  }

  lemma {:induction false} OnlyAfterMinimum(r: QueryRing.Ring, ops: seq<QueryRing.Op>)
    ensures |QueryRing.Verdicts(r, ops)| == |ops|
    ensures forall k :: 0 <= k < |ops| && QueryRing.Verdicts(r, ops)[k] ==> ops[k].Query? && ops[k].t >= r.minTime
    decreases |ops|
  {
    if ops == [] {
    } else {
      OnlyAfterMinimum(QueryRing.Do(r, ops[0]).0, ops[1..]);
      assert forall k :: 0 < k < |ops| ==> ops[k] == ops[1..][k - 1];
    }
  }
}
