/** De-duplication of user events. The ring looks like the one for queries, but a
    slot is never given up: events of any time that falls on a slot collect there. */
module EventRing {
  import opened Types
  import Clock
  import QueryRing

  datatype UserEvent = UserEvent(name: string, payload: string)

  datatype UserEvents = UserEvents(ltime: nat, events: seq<UserEvent>)

  datatype Stamped = Stamped(time: nat, event: UserEvent)

  datatype Ring = Ring(
    clock: nat,
    minTime: nat,
    buffer: seq<Option<UserEvents>>,
    delivered: seq<Stamped>          // everything sent to the event channel
  )

  function Empty(clock: nat, minTime: nat, size: nat): Ring {
    Ring(clock, minTime, seq(size, _ => None), [])
  }

  /** Neither before the minimum time nor too old for the ring. */
  predicate Recent(r: Ring, t: nat) {
    t >= r.minTime && !QueryRing.TooOld(r.clock, |r.buffer|, t)
  }

  function EventsAt(r: Ring, i: nat): seq<UserEvent>
    requires i < |r.buffer|
  {
    if r.buffer[i].Some? then r.buffer[i].value.events else []
  }

  function Witness(r: Ring, t: nat): Ring {
    r.(clock := Clock.Witnessed(r.clock, t))
  }

  /** Is the event delivered, and the ring afterwards. */
  function Accept(r0: Ring, x: Stamped): (Ring, bool) {
    var r := Witness(r0, x.time);
    if !Recent(r, x.time) then (r, false)
    else
      var i := x.time % |r.buffer|;
      if x.event in EventsAt(r, i) then (r, false)
      else
        var ltime := if r.buffer[i].Some? then r.buffer[i].value.ltime else x.time;
        var slot := UserEvents(ltime, EventsAt(r, i) + [x.event]);
        (r.(buffer := r.buffer[i := Some(slot)], delivered := r.delivered + [x]), true)
  }

  // ----- Exactly what is delivered -----

  predicate SharesSlot(size: nat, a: nat, b: nat) {
    size > 0 && a % size == b % size
  }

  /** The same content was delivered at a time that falls on the same slot. */
  ghost predicate Occupied(r: Ring, t: nat, e: UserEvent) {
    exists y :: y in r.delivered && y.event == e && SharesSlot(|r.buffer|, y.time, t)
  }

  ghost predicate Inv(r: Ring) {
    && r.minTime <= r.clock
    && (r.buffer == [] ==> r.delivered == [])
    && (forall x :: x in r.delivered ==> x.time < r.clock)
    && (forall i, e :: 0 <= i < |r.buffer| ==> (e in EventsAt(r, i) <==> Occupied(r, i, e)))
    && (forall i :: 0 <= i < |r.buffer| && r.buffer[i].Some? ==> SlotTimeIsReal(r, i))
    && (forall j, k :: 0 <= j < k < |r.delivered| && r.delivered[j].event == r.delivered[k].event ==>
          !SharesSlot(|r.buffer|, r.delivered[j].time, r.delivered[k].time))
  }

  /** The time of a slot is that of something delivered. */
  ghost predicate SlotTimeIsReal(r: Ring, i: nat)
    requires i < |r.buffer| && r.buffer[i].Some?
  {
    exists y :: y in r.delivered && y.time == r.buffer[i].value.ltime && y.time % |r.buffer| == i
  }

  lemma OwnSlot(size: nat, i: nat)
    requires i < size
    ensures i % size == i
  {
  }

  lemma OccupiedAtSlot(r: Ring, t: nat, e: UserEvent)
    requires |r.buffer| > 0
    ensures Occupied(r, t, e) <==> Occupied(r, t % |r.buffer|, e)
  {
    OwnSlot(|r.buffer|, t % |r.buffer|);
  }

  /** A recent event is delivered exactly if its content was not delivered before
      at a time on the same slot. */
  lemma DeliveredExactlyIfUnoccupied(r: Ring, x: Stamped)
    requires Inv(r)
    ensures Accept(r, x).1 <==> Recent(Witness(r, x.time), x.time) && !Occupied(r, x.time, x.event)
  {
    if |r.buffer| > 0 { OccupiedAtSlot(r, x.time, x.event); }
  }

  lemma AcceptKeepsInv(r: Ring, x: Stamped)
    requires Inv(r)
    ensures Inv(Accept(r, x).0)
  {
    DeliveredExactlyIfUnoccupied(r, x);
    var r' := Accept(r, x).0;
    if Accept(r, x).1 {
      forall y ensures y in r'.delivered <==> y in r.delivered || y == x {}
      forall i, e | 0 <= i < |r'.buffer| ensures e in EventsAt(r', i) <==> Occupied(r', i, e) {
        OccupiedByOneMore(r, x, i, e);
        assert e in EventsAt(r, i) <==> Occupied(r, i, e);
      }
      forall i | 0 <= i < |r'.buffer| && r'.buffer[i].Some? ensures SlotTimeIsReal(r', i) {
        if r.buffer[i].Some? {
          assert SlotTimeIsReal(r, i);
          var y :| y in r.delivered && y.time == r.buffer[i].value.ltime && y.time % |r.buffer| == i;
          assert y in r'.delivered;
        } else {
          assert x in r'.delivered;
        }
      }
      forall j, k | 0 <= j < k < |r'.delivered| && r'.delivered[j].event == r'.delivered[k].event
        ensures !SharesSlot(|r'.buffer|, r'.delivered[j].time, r'.delivered[k].time)
      {
        if k == |r.delivered| { assert r'.delivered[j] in r.delivered; }
      }
    } else {
      SameDelivered(r, r');
    }
  }

  lemma OccupiedByOneMore(r: Ring, x: Stamped, i: nat, e: UserEvent)
    requires Inv(r) && Accept(r, x).1 && i < |r.buffer|
    ensures Occupied(Accept(r, x).0, i, e) <==> Occupied(r, i, e) || (e == x.event && i == x.time % |r.buffer|)
  {
    var r' := Accept(r, x).0;
    OwnSlot(|r.buffer|, i);
    assert x in r'.delivered;
    if Occupied(r, i, e) {
      var y :| y in r.delivered && y.event == e && SharesSlot(|r.buffer|, y.time, i);
      assert y in r'.delivered;
    }
  }

  /** Moving the clock or the minimum time on keeps the invariant. */
  lemma SameDelivered(r: Ring, r': Ring)
    requires Inv(r) && r' == r.(clock := r'.clock, minTime := r'.minTime)
    requires r.clock <= r'.clock && r'.minTime <= r'.clock
    ensures Inv(r')
  {
    forall i, e | 0 <= i < |r'.buffer| ensures e in EventsAt(r', i) <==> Occupied(r', i, e) {
      assert EventsAt(r', i) == EventsAt(r, i);
      assert Occupied(r', i, e) <==> Occupied(r, i, e);
    }
    forall i | 0 <= i < |r'.buffer| && r'.buffer[i].Some? ensures SlotTimeIsReal(r', i) { assert SlotTimeIsReal(r, i); }
  }

  /** The handler delivers a recent event if and only if it never was delivered,
      as it should, exactly when the same content has not been delivered at some
      other time on the same slot. */
  lemma MeetsIdealUnlessOccupied(r: Ring, x: Stamped)
    requires Inv(r) && Recent(Witness(r, x.time), x.time)
    ensures (Accept(r, x).1 <==> x !in r.delivered) <==> (Occupied(r, x.time, x.event) ==> x in r.delivered)
  {
    DeliveredExactlyIfUnoccupied(r, x);
    if x in r.delivered { assert |r.buffer| > 0 && SharesSlot(|r.buffer|, x.time, x.time); }
  }

  /** It does fail: in a ring of any size, content sent again one ring later is
      recent and was never delivered at that time, and is dropped. */
  lemma SameContentOneRingLaterIsDropped(size: nat, t: nat, e: UserEvent)
    requires size > 0
    ensures var r := Accept(Empty(0, 0, size), Stamped(t, e)).0;
            var again := Stamped(t + size, e);
            && r.delivered == [Stamped(t, e)]
            && Recent(Witness(r, again.time), again.time) && again !in r.delivered
            && !Accept(r, again).1
  {
    var r := Accept(Empty(0, 0, size), Stamped(t, e)).0;
    AddRing(t, size);
    assert EventsAt(r, t % size) == [e];
  }

  lemma AddRing(t: nat, size: nat)
    requires size > 0
    ensures (t + size) % size == t % size
  {
    SameRemainder(size, t / size + 1, t % size, (t + size) / size, (t + size) % size);
  }

  lemma SameRemainder(size: nat, p: nat, a: nat, q: nat, b: nat)
    requires a < size && b < size && size * p + a == size * q + b
    ensures a == b
  {
    if p < q { QueryRing.Apart(size, p, q, 0); }
    if q < p { QueryRing.Apart(size, q, p, 0); }
  }

  // ----- Runs -----

  datatype Op = Arrives(x: Stamped) | Witnesses(t: nat) | RaisesMin(t: nat)

  /** The minimum time is only raised to an event clock just witnessed. */
  function RaiseMin(r: Ring, eventTime: nat): Ring {
    var r' := if eventTime > 0 then Witness(r, eventTime - 1) else r;
    if eventTime > r'.minTime then r'.(minTime := eventTime) else r'
  }

  function Do(r: Ring, op: Op): Ring {
    match op
    case Arrives(x) => Accept(r, x).0
    case Witnesses(t) => Witness(r, t)
    case RaisesMin(t) => RaiseMin(r, t)
  }

  function Run(r: Ring, ops: seq<Op>): Ring
    decreases |ops|
  {
    if ops == [] then r else Run(Do(r, ops[0]), ops[1..])
  }

  /** A later state of the same node, in which nothing timed before the minimum
      time has been delivered since. */
  ghost predicate Follows(r: Ring, r': Ring) {
    && r.minTime <= r'.minTime && r.clock <= r'.clock && |r.buffer| == |r'.buffer| && r.delivered <= r'.delivered
    && forall k :: |r.delivered| <= k < |r'.delivered| ==> r'.delivered[k].time >= r.minTime
  }

  lemma OpKeepsInv(r: Ring, op: Op)
    requires Inv(r)
    ensures Inv(Do(r, op)) && Follows(r, Do(r, op))
  {
    match op
    case Arrives(x) => AcceptKeepsInv(r, x);
    case Witnesses(t) => SameDelivered(r, Do(r, op));
    case RaisesMin(t) => SameDelivered(r, Do(r, op));
  }

  lemma {:induction false} RunKeepsInv(r: Ring, ops: seq<Op>)
    requires Inv(r)
    ensures Inv(Run(r, ops)) && Follows(r, Run(r, ops))
    decreases |ops|
  {
    if ops == [] {
    } else {
      var r1 := Do(r, ops[0]);
      OpKeepsInv(r, ops[0]);
      RunKeepsInv(r1, ops[1..]);
      var r2 := Run(r1, ops[1..]);
      assert forall k :: |r.delivered| <= k < |r1.delivered| ==> r2.delivered[k] == r1.delivered[k];
    }
  }

  /** In no run is an event, the same content with the same time, delivered twice,
      nor anything timed before the minimum time the node started with. */
  lemma NothingIsDeliveredTwice(clock: nat, minTime: nat, size: nat, ops: seq<Op>)
    requires minTime <= clock
    ensures var d := Run(Empty(clock, minTime, size), ops).delivered; forall j, k :: 0 <= j < k < |d| ==> d[j] != d[k]
    ensures forall x :: x in Run(Empty(clock, minTime, size), ops).delivered ==> x.time >= minTime
  {
    var r := Empty(clock, minTime, size);
    RunKeepsInv(r, ops);
    var r' := Run(r, ops);
    forall j, k | 0 <= j < k < |r'.delivered| ensures r'.delivered[j] != r'.delivered[k] {
      if r'.delivered[j] == r'.delivered[k] {
        assert SharesSlot(|r'.buffer|, r'.delivered[j].time, r'.delivered[k].time);
      }
    }
  }

  /** After a join that ignores old events, nothing timed before the peer's event
      clock is ever delivered, be it in the exchange or later. */
  lemma IgnoredEventsStayIgnored(r: Ring, eventTime: nat, ops: seq<Op>)
    requires Inv(r)
    ensures var r' := Run(RaiseMin(r, eventTime), ops);
            && r.delivered <= r'.delivered
            && forall k :: |r.delivered| <= k < |r'.delivered| ==> r'.delivered[k].time >= eventTime
  {
    OpKeepsInv(r, RaisesMin(eventTime));
    RunKeepsInv(RaiseMin(r, eventTime), ops);
  }

  // ----- A node's own events -----

  /** An operation that leaves an event stamped `t` recent: no time a whole ring
      later arrives or is witnessed, and the minimum time is not raised past it. */
  predicate Spares(op: Op, t: nat, size: nat) {
    match op
    case Arrives(x) => x.time < t + size
    case Witnesses(other) => other < t + size
    case RaisesMin(other) => other <= t
  }

  /** The clock is less than a ring past `t`, and the minimum time not past it. */
  predicate StillRecent(r: Ring, t: nat) {
    r.clock <= t + |r.buffer| && r.minTime <= t
  }

  lemma {:induction false} StillRecentIffSpared(r: Ring, t: nat, ops: seq<Op>)
    ensures StillRecent(Run(r, ops), t) <==>
            StillRecent(r, t) && forall k :: 0 <= k < |ops| ==> Spares(ops[k], t, |r.buffer|)
    ensures |Run(r, ops).buffer| == |r.buffer| && Run(r, ops).clock >= r.clock
    decreases |ops|
  {
    if ops == [] {
    } else {
      var r1 := Do(r, ops[0]);
      assert |r1.buffer| == |r.buffer| && r1.clock >= r.clock;
      assert StillRecent(r1, t) <==> StillRecent(r, t) && Spares(ops[0], t, |r.buffer|);
      StillRecentIffSpared(r1, t, ops[1..]);
      assert forall k :: 0 < k < |ops| ==> ops[k] == ops[1..][k - 1];
    }
  }

  /** A node stamps an event of its own with the clock and increments it; other
      things may happen before it processes the event. By then the event is recent
      exactly if the node has a ring and each of those spares it; and the node
      delivers it exactly if, besides, its slot has not got the content. */
  lemma OwnEventIsRecentIffSpared(r: Ring, e: UserEvent, ops: seq<Op>)
    requires Inv(r)
    ensures var r' := Run(Witness(r, r.clock), ops);
            var spared := |r.buffer| > 0 && forall k :: 0 <= k < |ops| ==> Spares(ops[k], r.clock, |r.buffer|);
            && (Recent(Witness(r', r.clock), r.clock) <==> spared)
            && (Accept(r', Stamped(r.clock, e)).1 <==> spared && !Occupied(r', r.clock, e))
  {
    var r0 := Witness(r, r.clock);
    var r' := Run(r0, ops);
    SameDelivered(r, r0);
    RunKeepsInv(r0, ops);
    StillRecentIffSpared(r0, r.clock, ops);
    DeliveredExactlyIfUnoccupied(r', Stamped(r.clock, e));
  }

  /** It does happen: a join that ignores old events, completed in between, makes
      the node drop its own event. */
  lemma OwnEventIsDroppedByLaterMinimum(r: Ring, e: UserEvent, later: nat)
    requires Inv(r) && later > r.clock
    ensures !Accept(RaiseMin(Witness(r, r.clock), later), Stamped(r.clock, e)).1
  {
    var ops := [RaisesMin(later)];
    assert ops[1..] == [];
    assert Run(Witness(r, r.clock), ops) == Run(RaiseMin(Witness(r, r.clock), later), ops[1..]);
    OwnEventIsRecentIffSpared(r, e, ops);
    assert !Spares(ops[0], r.clock, |r.buffer|);
  }

  // ----- The exchange with a peer -----

  predicate SlotSends(slot: Option<UserEvents>, x: Stamped) {
    slot.Some? && x.time == slot.value.ltime && x.event in slot.value.events
  }

  /** What a node sends: the events of each slot, all with the time of the slot. */
  ghost predicate Exchanged(r: Ring, x: Stamped) {
    exists i :: 0 <= i < |r.buffer| && SlotSends(r.buffer[i], x)
  }

  lemma ExchangedIsBeforeTheClock(r: Ring, x: Stamped)
    requires Inv(r) && Exchanged(r, x)
    ensures x.time < r.clock
  {
    var i :| 0 <= i < |r.buffer| && SlotSends(r.buffer[i], x);
    assert SlotTimeIsReal(r, i);
  }

  function AcceptAll(r: Ring, xs: seq<Stamped>): Ring {
    if xs == [] then r else Accept(AcceptAll(r, xs[..|xs| - 1]), xs[|xs| - 1]).0
  }

  /** Before the events, the peer's event clock is witnessed. */
  function Begin(r: Ring, eventTime: nat, ignoreOld: bool): Ring {
    if ignoreOld then RaiseMin(r, eventTime) else if eventTime > 0 then Witness(r, eventTime - 1) else r
  }

  function Merge(r: Ring, eventTime: nat, ignoreOld: bool, xs: seq<Stamped>): Ring {
    AcceptAll(Begin(r, eventTime, ignoreOld), xs)
  }

  /** The clock comes to the peer's and no further, and the minimum time is raised to it
      exactly if old events are to be ignored. */
  lemma BeginsAtPeersTime(r: Ring, eventTime: nat, ignoreOld: bool)
    ensures var r' := Begin(r, eventTime, ignoreOld);
            && r' == r.(clock := r'.clock, minTime := r'.minTime)
            && r'.clock == (if r.clock < eventTime then eventTime else r.clock)
            && r'.minTime == if ignoreOld && r.minTime < eventTime then eventTime else r.minTime
  {
  }

  /** No time is made up in a merge: the clock is the least past its own, the peer's, and
      the times of the events. */
  lemma {:induction false} MergeMovesClockNoFurther(r: Ring, eventTime: nat, ignoreOld: bool, xs: seq<Stamped>)
    ensures var c := Merge(r, eventTime, ignoreOld, xs).clock;
            && c >= r.clock && c >= eventTime && (forall x :: x in xs ==> c > x.time)
            && (c == r.clock || c == eventTime || exists x :: x in xs && c == x.time + 1)
    decreases |xs|
  {
    BeginsAtPeersTime(r, eventTime, ignoreOld);
    if xs == [] {
    } else {
      var n := |xs| - 1;
      MergeMovesClockNoFurther(r, eventTime, ignoreOld, xs[..n]);
      assert xs == xs[..n] + [xs[n]];
      var c := Merge(r, eventTime, ignoreOld, xs[..n]).clock;
      assert Merge(r, eventTime, ignoreOld, xs).clock == Clock.Witnessed(c, xs[n].time);
      assert xs[n] in xs;
      if c != r.clock && c != eventTime {
        var x :| x in xs[..n] && c == x.time + 1;
        assert x in xs;
      }
    }
  }

  /** Of a peer's own message: the clock ends at the later of the two. */
  lemma MergeMeetsPeersClock(r: Ring, peer: Ring, ignoreOld: bool, xs: seq<Stamped>)
    requires Inv(peer) && forall x :: x in xs ==> Exchanged(peer, x)
    ensures Merge(r, peer.clock, ignoreOld, xs).clock == if r.clock < peer.clock then peer.clock else r.clock
  {
    MergeMovesClockNoFurther(r, peer.clock, ignoreOld, xs);
    forall x | x in xs ensures x.time < peer.clock { ExchangedIsBeforeTheClock(peer, x); }
  }

  /** An event of `done` that the ring takes. */
  ghost predicate Taken(r: Ring, done: set<Stamped>, i: nat, x: Stamped) {
    x in done && Recent(r, x.time) && |r.buffer| > 0 && x.time % |r.buffer| == i
  }

  /** What any order of the events `done`, all from before the clock, makes of a ring. */
  ghost predicate Absorbed(r: Ring, done: set<Stamped>, r': Ring) {
    && r'.clock == r.clock && r'.minTime == r.minTime && |r'.buffer| == |r.buffer|
    && forall i :: 0 <= i < |r.buffer| ==> SlotAbsorbed(r, done, r', i)
  }

  ghost predicate SlotAbsorbed(r: Ring, done: set<Stamped>, r': Ring, i: nat)
    requires i < |r.buffer| == |r'.buffer|
  {
    && (forall e :: e in EventsAt(r', i) <==> e in EventsAt(r, i) || exists x :: Taken(r, done, i, x) && x.event == e)
    && (r.buffer[i].Some? ==> r'.buffer[i].Some? && r'.buffer[i].value.ltime == r.buffer[i].value.ltime)
    && (r.buffer[i].None? && r'.buffer[i].Some? ==>
          exists x :: Taken(r, done, i, x) && x.time == r'.buffer[i].value.ltime)
  }

  lemma OneMoreEvent(r: Ring, done: set<Stamped>, r1: Ring, x: Stamped)
    requires Absorbed(r, done, r1) && x.time < r.clock
    ensures Absorbed(r, done + {x}, Accept(r1, x).0)
  {
    var r2 := Accept(r1, x).0;
    var all := done + {x};
    forall i | 0 <= i < |r.buffer| ensures SlotAbsorbed(r, all, r2, i) {
      assert SlotAbsorbed(r, done, r1, i);
      forall y ensures Taken(r, all, i, y) <==> Taken(r, done, i, y) || (y == x && Taken(r, {x}, i, x)) {}
      if Taken(r, {x}, i, x) {
        assert Taken(r, all, i, x);
        assert forall e :: e in EventsAt(r2, i) <==> e in EventsAt(r1, i) || e == x.event;
      } else {
        assert r2.buffer[i] == r1.buffer[i];
      }
    }
  }

  lemma {:induction false} AnyOrderIsAbsorbed(r: Ring, xs: seq<Stamped>)
    requires forall x :: x in xs ==> x.time < r.clock
    ensures Absorbed(r, (set x | x in xs), AcceptAll(r, xs))
  {
    if xs == [] {
      assert (set x | x in xs) == {};
      forall i | 0 <= i < |r.buffer| ensures SlotAbsorbed(r, {}, r, i) {
        assert forall x :: !Taken(r, {}, i, x);
      }
    } else {
      var n := |xs| - 1;
      AnyOrderIsAbsorbed(r, xs[..n]);
      assert xs == xs[..n] + [xs[n]];
      assert (set x | x in xs) == (set x | x in xs[..n]) + {xs[n]};
      OneMoreEvent(r, (set x | x in xs[..n]), AcceptAll(r, xs[..n]), xs[n]);
    }
  }

  /** Equal but for the order of the events within the slots. */
  ghost predicate SameRing(a: Ring, b: Ring) {
    && a.clock == b.clock && a.minTime == b.minTime && |a.buffer| == |b.buffer|
    && forall i :: 0 <= i < |a.buffer| ==>
         && (a.buffer[i].Some? <==> b.buffer[i].Some?)
         && (a.buffer[i].Some? ==> a.buffer[i].value.ltime == b.buffer[i].value.ltime)
         && (forall e :: e in EventsAt(a, i) <==> e in EventsAt(b, i))
  }

  lemma TakenTimesAgree(r: Ring, done: set<Stamped>, i: nat, x: Stamped, y: Stamped)
    requires Taken(r, done, i, x) && Taken(r, done, i, y) && x.time < r.clock && y.time < r.clock
    ensures x.time == y.time
  {
    if x.time < y.time { QueryRing.ModWindow(|r.buffer|, x.time, y.time); }
    if y.time < x.time { QueryRing.ModWindow(|r.buffer|, y.time, x.time); }
  }

  ghost predicate SlotsFilled(r: Ring) {
    forall i :: 0 <= i < |r.buffer| && r.buffer[i].Some? ==> r.buffer[i].value.events != []
  }

  lemma AbsorbedIsUnique(r: Ring, done: set<Stamped>, a: Ring, b: Ring)
    requires Absorbed(r, done, a) && Absorbed(r, done, b) && forall x :: x in done ==> x.time < r.clock
    requires SlotsFilled(a) && SlotsFilled(b)
    ensures SameRing(a, b)
  {
    forall i | 0 <= i < |r.buffer|
      ensures (a.buffer[i].Some? <==> b.buffer[i].Some?) && (forall e :: e in EventsAt(a, i) <==> e in EventsAt(b, i))
      ensures a.buffer[i].Some? ==> a.buffer[i].value.ltime == b.buffer[i].value.ltime
    {
      assert SlotAbsorbed(r, done, a, i) && SlotAbsorbed(r, done, b, i);
      assert a.buffer[i].Some? ==> EventsAt(a, i)[0] in EventsAt(b, i);
      assert b.buffer[i].Some? ==> EventsAt(b, i)[0] in EventsAt(a, i);
      if a.buffer[i].Some? && r.buffer[i].None? {
        var x :| Taken(r, done, i, x) && x.time == a.buffer[i].value.ltime;
        var y :| Taken(r, done, i, y) && y.time == b.buffer[i].value.ltime;
        TakenTimesAgree(r, done, i, x, y);
      }
    }
  }

  lemma {:induction false} AcceptAllKeepsInv(r: Ring, xs: seq<Stamped>)
    requires Inv(r)
    ensures Inv(AcceptAll(r, xs))
  {
    if xs == [] {
    } else {
      AcceptAllKeepsInv(r, xs[..|xs| - 1]);
      AcceptKeepsInv(AcceptAll(r, xs[..|xs| - 1]), xs[|xs| - 1]);
    }
  }

  lemma InvFillsSlots(r: Ring)
    requires Inv(r)
    ensures SlotsFilled(r)
  {
    forall i | 0 <= i < |r.buffer| && r.buffer[i].Some? ensures r.buffer[i].value.events != [] {
      assert SlotTimeIsReal(r, i);
      var y :| y in r.delivered && y.time == r.buffer[i].value.ltime && y.time % |r.buffer| == i;
      OwnSlot(|r.buffer|, i);
      assert Occupied(r, i, y.event);
    }
  }

  lemma BeginKeepsInv(r: Ring, eventTime: nat, ignoreOld: bool)
    requires Inv(r)
    ensures Inv(Begin(r, eventTime, ignoreOld)) && Begin(r, eventTime, ignoreOld).clock >= eventTime
  {
    SameDelivered(r, Begin(r, eventTime, ignoreOld));
  }

  /** Merging a peer's events does not depend on their order. */
  lemma MergeOrderDoesNotMatter(r: Ring, peer: Ring, ignoreOld: bool, xs: seq<Stamped>, ys: seq<Stamped>)
    requires Inv(r) && Inv(peer)
    requires (forall x :: x in xs <==> Exchanged(peer, x)) && (forall y :: y in ys <==> Exchanged(peer, y))
    ensures SameRing(Merge(r, peer.clock, ignoreOld, xs), Merge(r, peer.clock, ignoreOld, ys))
  {
    var r0 := Begin(r, peer.clock, ignoreOld);
    BeginKeepsInv(r, peer.clock, ignoreOld);
    forall x | x in xs ensures x.time < r0.clock { ExchangedIsBeforeTheClock(peer, x); }
    AnyOrderIsAbsorbed(r0, xs);
    AnyOrderIsAbsorbed(r0, ys);
    AcceptAllKeepsInv(r0, xs);
    AcceptAllKeepsInv(r0, ys);
    InvFillsSlots(AcceptAll(r0, xs));
    InvFillsSlots(AcceptAll(r0, ys));
    assert (set x | x in xs) == (set x | x in ys);
    AbsorbedIsUnique(r0, (set x | x in xs), AcceptAll(r0, xs), AcceptAll(r0, ys));
  }

  /** Merging the same events again, in any order, changes nothing and delivers nothing. */
  lemma MergeIsIdempotent(r: Ring, peer: Ring, ignoreOld: bool, xs: seq<Stamped>, ys: seq<Stamped>)
    requires Inv(r) && Inv(peer)
    requires (forall x :: x in xs <==> Exchanged(peer, x)) && (forall y :: y in ys <==> Exchanged(peer, y))
    ensures var r' := Merge(r, peer.clock, ignoreOld, xs); Merge(r', peer.clock, ignoreOld, ys) == r'
  {
    var r0 := Begin(r, peer.clock, ignoreOld);
    BeginKeepsInv(r, peer.clock, ignoreOld);
    forall x | x in xs ensures x.time < r0.clock { ExchangedIsBeforeTheClock(peer, x); }
    AnyOrderIsAbsorbed(r0, xs);
    var r' := AcceptAll(r0, xs);
    forall y | y in ys ensures Spent(r', y) {
      AbsorbedIsSpent(r0, (set x | x in xs), r', y);
    }
    assert Begin(r', peer.clock, ignoreOld) == r';
    SpentChangesNothing(r', ys);
  }

  lemma AbsorbedIsSpent(r: Ring, done: set<Stamped>, r': Ring, y: Stamped)
    requires Absorbed(r, done, r') && y in done && y.time < r.clock
    ensures Spent(r', y)
  {
    if Recent(r, y.time) {
      var i := y.time % |r.buffer|;
      assert SlotAbsorbed(r, done, r', i);
      assert Taken(r, done, i, y);
    }
  }

  /** An event that is refused and leaves no trace. */
  predicate Spent(r: Ring, x: Stamped) {
    x.time < r.clock && (Recent(r, x.time) ==> x.event in EventsAt(r, x.time % |r.buffer|))
  }

  lemma {:induction false} SpentChangesNothing(r: Ring, xs: seq<Stamped>)
    requires forall x :: x in xs ==> Spent(r, x)
    ensures AcceptAll(r, xs) == r
  {
    if xs == [] {
    } else {
      SpentChangesNothing(r, xs[..|xs| - 1]);
      assert Spent(r, xs[|xs| - 1]);
    }
  }

  // ----- The handlers -----

  class EventCore {
    var clock: nat
    var minTime: nat
    const buffer: array<Option<UserEvents>>
    var delivered: seq<Stamped>

    constructor (clock: nat, minTime: nat, size: nat)
      ensures View() == Empty(clock, minTime, size) && fresh(buffer)
    {
      this.clock := clock;
      this.minTime := minTime;
      buffer := new Option<UserEvents>[size](_ => None);
      delivered := [];
    }

    ghost function View(): Ring
      reads this, buffer
    {
      Ring(clock, minTime, buffer[..], delivered)
    }

    method HandleUserEvent(t: nat, event: UserEvent) returns (rebroadcast: bool)
      modifies this, buffer
      ensures (View(), rebroadcast) == Accept(old(View()), Stamped(t, event))
    {
      clock := Clock.Witnessed(clock, t);
      if t < minTime { return false; }
      var size := buffer.Length;
      if clock > size && t < clock - size { return false; }
      var idx := t % size;
      match buffer[idx] {
        case Some(seen) =>
          var i := 0;
          while i < |seen.events|
            invariant 0 <= i <= |seen.events| && event !in seen.events[..i]
          {
            if seen.events[i] == event { return false; }
            i := i + 1;
          }
          assert seen.events[..i] == seen.events;
          buffer[idx] := Some(UserEvents(seen.ltime, seen.events + [event]));
        case None =>
          buffer[idx] := Some(UserEvents(t, [event]));
          assert [] + [event] == [event];
      }
      assert buffer[..] == old(buffer[..])[idx := buffer[idx]];
      delivered := delivered + [Stamped(t, event)];
      return true;
    }

    /** The events of one slot that a peer sent. */
    method HandleSlot(slot: UserEvents, ghost start: Ring, ghost before: seq<Stamped>)
      requires View() == AcceptAll(start, before)
      modifies this, buffer
      ensures View() == AcceptAll(start, before + Stamp(slot.ltime, slot.events))
    {
      var es := slot.events;
      var j := 0;
      assert before + Stamp(slot.ltime, es[..0]) == before;
      while j < |es|
        invariant 0 <= j <= |es|
        invariant View() == AcceptAll(start, before + Stamp(slot.ltime, es[..j]))
      {
        var _ := HandleUserEvent(slot.ltime, es[j]);
        ghost var done := before + Stamp(slot.ltime, es[..j]);
        ghost var more := before + Stamp(slot.ltime, es[..j + 1]);
        assert more == done + [Stamped(slot.ltime, es[j])];
        assert more[..|more| - 1] == done;
        j := j + 1;
      }
      assert es[..j] == es;
    }

    /** The event part of `merge_remote_state`: `slots` is what the peer sent. */
    method MergeEvents(eventTime: nat, ignoreOld: bool, slots: seq<UserEvents>)
      modifies this, buffer
      ensures View() == Merge(old(View()), eventTime, ignoreOld, Flatten(slots))
    {
      if eventTime > 0 { clock := Clock.Witnessed(clock, eventTime - 1); }
      if ignoreOld && eventTime > minTime { minTime := eventTime; }
      ghost var start := View();
      var i := 0;
      assert Flatten(slots[..0]) == [];
      while i < |slots|
        invariant 0 <= i <= |slots|
        invariant View() == AcceptAll(start, Flatten(slots[..i]))
      {
        HandleSlot(slots[i], start, Flatten(slots[..i]));
        assert slots[..i + 1][..i] == slots[..i];
        i := i + 1;
      }
      assert slots[..i] == slots;
    }
  }

  function Stamp(t: nat, es: seq<UserEvent>): seq<Stamped> {
    seq(|es|, i requires 0 <= i < |es| => Stamped(t, es[i]))
  }

  function Flatten(slots: seq<UserEvents>): seq<Stamped> {
    if slots == [] then []
    else Flatten(slots[..|slots| - 1]) + Stamp(slots[|slots| - 1].ltime, slots[|slots| - 1].events)
  }

  // ----- What is sent -----

  /** The slots that hold something, as a node sends them. */
  function FilledSlots(buffer: seq<Option<UserEvents>>): seq<UserEvents> {
    if buffer == [] then []
    else
      var n := |buffer| - 1;
      FilledSlots(buffer[..n]) + if buffer[n].Some? then [buffer[n].value] else []
  }

  /** Stamped one by one they are exactly the events that are exchanged. */
  lemma {:induction false} SlotsHoldTheExchanged(buffer: seq<Option<UserEvents>>, x: Stamped)
    ensures x in Flatten(FilledSlots(buffer)) <==> exists i :: 0 <= i < |buffer| && SlotSends(buffer[i], x)
  {
    if buffer == [] {
    } else {
      var n := |buffer| - 1;
      SlotsHoldTheExchanged(buffer[..n], x);
      var before := FilledSlots(buffer[..n]);
      if buffer[n].Some? {
        var slot := buffer[n].value;
        assert (before + [slot])[..|before|] == before;
        assert Flatten(before + [slot]) == Flatten(before) + Stamp(slot.ltime, slot.events);
        StampHolds(slot.ltime, slot.events, x);
      } else {
        assert FilledSlots(buffer) == before;
      }
      if i :| 0 <= i < n && SlotSends(buffer[..n][i], x) { assert buffer[i] == buffer[..n][i]; }
      if i :| 0 <= i < |buffer| && SlotSends(buffer[i], x) { assert i < n ==> buffer[..n][i] == buffer[i]; }
    }
  }

  lemma StampHolds(t: nat, es: seq<UserEvent>, x: Stamped)
    ensures x in Stamp(t, es) <==> x.time == t && x.event in es
  {
    if x.time == t && x.event in es {
      var i :| 0 <= i < |es| && es[i] == x.event;
      assert Stamp(t, es)[i] == x;
    }
  }
}
