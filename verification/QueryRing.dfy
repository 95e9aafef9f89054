/** De-duplication of queries with a ring of the last few Lamport times. */
module QueryRing {
  import opened Types
  import Clock

  /** All the query ids seen at one time. */
  datatype Queries = Queries(ltime: nat, ids: seq<nat>)

  datatype Ring = Ring(clock: nat, minTime: nat, buffer: seq<Option<Queries>>)

  /** Older than what a ring of this size can still tell apart. */
  predicate TooOld(clock: nat, size: nat, t: nat) {
    clock > size && t < clock - size
  }

  /** Two different times that share a slot are a ring apart. */
  lemma ModWindow(size: nat, a: nat, b: nat)
    requires size > 0 && a % size == b % size && a < b
    ensures b - a >= size
  {
    Apart(size, a / size, b / size, a % size);
  }

  lemma Apart(size: nat, p: nat, q: nat, rest: nat)
    requires size * p + rest < size * q + rest
    ensures size * q - size * p >= size
  {
    if p < q {
      var k := q - p - 1;
      assert size * q == size * p + size * k + size;
    }
  }

  /** Is the query new, and the ring afterwards. */
  function Record(r0: Ring, t: nat, id: nat): (Ring, bool) {
    var r := r0.(clock := Clock.Witnessed(r0.clock, t));
    if t < r.minTime || TooOld(r.clock, |r.buffer|, t) then (r, false)
    else
      var idx := t % |r.buffer|;
      var slot := r.buffer[idx];
      if slot.Some? && slot.value.ltime == t then
        if id in slot.value.ids then (r, false)
        else (r.(buffer := r.buffer[idx := Some(Queries(t, slot.value.ids + [id]))]), true)
      else (r.(buffer := r.buffer[idx := Some(Queries(t, [id]))]), true)
  }

  // ----- The ring against an unbounded set -----

  /** The same node with a perfect memory. */
  datatype Ideal = Ideal(clock: nat, minTime: nat, size: nat, seen: set<(nat, nat)>)

  function RecordIdeal(m0: Ideal, t: nat, id: nat): (Ideal, bool) {
    var m := m0.(clock := Clock.Witnessed(m0.clock, t));
    if t < m.minTime || t + m.size < m.clock || (t, id) in m.seen then (m, false)
    else (m.(seen := m.seen + {(t, id)}), true)
  }

  ghost predicate Agrees(r: Ring, m: Ideal) {
    && r.clock == m.clock && r.minTime == m.minTime && |r.buffer| == m.size
    && (forall i :: 0 <= i < |r.buffer| && r.buffer[i].Some? ==> SlotAgrees(r.buffer[i].value, i, m))
    && (forall x :: x in m.seen ==> Remembered(r, x))
  }

  /** A slot holds exactly what was seen at its time, which the clock has passed. */
  ghost predicate SlotAgrees(q: Queries, i: nat, m: Ideal) {
    && m.size > 0 && q.ltime % m.size == i && q.ltime < m.clock
    && forall id :: id in q.ids <==> (q.ltime, id) in m.seen
  }

  /** What was seen is in its slot, or a newer time has taken the slot over. */
  ghost predicate Remembered(r: Ring, x: (nat, nat)) {
    && |r.buffer| > 0
    && var slot := r.buffer[x.0 % |r.buffer|];
       slot.Some? && slot.value.ltime >= x.0
  }

  /** A time that is not too old meets only itself or an older time in its slot. */
  lemma SlotIsNotNewer(clock: nat, size: nat, t: nat, other: nat)
    requires size > 0 && t < clock && other < clock && !TooOld(clock, size, t) && t % size == other % size
    ensures other <= t
  {
    if t < other { ModWindow(size, t, other); }
  }

  /** The ring and the perfect memory answer alike, and go on agreeing. A slot is
      only ever given up to a strictly newer time. */
  lemma RecordAgrees(r: Ring, m: Ideal, t: nat, id: nat)
    requires Agrees(r, m)
    ensures Record(r, t, id).1 == RecordIdeal(m, t, id).1
    ensures Agrees(Record(r, t, id).0, RecordIdeal(m, t, id).0)
    ensures forall i :: 0 <= i < |r.buffer| && r.buffer[i].Some? ==>
              var now := Record(r, t, id).0.buffer[i];
              now.Some? && now.value.ltime >= r.buffer[i].value.ltime
              && (now.value.ltime == r.buffer[i].value.ltime ==> r.buffer[i].value.ids <= now.value.ids)
  {
    var r' := Record(r, t, id).0;
    var m' := RecordIdeal(m, t, id).0;
    var clock := Clock.Witnessed(r.clock, t);
    if t >= r.minTime && !TooOld(clock, |r.buffer|, t) {
      var idx := t % |r.buffer|;
      var slot := r.buffer[idx];
      if slot.Some? {
        assert SlotAgrees(slot.value, idx, m);
        SlotIsNotNewer(clock, m.size, t, slot.value.ltime);
      }
      assert (t, id) in m.seen ==> Remembered(r, (t, id));
      assert Record(r, t, id).1 == RecordIdeal(m, t, id).1;
      if Record(r, t, id).1 { RecordedAgrees(r, m, t, id, r', m'); }
    }
    if !Record(r, t, id).1 {
      forall i | 0 <= i < |r.buffer| && r.buffer[i].Some? ensures SlotAgrees(r.buffer[i].value, i, m') {
        assert SlotAgrees(r.buffer[i].value, i, m);
      }
      forall x | x in m'.seen ensures Remembered(r', x) { assert Remembered(r, x); }
    }
  }

  lemma RecordedAgrees(r: Ring, m: Ideal, t: nat, id: nat, r': Ring, m': Ideal)
    requires Agrees(r, m) && |r.buffer| > 0
    requires m' == Ideal(Clock.Witnessed(m.clock, t), m.minTime, m.size, m.seen + {(t, id)})
    requires var idx := t % |r.buffer|; var slot := r.buffer[idx];
             && (slot.Some? ==> slot.value.ltime <= t)
             && r' == Ring(m'.clock, r.minTime, r.buffer[idx := Some(Queries(t,
                  if slot.Some? && slot.value.ltime == t then slot.value.ids + [id] else [id]))])
    ensures Agrees(r', m')
  {
    var idx := t % |r.buffer|;
    var slot := r.buffer[idx];
    forall i | 0 <= i < |r'.buffer| && r'.buffer[i].Some? ensures SlotAgrees(r'.buffer[i].value, i, m') {
      if i != idx {
        assert SlotAgrees(r.buffer[i].value, i, m);
      } else {
        assert slot.Some? ==> SlotAgrees(slot.value, idx, m);
        forall x | x in m.seen && x.0 == t ensures slot.Some? && slot.value.ltime == t { assert Remembered(r, x); }
      }
    }
    forall x | x in m'.seen ensures Remembered(r', x) {
      if x != (t, id) { assert Remembered(r, x); }
    }
  }

  // ----- Runs -----

  /** A query arrives, or an exchange with a peer moves the clock. */
  datatype Op = Query(t: nat, id: nat) | Witness(t: nat)

  function Do(r: Ring, op: Op): (Ring, bool) {
    match op
    case Query(t, id) => Record(r, t, id)
    case Witness(t) => (r.(clock := Clock.Witnessed(r.clock, t)), false)
  }

  function DoIdeal(m: Ideal, op: Op): (Ideal, bool) {
    match op
    case Query(t, id) => RecordIdeal(m, t, id)
    case Witness(t) => (m.(clock := Clock.Witnessed(m.clock, t)), false)
  }

  /** Which operations of a run recorded a query. */
  function Verdicts(r: Ring, ops: seq<Op>): seq<bool>
    decreases |ops|
  {
    if ops == [] then [] else [Do(r, ops[0]).1] + Verdicts(Do(r, ops[0]).0, ops[1..])
  }

  function IdealVerdicts(m: Ideal, ops: seq<Op>): seq<bool>
    decreases |ops|
  {
    if ops == [] then [] else [DoIdeal(m, ops[0]).1] + IdealVerdicts(DoIdeal(m, ops[0]).0, ops[1..])
  }

  lemma OpAgrees(r: Ring, m: Ideal, op: Op)
    requires Agrees(r, m)
    ensures Do(r, op).1 == DoIdeal(m, op).1 && Agrees(Do(r, op).0, DoIdeal(m, op).0)
  {
    match op
    case Query(t, id) => RecordAgrees(r, m, t, id);
    case Witness(t) =>
      var r', m' := Do(r, op).0, DoIdeal(m, op).0;
      forall i | 0 <= i < |r.buffer| && r.buffer[i].Some? ensures SlotAgrees(r.buffer[i].value, i, m') {
        assert SlotAgrees(r.buffer[i].value, i, m);
      }
      forall x | x in m'.seen ensures Remembered(r', x) { assert Remembered(r, x); }
  }

  lemma {:induction false} RunAgrees(r: Ring, m: Ideal, ops: seq<Op>)
    requires Agrees(r, m)
    ensures Verdicts(r, ops) == IdealVerdicts(m, ops)
    decreases |ops|
  {
    if ops == [] {
    } else {
      OpAgrees(r, m, ops[0]);
      RunAgrees(Do(r, ops[0]).0, DoIdeal(m, ops[0]).0, ops[1..]);
    }
  }

  function Empty(clock: nat, minTime: nat, size: nat): Ring {
    Ring(clock, minTime, seq(size, _ => None))
  }

  /** In every run, from any starting clock and for a ring of any size, a query is
      recorded exactly when it is recent enough and never was recorded before. */
  lemma RingRefinesSeenSet(clock: nat, minTime: nat, size: nat, ops: seq<Op>)
    ensures Verdicts(Empty(clock, minTime, size), ops) == IdealVerdicts(Ideal(clock, minTime, size, {}), ops)
  {
    RunAgrees(Empty(clock, minTime, size), Ideal(clock, minTime, size, {}), ops);
  }

  /** A node without a buffer refuses every query before it divides by its size. */
  lemma NoBufferRefusesAll(r: Ring, t: nat, id: nat)
    requires r.buffer == []
    ensures TooOld(Clock.Witnessed(r.clock, t), |r.buffer|, t) && !Record(r, t, id).1
  {
  }

  // ----- The handler -----

  class QueryCore {
    var clock: nat
    const minTime: nat
    const buffer: array<Option<Queries>>
    var delivered: seq<(nat, nat)>   // queries sent to the event channel

    constructor (clock: nat, minTime: nat, size: nat)
      ensures View() == Empty(clock, minTime, size) && delivered == [] && fresh(buffer)
    {
      this.clock := clock;
      this.minTime := minTime;
      buffer := new Option<Queries>[size](_ => None);
      delivered := [];
    }

    ghost function View(): Ring
      reads this, buffer
    {
      Ring(clock, minTime, buffer[..])
    }

    /** The clock moves on with that of a peer. */
    method WitnessTime(t: nat)
      modifies this`clock
      ensures View() == Do(old(View()), Witness(t)).0
    {
      clock := Clock.Witnessed(clock, t);
    }

    /** `passes` is the verdict of the query's filters, None if one does not
        decode. The result is None for a decode error, else whether to
        rebroadcast. */
    method HandleQuery(t: nat, id: nat, noBroadcast: bool, passes: Option<bool>) returns (rebroadcast: Option<bool>)
      modifies this, buffer
      ensures var (ring, recorded) := Record(old(View()), t, id);
              && View() == ring
              && rebroadcast == (if !recorded then Some(false) else if passes.None? then None else Some(!noBroadcast))
              && delivered == old(delivered) + (if recorded && passes == Some(true) then [(t, id)] else [])
    {
      clock := Clock.Witnessed(clock, t);
      if t < minTime { return Some(false); }
      var size := buffer.Length;
      if clock > size && t < clock - size { return Some(false); }
      var idx := t % size;
      var startSlot := true;
      match buffer[idx] {
        case Some(seen) =>
          if seen.ltime == t {
            var i := 0;
            while i < |seen.ids|
              invariant 0 <= i <= |seen.ids| && id !in seen.ids[..i]
            {
              if seen.ids[i] == id { return Some(false); }
              i := i + 1;
            }
            assert seen.ids[..i] == seen.ids;
            buffer[idx] := Some(Queries(t, seen.ids + [id]));
            startSlot := false;
          }
        case None =>
      }
      if startSlot {
        buffer[idx] := Some(Queries(t, [id]));
      }
      assert buffer[..] == old(buffer[..])[idx := buffer[idx]];
      if passes.None? { return None; }
      rebroadcast := Some(!noBroadcast);
      if passes.value {
        delivered := delivered + [(t, id)];
      }
    }
  }
}
