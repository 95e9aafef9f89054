/** Coalescing of member events: between two flushes only the latest event of each
    node counts, and a flush leaves out what consumers know already. */
module MemberCoalescer {
  import opened Types

  datatype Pending = Pending(ty: EventType, member: Member)

  /** The type last emitted for each node, and what came in since the last flush. */
  datatype State = State(last: map<Node, EventType>, latest: map<Node, Pending>)

  const EMPTY: State := State(map[], map[])

  function Receive(s: State, ty: EventType, members: seq<Member>): State {
    if members == [] then s
    else
      var m := members[|members| - 1];
      var s' := Receive(s, ty, members[..|members| - 1]);
      s'.(latest := s'.latest[m.node := Pending(ty, m)])
  }

  /** Does a flush emit something for this node? */
  predicate Emits(s: State, n: Node) {
    n in s.latest && !(n in s.last && s.last[n] == s.latest[n].ty && !s.latest[n].ty.Updated?)
  }

  function Flushed(s: State): State {
    State(s.last + map n | n in s.latest :: s.latest[n].ty, map[])
  }

  // ----- Whole runs -----

  datatype Op = Receives(ty: EventType, members: seq<Member>) | Flushes

  function After(ops: seq<Op>): State {
    if ops == [] then EMPTY
    else
      var s := After(ops[..|ops| - 1]);
      match ops[|ops| - 1]
      case Receives(ty, members) => Receive(s, ty, members)
      case Flushes => Flushed(s)
  }

  /** What is emitted for a node in the course of a run. */
  function Emitted(ops: seq<Op>, n: Node): seq<Pending> {
    if ops == [] then []
    else
      var before := ops[..|ops| - 1];
      Emitted(before, n) +
      if ops[|ops| - 1].Flushes? && Emits(After(before), n) then [After(before).latest[n]] else []
  }

  // ----- What is to be emitted, told from what was received -----

  /** The last of the members that is this node. */
  function LastNamed(members: seq<Member>, n: Node): Option<Member> {
    if members == [] then None
    else if members[|members| - 1].node == n then Some(members[|members| - 1])
    else LastNamed(members[..|members| - 1], n)
  }

  /** The last event about a node since the last flush. */
  function SinceFlush(ops: seq<Op>, n: Node): Option<Pending> {
    if ops == [] then None
    else match ops[|ops| - 1]
         case Flushes => None
         case Receives(ty, members) =>
           if LastNamed(members, n).Some? then Some(Pending(ty, LastNamed(members, n).value))
           else SinceFlush(ops[..|ops| - 1], n)
  }

  /** The last event about a node before each flush, where there was one. */
  function Summaries(ops: seq<Op>, n: Node): seq<Pending> {
    if ops == [] then []
    else
      var before := ops[..|ops| - 1];
      Summaries(before, n) +
      if ops[|ops| - 1].Flushes? && SinceFlush(before, n).Some? then [SinceFlush(before, n).value] else []
  }

  /** Without those of the same type as the one before, unless they are updates. */
  function WithoutRepeats(ps: seq<Pending>): seq<Pending> {
    if ps == [] then []
    else
      var k := |ps| - 1;
      WithoutRepeats(ps[..k]) + if k > 0 && ps[k - 1].ty == ps[k].ty && !ps[k].ty.Updated? then [] else [ps[k]]
  }

  lemma {:induction false} ReceiveTouchesNamed(s: State, ty: EventType, members: seq<Member>, n: Node)
    ensures var s' := Receive(s, ty, members);
            && s'.last == s.last
            && (match LastNamed(members, n)
                case Some(m) => n in s'.latest && s'.latest[n] == Pending(ty, m)
                case None => (n in s'.latest <==> n in s.latest) && (n in s.latest ==> s'.latest[n] == s.latest[n]))
  {
    if members == [] {
    } else {
      ReceiveTouchesNamed(s, ty, members[..|members| - 1], n);
    }
  }

  /** What is known about one node at any point of a run. */
  ghost predicate Tracks(ops: seq<Op>, n: Node) {
    var (s, summaries) := (After(ops), Summaries(ops, n));
    && Emitted(ops, n) == WithoutRepeats(summaries)
    && SinceFlush(ops, n) == (if n in s.latest then Some(s.latest[n]) else None)
    && (n in s.last <==> summaries != [])
    && (summaries != [] ==> s.last[n] == summaries[|summaries| - 1].ty)
  }

  lemma {:induction false} OneMoreSummary(ps: seq<Pending>, p: Pending)
    ensures WithoutRepeats(ps + [p]) ==
            WithoutRepeats(ps) + if ps != [] && ps[|ps| - 1].ty == p.ty && !p.ty.Updated? then [] else [p]
  {
    var more := ps + [p];
    assert more[..|ps|] == ps && more[|ps|] == p;
    if ps != [] { assert more[|ps| - 1] == ps[|ps| - 1]; }
  }

  lemma {:induction false} EveryRunTracks(ops: seq<Op>, n: Node)
    ensures Tracks(ops, n)
  {
    if ops == [] {
    } else {
      var before := ops[..|ops| - 1];
      EveryRunTracks(before, n);
      match ops[|ops| - 1]
      case Receives(ty, members) =>
        ReceiveTouchesNamed(After(before), ty, members, n);
        assert Summaries(ops, n) == Summaries(before, n) && Emitted(ops, n) == Emitted(before, n);
      case Flushes =>
        assert n in After(ops).last <==> n in After(before).last || n in After(before).latest;
        if n in After(before).latest {
          OneMoreSummary(Summaries(before, n), After(before).latest[n]);
        } else {
          assert Summaries(ops, n) == Summaries(before, n) && Emitted(ops, n) == Emitted(before, n);
        }
    }
  }

  /** In every run, what is emitted for a node is the last event about it before each
      flush, in order, less those of the same type as the one before that are no update. */
  lemma EmitsTheSummariesWithoutRepeats(ops: seq<Op>, n: Node)
    ensures Emitted(ops, n) == WithoutRepeats(Summaries(ops, n))
  {
    EveryRunTracks(ops, n);
  }

  /** Nothing is repeated, but for updates. */
  predicate NoRepeats(ps: seq<Pending>) {
    forall k :: 0 < k < |ps| && ps[k - 1].ty == ps[k].ty ==> ps[k].ty.Updated?
  }

  lemma {:induction false} WithoutRepeatsHasNone(ps: seq<Pending>)
    ensures NoRepeats(WithoutRepeats(ps)) && (ps == [] <==> WithoutRepeats(ps) == [])
    ensures ps != [] ==> WithoutRepeats(ps)[|WithoutRepeats(ps)| - 1].ty == ps[|ps| - 1].ty
  {
    if ps == [] {
    } else {
      WithoutRepeatsHasNone(ps[..|ps| - 1]);
    }
  }

  /** The type last received for a node. */
  function LastReceived(ops: seq<Op>, n: Node): Option<EventType> {
    if ops == [] then None
    else
      var op := ops[|ops| - 1];
      if op.Receives? && LastNamed(op.members, n).Some? then Some(op.ty) else LastReceived(ops[..|ops| - 1], n)
  }

  lemma {:induction false} LastReceivedIsLastSummary(ops: seq<Op>, n: Node)
    ensures LastReceived(ops, n) ==
            if SinceFlush(ops, n).Some? then Some(SinceFlush(ops, n).value.ty)
            else if Summaries(ops, n) == [] then None
            else Some(Summaries(ops, n)[|Summaries(ops, n)| - 1].ty)
  {
    if ops == [] {
    } else {
      LastReceivedIsLastSummary(ops[..|ops| - 1], n);
    }
  }

  /** In every run that ends with a flush, the last type emitted for a node is the
      last one received, and no type is emitted twice in a row unless it is an
      update. */
  lemma FlushKeepsTheMeaning(ops: seq<Op>, n: Node)
    ensures var emitted := Emitted(ops + [Flushes], n);
            && NoRepeats(emitted)
            && LastReceived(ops, n) == if emitted == [] then None else Some(emitted[|emitted| - 1].ty)
  {
    assert (ops + [Flushes])[..|ops|] == ops;
    EmitsTheSummariesWithoutRepeats(ops + [Flushes], n);
    WithoutRepeatsHasNone(Summaries(ops + [Flushes], n));
    LastReceivedIsLastSummary(ops + [Flushes], n);
  }

  /** Every update is passed on by the next flush, whatever went before, with the member as
      it was received last. */
  lemma EveryUpdateIsPassedOn(ops: seq<Op>, members: seq<Member>, n: Node)
    requires LastNamed(members, n).Some?
    ensures Emitted(ops + [Receives(Updated, members)] + [Flushes], n)
         == Emitted(ops, n) + [Pending(Updated, LastNamed(members, n).value)]
  {
    var received := ops + [Receives(Updated, members)];
    var flushed := received + [Flushes];
    assert flushed[..|received|] == received && received[..|ops|] == ops;
    EveryRunTracks(received, n);
  }

  // ----- The coalescer -----

  datatype Batch = Batch(ty: EventType, members: seq<Member>)

  class Coalescer {
    var last: map<Node, EventType>
    var latest: map<Node, Pending>

    ghost function View(): State
      reads this
    {
      State(last, latest)
    }

    /** Each pending event is filed under the node it is about. */
    ghost predicate Valid()
      reads this
    {
      forall n :: n in latest ==> latest[n].member.node == n
    }

    constructor ()
      ensures Valid() && View() == EMPTY
    {
      last, latest := map[], map[];
    }

    method Coalesce(ty: EventType, members: seq<Member>)
      requires Valid()
      modifies this
      ensures Valid() && View() == Receive(old(View()), ty, members)
    {
      for i := 0 to |members|
        invariant Valid() && View() == Receive(old(View()), ty, members[..i])
      {
        latest := latest[members[i].node := Pending(ty, members[i])];
        assert members[..i + 1][..i] == members[..i];
      }
      assert members[..|members|] == members;
    }

    /** One batch per type, which together hold exactly the pending members a flush
        is to emit, each once. The output channel takes `room` more batches before
        its receiver closes it; the flush then stops with an error, with all state as
        if it had gone through, and only batches of what is to be emitted are out. */
    method Flush(room: nat) returns (out: seq<Batch>, closed: bool)
      requires Valid()
      modifies this
      ensures Valid() && View() == Flushed(old(View()))
      ensures forall i, j :: 0 <= i < j < |out| ==> out[i].ty != out[j].ty
      ensures forall i :: 0 <= i < |out| ==> Faithful(old(View()), out[i].ty, out[i].members)
      ensures closed ==> |out| == room && exists n :: Emits(old(View()), n) && !Reports(out, old(latest)[n])
      ensures !closed ==> forall n :: Emits(old(View()), n) ==> Reports(out, old(latest)[n])
    {
      ghost var s := View();
      var events := GroupByType();
      last := last + map n | n in latest :: latest[n].ty;
      latest := map[];
      out, closed := Send(events, room);
      if closed {
        ghost var ty :| ty in events && forall i :: 0 <= i < |out| ==> out[i].ty != ty;
        assert Faithful(s, ty, events[ty]);
        ghost var m := events[ty][0];
        assert m in events[ty];
        assert Emits(s, m.node) && !Reports(out, s.latest[m.node]);
      } else {
        forall n | Emits(s, n) ensures Reports(out, s.latest[n]) {
          var i :| 0 <= i < |out| && out[i] == Batch(s.latest[n].ty, events[s.latest[n].ty]);
        }
      }
    }

    /** The groups one by one, in whatever order the map yields them. */
    static method Send(events: map<EventType, seq<Member>>, room: nat) returns (out: seq<Batch>, closed: bool)
      ensures forall i :: 0 <= i < |out| ==> out[i].ty in events && out[i].members == events[out[i].ty]
      ensures forall i, j :: 0 <= i < j < |out| ==> out[i].ty != out[j].ty
      ensures closed ==> |out| == room && exists ty :: ty in events && forall i :: 0 <= i < |out| ==> out[i].ty != ty
      ensures !closed ==> |out| <= room && forall ty :: ty in events ==> Batch(ty, events[ty]) in out
    {
      out, closed := [], false;
      var types := events.Keys;
      while types != {}
        invariant types <= events.Keys && |out| <= room
        invariant forall i :: 0 <= i < |out| ==>
                    out[i].ty in events && out[i].ty !in types && out[i].members == events[out[i].ty]
        invariant forall i, j :: 0 <= i < j < |out| ==> out[i].ty != out[j].ty
        invariant forall ty :: ty in events && ty !in types ==> Batch(ty, events[ty]) in out
        decreases types
      {
        var ty :| ty in types;
        if |out| == room { return out, true; }
        types := types - {ty};
        out := out + [Batch(ty, events[ty])];
      }
    }

    /** The pending members by type. A node whose type is the one emitted last is
        left out, unless it was updated. */
    method GroupByType() returns (events: map<EventType, seq<Member>>)
      requires Valid()
      ensures forall ty :: ty in events ==> Faithful(View(), ty, events[ty])
      ensures forall n :: Emits(View(), n) ==> latest[n].ty in events && latest[n].member in events[latest[n].ty]
    {
      events := map[];
      var rest := latest.Keys;
      while rest != {}
        invariant rest <= latest.Keys
        invariant forall ty :: ty in events ==> Faithful(View(), ty, events[ty])
        invariant forall ty, m :: ty in events && m in events[ty] ==> m.node !in rest
        invariant forall n :: Emits(View(), n) && n !in rest ==>
                    latest[n].ty in events && latest[n].member in events[latest[n].ty]
        decreases rest
      {
        var n :| n in rest;
        rest := rest - {n};
        var p := latest[n];
        if n in last && last[n] == p.ty && !p.ty.Updated? {
        } else if p.ty in events {
          events := events[p.ty := events[p.ty] + [p.member]];
        } else {
          events := events[p.ty := [p.member]];
        }
      }
    }
  }

  /** A batch of its type holds the pending member. */
  ghost predicate Reports(out: seq<Batch>, p: Pending) {
    exists i :: 0 <= i < |out| && out[i].ty == p.ty && p.member in out[i].members
  }

  /** A batch of one type: pending members of that type that are to be emitted, no
      node twice, and at least one. */
  ghost predicate Faithful(s: State, ty: EventType, members: seq<Member>) {
    && members != []
    && (forall i, j :: 0 <= i < j < |members| ==> members[i].node != members[j].node)
    && (forall m :: m in members ==> Emits(s, m.node) && s.latest[m.node] == Pending(ty, m))
  }
}
