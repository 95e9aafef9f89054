/** The snapshotter: it keeps a set of live nodes and three clocks in memory, and
    a log of records on disk that is rewritten whenever it grows too large. At
    every moment the log replays to what is in memory. */
module Snapshotter {
  import opened Types
  import opened Clock
  import opened Framing
  import opened SnapshotLog

  // ----- What the log owes the memory -----

  /** The nodes whose records can be written at all. */
  function Writables(c: Codec, nodes: set<Node>): set<Node> {
    set n | n in nodes && Small(c, n)
  }

  lemma WritablesAdd(c: Codec, nodes: set<Node>, n: Node)
    ensures Writables(c, nodes + {n}) == Writables(c, nodes) + (if Small(c, n) then {n} else {})
  {
  }

  lemma WritablesRemove(c: Codec, nodes: set<Node>, n: Node)
    ensures Writables(c, nodes - {n}) == Writables(c, nodes) - {n}
    ensures !Small(c, n) ==> Writables(c, nodes - {n}) == Writables(c, nodes)
  {
  }

  /** What the log must replay to. Normally the memory itself, short of nodes too
      large to be written. Once the process has handled a leave and does not mean
      to come back, only no node at all and clocks that are not ahead. */
  ghost predicate Accounts(c: Codec, replayed: Memory, m: Memory, left: bool) {
    if left then
      && m.alive == {} && replayed.alive == {}
      && replayed.clock <= m.clock && replayed.eventClock <= m.eventClock && replayed.queryClock <= m.queryClock
    else replayed == m.(alive := Writables(c, m.alive))
  }

  /** With every live node small the log replays to exactly the memory, and
      otherwise it does not. */
  lemma ReplayIsMemoryIffAllSmall(c: Codec, replayed: Memory, m: Memory)
    requires Accounts(c, replayed, m, false)
    ensures replayed == m <==> forall n :: n in m.alive ==> Small(c, n)
  {
    assert Writables(c, m.alive) == m.alive <==> forall n :: n in m.alive ==> Small(c, n);
  }

  // ----- What the inputs do to the memory -----

  datatype Event = MemberChange(ty: EventType, nodes: seq<Node>) | UserAt(time: u64) | QueryAt(time: u64)

  function AddAll(alive: set<Node>, nodes: seq<Node>): set<Node> {
    alive + set n | n in nodes
  }

  function RemoveAll(alive: set<Node>, nodes: seq<Node>): set<Node> {
    alive - set n | n in nodes
  }

  lemma OneMoreNode(alive: set<Node>, nodes: seq<Node>, i: nat)
    requires i < |nodes|
    ensures AddAll(alive, nodes[..i + 1]) == AddAll(alive, nodes[..i]) + {nodes[i]}
    ensures RemoveAll(alive, nodes[..i + 1]) == RemoveAll(alive, nodes[..i]) - {nodes[i]}
  {
    assert nodes[..i + 1] == nodes[..i] + [nodes[i]];
  }

  function Max(a: u64, b: u64): u64 {
    if a < b then b else a
  }

  /** The clock shows the next time to be used; the one before it was seen. */
  function Ticked(m: Memory, now: u64): Memory {
    m.(clock := Max(m.clock, if now == 0 then 0 else now - 1))
  }

  /** `now` is what the member clock shows at this moment. */
  function Observed(m: Memory, e: Event, now: u64): Memory {
    match e
    case UserAt(t) => m.(eventClock := Max(m.eventClock, t))
    case QueryAt(t) => m.(queryClock := Max(m.queryClock, t))
    case MemberChange(ty, nodes) =>
      Ticked(match ty
             case Joined => m.(alive := AddAll(m.alive, nodes))
             case Departed => m.(alive := RemoveAll(m.alive, nodes))
             case Lost => m.(alive := RemoveAll(m.alive, nodes))
             case _ => m, now)
  }

  predicate SmallNodes(c: Codec, nodes: seq<Node>) {
    forall k :: 0 <= k < |nodes| ==> Small(c, nodes[k])
  }

  /** No node that joins is too large to be written. */
  predicate Fits(c: Codec, e: Event) {
    e.MemberChange? && e.ty.Joined? ==> SmallNodes(c, e.nodes)
  }

  datatype Input = Leave | Arrival(e: Event, now: u64) | Tick(now: u64) | Stop

  /** The memory, and whether a leave was handled. */
  datatype Life = Life(memory: Memory, leaving: bool)

  function Resigned(l: Life, rejoin: bool): Life {
    Life(if rejoin then l.memory else l.memory.(alive := {}), true)
  }

  /** The main loop: it ends at a stop, and at an event after a leave. */
  function MainLoop(l: Life, inputs: seq<Input>, rejoin: bool): Life
    decreases |inputs|
  {
    if inputs == [] then l
    else match inputs[0]
         case Leave => MainLoop(Resigned(l, rejoin), inputs[1..], rejoin)
         case Arrival(e, now) =>
           if l.leaving then l else MainLoop(Life(Observed(l.memory, e, now), false), inputs[1..], rejoin)
         case Tick(now) => MainLoop(l.(memory := Ticked(l.memory, now)), inputs[1..], rejoin)
         case Stop => l
  }

  /** The events still queued at shutdown, which are recorded unless a leave was. */
  function Drain(l: Life, events: seq<(Event, u64)>): Life
    decreases |events|
  {
    if events == [] || l.leaving then l
    else Drain(l.(memory := Observed(l.memory, events[0].0, events[0].1)), events[1..])
  }

  /** A whole life of the snapshotter. `late` says whether a leave was waiting when
      the main loop ended, `now` what the clock showed then. */
  function WholeLife(l: Life, inputs: seq<Input>, late: bool, now: u64, queued: seq<(Event, u64)>, rejoin: bool): Life {
    var l1 := MainLoop(l, inputs, rejoin);
    var l2 := if late then Resigned(l1, rejoin) else l1;
    Drain(l2.(memory := Ticked(l2.memory, now)), queued)
  }

  predicate AllFit(c: Codec, inputs: seq<Input>) {
    forall k :: 0 <= k < |inputs| && inputs[k].Arrival? ==> Fits(c, inputs[k].e)
  }

  predicate QueueFits(c: Codec, queued: seq<(Event, u64)>) {
    forall k :: 0 <= k < |queued| ==> Fits(c, queued[k].0)
  }

  // ----- The snapshotter -----

  const BYTES_PER_NODE: nat := 128
  const COMPACTION_THRESHOLD: nat := 2

  /** The size of the three clock records. */
  const CLOCK_BYTES: nat := 27

  function MaxSize(nodes: nat, minCompactSize: nat): (size: nat)
    ensures size >= minCompactSize && size >= 256 * nodes && (size == minCompactSize || size == 256 * nodes)
  {
    var threshold := nodes * BYTES_PER_NODE * COMPACTION_THRESHOLD;
    if threshold < minCompactSize then minCompactSize else threshold
  }

  /** A log of node records and three clock records, against the limit. */
  lemma CompactedFitsUnlessTiny(nodes: nat, size: nat, minCompactSize: nat)
    requires CLOCK_BYTES <= size <= MAX_INLINED_BYTES * nodes + CLOCK_BYTES
    ensures size <= MaxSize(nodes, minCompactSize) <==> nodes > 0 || minCompactSize >= CLOCK_BYTES
  {
  }

  class Snapshot {
    const codec: Codec
    const rejoin: bool
    const minCompactSize: nat
    var alive: set<Node>
    var lastClock: u64
    var lastEventClock: u64
    var lastQueryClock: u64
    var leaving: bool
    var offset: nat
    var file: seq<byte>
    ghost var log: seq<Record>

    ghost function Mem(): Memory
      reads this
    {
      Memory(alive, lastClock, lastEventClock, lastQueryClock)
    }

    ghost predicate Left()
      reads this
    {
      leaving && !rejoin
    }

    /** The file is the encoded log. */
    ghost predicate Shape()
      reads this
    {
      && Faithful(codec) && Loggable(codec, log)
      && file == File(codec, log) && offset == |file|
    }

    ghost predicate Valid()
      reads this
    {
      Shape() && Accounts(codec, Replay(log, rejoin), Mem(), Left())
    }

    /** Start on a file that replays to `m`. */
    constructor (codec: Codec, rejoin: bool, minCompactSize: nat, file: seq<byte>, m: Memory, ghost log: seq<Record>)
      requires Faithful(codec) && Loggable(codec, log) && file == File(codec, log) && m == Replay(log, rejoin)
      requires forall n :: n in m.alive ==> Small(codec, n)
      ensures Valid() && Mem() == m && !leaving
      ensures this.codec == codec && this.rejoin == rejoin && this.minCompactSize == minCompactSize && this.file == file
    {
      this.codec, this.rejoin, this.minCompactSize := codec, rejoin, minCompactSize;
      alive, lastClock, lastEventClock, lastQueryClock := m.alive, m.clock, m.eventClock, m.queryClock;
      leaving, offset, this.file := false, |file|, file;
      this.log := log;
      assert Writables(codec, m.alive) == m.alive;
    }

    /** The log is within its limit, or there is nothing left to shrink. */
    ghost predicate Bounded()
      reads this
    {
      offset <= MaxSize(|alive|, minCompactSize) || (alive == {} && minCompactSize < CLOCK_BYTES)
    }

    ghost predicate AllSmall()
      reads this
    {
      forall n :: n in alive ==> Small(codec, n)
    }

    /** Every live node can be written, and the log is within its limit. */
    ghost predicate Tight()
      reads this
    {
      AllSmall() && Bounded()
    }

    /** The records of the live nodes, in whatever order the set yields them. */
    method WriteNodes() returns (ok: bool, buf: seq<byte>, ghost rs: seq<Record>)
      ensures ok <==> forall n :: n in alive ==> Small(codec, n)
      ensures ok ==> Loggable(codec, rs) && buf == File(codec, rs) && |buf| <= MAX_INLINED_BYTES * |alive|
                     && Replay(rs, rejoin) == Memory(alive, 0, 0, 0)
    {
      var rest := alive;
      buf, rs := [], [];
      while rest != {}
        invariant rest <= alive && forall n :: n in alive && n !in rest ==> Small(codec, n)
        invariant Loggable(codec, rs) && buf == File(codec, rs) && |buf| <= MAX_INLINED_BYTES * (|alive| - |rest|)
        invariant Replay(rs, rejoin) == Memory(alive - rest, 0, 0, 0)
        decreases rest
      {
        var n :| n in rest;
        NodeRecordsFit(codec, n);
        if Encode(codec, AliveRecord(n)).None? { return false, buf, rs; }
        assert alive - (rest - {n}) == alive - rest + {n};
        rest := rest - {n};
        buf, rs := WriteNode(buf, rs, n);
      }
      assert alive - rest == alive;
      ok := true;
    }

    /** The three clock records that end a compacted log. */
    method WriteClocks(nodes: seq<byte>, ghost rs: seq<Record>) returns (buf: seq<byte>, ghost rs': seq<Record>)
      requires Loggable(codec, rs) && nodes == File(codec, rs) && Replay(rs, rejoin) == Memory(alive, 0, 0, 0)
      ensures Loggable(codec, rs') && buf == File(codec, rs') && |buf| == |nodes| + CLOCK_BYTES
      ensures Replay(rs', rejoin) == Mem()
    {
      buf, rs' := nodes, rs;
      buf, rs' := Write(buf, rs', ClockRecord(lastClock));
      buf, rs' := Write(buf, rs', EventClockRecord(lastEventClock));
      buf, rs' := Write(buf, rs', QueryClockRecord(lastQueryClock));
    }

    method WriteNode(buf: seq<byte>, ghost rs: seq<Record>, n: Node) returns (buf': seq<byte>, ghost rs': seq<Record>)
      requires Loggable(codec, rs) && Small(codec, n) && buf == File(codec, rs)
      ensures Loggable(codec, rs') && buf' == File(codec, rs') && |buf'| <= |buf| + MAX_INLINED_BYTES
      ensures var m := Replay(rs, rejoin); Replay(rs', rejoin) == m.(alive := m.alive + {n})
    {
      NodeRecordsFit(codec, n);
      buf', rs' := Write(buf, rs, AliveRecord(n));
    }

    /** One record appended to the file being compacted. */
    method Write(buf: seq<byte>, ghost rs: seq<Record>, r: Record) returns (buf': seq<byte>, ghost rs': seq<Record>)
      requires Loggable(codec, rs) && Encode(codec, r).Some? && buf == File(codec, rs)
      ensures Loggable(codec, rs') && buf' == File(codec, rs') && |buf'| == |buf| + |Bytes(codec, r)|
      ensures Replay(rs', rejoin) == Replayed(Replay(rs, rejoin), r, rejoin)
    {
      buf' := buf + Encode(codec, r).value;
      rs' := rs + [r];
      FileAppends(codec, rs, r);
      ReplayAppends(rs, r, rejoin);
    }

    /** Rewrite the log from memory. Fails, leaving it alone, if a node is too large.
        Otherwise it is within its limit exactly unless no node is left and the
        configured minimum is less than three clock records take. */
    method Compact() returns (ok: bool)
      requires Shape() && (Left() ==> alive == {})
      modifies this`file, this`offset, this`log
      ensures Shape()
      ensures ok <==> forall n :: n in alive ==> Small(codec, n)
      ensures ok ==> Accounts(codec, Replay(log, rejoin), Mem(), Left()) && Bounded()
      ensures ok ==> (offset <= MaxSize(|alive|, minCompactSize) <==> alive != {} || minCompactSize >= CLOCK_BYTES)
      ensures !ok ==> file == old(file) && log == old(log)
    {
      var buf: seq<byte>;
      ghost var rs: seq<Record>;
      ok, buf, rs := Rewrite();
      if !ok { return; }
      assert Writables(codec, alive) == alive;
      file, offset, log := buf, |buf|, rs;
    }

    /** The compacted log. */
    method Rewrite() returns (ok: bool, buf: seq<byte>, ghost rs: seq<Record>)
      ensures ok <==> forall n :: n in alive ==> Small(codec, n)
      ensures ok ==> Loggable(codec, rs) && buf == File(codec, rs) && Replay(rs, rejoin) == Mem()
      ensures ok ==> (|buf| <= MaxSize(|alive|, minCompactSize) <==> alive != {} || minCompactSize >= CLOCK_BYTES)
    {
      ok, buf, rs := WriteNodes();
      if !ok { return; }
      buf, rs := WriteClocks(buf, rs);
      CompactedFitsUnlessTiny(|alive|, |buf|, minCompactSize);
    }

    /** Write one record. The memory already shows the change it stands for, or no
        change if the record cannot be written. */
    method AppendLine(r: Record) returns (ok: bool)
      requires Shape() && (Left() ==> alive == {})
      requires var was := Replay(log, rejoin);
               Accounts(codec, if Encode(codec, r).Some? then Replayed(was, r, rejoin) else was, Mem(), Left())
      modifies this`file, this`offset, this`log
      ensures Valid()
      ensures ok ==> Bounded()
      ensures Encode(codec, r).Some? && AllSmall() ==> ok
      ensures AllSmall() && old(Bounded()) ==> Bounded()
      ensures !AllSmall() ==> offset == old(offset) + |Bytes(codec, r)|
      ensures old(offset) + |Bytes(codec, r)| <= MaxSize(|alive|, minCompactSize) ==>
                file == old(file) + Bytes(codec, r)
    {
      var bytes := Encode(codec, r);
      if bytes.None? { return false; }
      FileAppends(codec, log, r);
      ReplayAppends(log, r, rejoin);
      file, log := file + bytes.value, log + [r];
      offset := offset + |bytes.value|;
      ok := true;
      if offset > MaxSize(|alive|, minCompactSize) {
        ok := Compact();
      }
    }

    /** Write one record. After a failure it may, depending on the time since the
        last attempt, try to recover by compacting. */
    method TryAppend(r: Record)
      requires Shape() && (Left() ==> alive == {})
      requires var was := Replay(log, rejoin);
               Accounts(codec, if Encode(codec, r).Some? then Replayed(was, r, rejoin) else was, Mem(), Left())
      modifies this`file, this`offset, this`log
      ensures Valid()
      ensures AllSmall() && (Encode(codec, r).Some? || old(Bounded())) ==> Bounded()
      ensures !AllSmall() ==> offset == old(offset) + |Bytes(codec, r)|
    {
      var ok := AppendLine(r);
      if !ok {
        if * { var _ := Compact(); }
      }
    }

    method ProcessUserEvent(t: u64)
      requires Valid() && !leaving
      modifies this
      ensures Valid() && !leaving && Mem() == Observed(old(Mem()), UserAt(t), 0)
      ensures old(Tight()) ==> Tight()
    {
      if t <= lastEventClock { return; }
      lastEventClock := t;
      TryAppend(EventClockRecord(t));
    }

    method ProcessQueryEvent(t: u64)
      requires Valid() && !leaving
      modifies this
      ensures Valid() && !leaving && Mem() == Observed(old(Mem()), QueryAt(t), 0)
      ensures old(Tight()) ==> Tight()
    {
      if t <= lastQueryClock { return; }
      lastQueryClock := t;
      TryAppend(QueryClockRecord(t));
    }

    method UpdateClock(now: u64)
      requires Valid()
      modifies this
      ensures Valid() && leaving == old(leaving) && Mem() == Ticked(old(Mem()), now)
      ensures old(Tight()) ==> Tight()
      ensures !AllSmall() ==> offset >= old(offset)
    {
      var lastSeen: u64 := if now == 0 then 0 else now - 1;
      if lastSeen > lastClock {
        lastClock := lastSeen;
        TryAppend(ClockRecord(lastClock));
      }
    }

    method ProcessMemberEvent(ty: EventType, nodes: seq<Node>, now: u64)
      requires Valid() && !leaving
      modifies this
      ensures Valid() && !leaving && Mem() == Observed(old(Mem()), MemberChange(ty, nodes), now)
      ensures old(Tight()) && Fits(codec, MemberChange(ty, nodes)) ==> Tight()
      ensures ty.Joined? && !old(AllSmall()) && Fits(codec, MemberChange(ty, nodes)) ==>
                !AllSmall() && offset >= old(offset) + 5 * |nodes|
    {
      match ty {
        case Joined => AddNodes(nodes);
        case Departed => RemoveNodes(nodes);
        case Lost => RemoveNodes(nodes);
        case _ =>
      }
      UpdateClock(now);
    }

    method AddNode(n: Node)
      requires Valid() && !leaving
      modifies this
      ensures Valid() && !leaving && Mem() == old(Mem()).(alive := old(alive) + {n})
      ensures old(AllSmall()) && Small(codec, n) ==> Tight()
      ensures !old(AllSmall()) && Small(codec, n) ==> !AllSmall() && offset >= old(offset) + 5
    {
      WritablesAdd(codec, alive, n);
      NodeRecordsFit(codec, n);
      alive := alive + {n};
      TryAppend(AliveRecord(n));
    }

    method RemoveNode(n: Node)
      requires Valid() && !leaving
      modifies this
      ensures Valid() && !leaving && Mem() == old(Mem()).(alive := old(alive) - {n})
      ensures old(Tight()) ==> Tight()
    {
      WritablesRemove(codec, alive, n);
      NodeRecordsFit(codec, n);
      ghost var before := alive;
      alive := alive - {n};
      assert (forall x :: x in before ==> Small(codec, x)) && !Small(codec, n) ==> alive == before;
      TryAppend(NotAliveRecord(n));
    }

    method AddNodes(nodes: seq<Node>)
      requires Valid() && !leaving
      modifies this
      ensures Valid() && !leaving && Mem() == old(Mem()).(alive := AddAll(old(alive), nodes))
      ensures old(Tight()) && SmallNodes(codec, nodes) ==> Tight()
      ensures !old(AllSmall()) && SmallNodes(codec, nodes) ==> !AllSmall() && offset >= old(offset) + 5 * |nodes|
    {
      ghost var (small, tight, loose) := (SmallNodes(codec, nodes), Tight(), !AllSmall());
      for i := 0 to |nodes|
        invariant Valid() && !leaving
        invariant Mem() == old(Mem()).(alive := AddAll(old(alive), nodes[..i]))
        invariant tight && small ==> Tight()
        invariant loose && small ==> !AllSmall() && offset >= old(offset) + 5 * i
      {
        OneMoreNode(old(alive), nodes, i);
        ghost var fits := Small(codec, nodes[i]);
        assert small ==> fits;
        AddNode(nodes[i]);
      }
      assert nodes[..|nodes|] == nodes;
    }

    method RemoveNodes(nodes: seq<Node>)
      requires Valid() && !leaving
      modifies this
      ensures Valid() && !leaving && Mem() == old(Mem()).(alive := RemoveAll(old(alive), nodes))
      ensures old(Tight()) ==> Tight()
    {
      ghost var tight := Tight();
      for i := 0 to |nodes|
        invariant Valid() && !leaving
        invariant Mem() == old(Mem()).(alive := RemoveAll(old(alive), nodes[..i]))
        invariant tight ==> Tight()
      {
        RemoveNode(nodes[i]);
        OneMoreNode(old(alive), nodes, i);
      }
      assert nodes[..|nodes|] == nodes;
    }

    method HandleLeave()
      requires Valid()
      modifies this
      ensures Valid() && Life(Mem(), leaving) == Resigned(old(Life(Mem(), leaving)), rejoin)
      ensures old(AllSmall()) ==> Tight()
    {
      leaving := true;
      if !rejoin {
        alive := {};
      }
      TryAppend(LeaveRecord);
    }

    method Process(e: Event, now: u64)
      requires Valid() && !leaving
      modifies this
      ensures Valid() && !leaving && Mem() == Observed(old(Mem()), e, now)
      ensures old(Tight()) && Fits(codec, e) ==> Tight()
    {
      match e {
        case MemberChange(ty, nodes) => ProcessMemberEvent(ty, nodes, now);
        case UserAt(t) => ProcessUserEvent(t);
        case QueryAt(t) => ProcessQueryEvent(t);
      }
    }

    /** The main loop. */
    method Ingest(inputs: seq<Input>)
      requires Valid()
      modifies this
      ensures Valid() && Life(Mem(), leaving) == MainLoop(old(Life(Mem(), leaving)), inputs, rejoin)
      ensures old(Tight()) && AllFit(codec, inputs) ==> Tight()
    {
      var i := 0;
      assert inputs[0..] == inputs;
      while i < |inputs|
        invariant 0 <= i <= |inputs| && Valid()
        invariant old(Tight()) && AllFit(codec, inputs) ==> Tight()
        invariant MainLoop(Life(Mem(), leaving), inputs[i..], rejoin) ==
                  MainLoop(old(Life(Mem(), leaving)), inputs, rejoin)
      {
        assert inputs[i..][0] == inputs[i] && inputs[i..][1..] == inputs[i + 1..];
        match inputs[i] {
          case Leave => HandleLeave();
          case Arrival(e, at) =>
            if leaving { return; }
            Process(e, at);
          case Tick(at) => UpdateClock(at);
          case Stop => return;
        }
        i := i + 1;
      }
    }

    /** The loop that clears out the queue at shutdown. */
    method ClearOut(queued: seq<(Event, u64)>)
      requires Valid()
      modifies this
      ensures Valid() && Life(Mem(), leaving) == Drain(old(Life(Mem(), leaving)), queued)
      ensures old(Tight()) && QueueFits(codec, queued) ==> Tight()
    {
      var i := 0;
      assert queued[0..] == queued;
      while i < |queued|
        invariant 0 <= i <= |queued| && Valid()
        invariant old(Tight()) && QueueFits(codec, queued) ==> Tight()
        invariant Drain(Life(Mem(), leaving), queued[i..]) == Drain(old(Life(Mem(), leaving)), queued)
      {
        if leaving { return; }
        assert queued[i..][0] == queued[i] && queued[i..][1..] == queued[i + 1..];
        Process(queued[i].0, queued[i].1);
        i := i + 1;
      }
    }

    /** The whole life of the snapshotter, on any inputs: the memory ends up as the
        inputs say, and the file replays to it; to exactly it, unless the node has left
        for good, if and only if every live node's record fits the inline buffer. If
        that is so at the start and of every node that joins, it is so at the end, and
        the log stays within its limit. */
    method Stream(inputs: seq<Input>, late: bool, now: u64, queued: seq<(Event, u64)>)
      requires Valid()
      modifies this
      ensures Valid()
      ensures Life(Mem(), leaving) == WholeLife(old(Life(Mem(), leaving)), inputs, late, now, queued, rejoin)
      ensures var r := ReplayFile(codec, file, rejoin);
              && r.Ok? && Accounts(codec, r.value, Mem(), Left())
              && (!Left() ==> (r.value == Mem() <==> AllSmall()))
      ensures old(Tight()) && AllFit(codec, inputs) && QueueFits(codec, queued) ==> Tight()
    {
      Ingest(inputs);
      if late { HandleLeave(); }
      UpdateClock(now);
      ClearOut(queued);
      ReplayOfWritten(codec, log, rejoin);
      if !Left() { ReplayIsMemoryIffAllSmall(codec, Replay(log, rejoin), Mem()); }
    }
  }

  /** One live node that cannot be written makes every compaction fail, so from then on
      the log only grows: a small node that joins again and again takes it past any size. */
  method LargeNodeLetsTheLogGrow(s: Snapshot, small: Node, times: nat)
    requires s.Valid() && !s.leaving && !s.AllSmall() && Small(s.codec, small)
    modifies s
    ensures s.Valid() && !s.leaving && !s.AllSmall()
    ensures s.offset == |s.file| >= 5 * times
  {
    for i := 0 to times
      invariant s.Valid() && !s.leaving && !s.AllSmall() && s.offset >= 5 * i
    {
      s.ProcessMemberEvent(Joined, [small], 0);
    }
  }
}
