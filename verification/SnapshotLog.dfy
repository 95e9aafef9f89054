/** The snapshot file: its records, their bytes, and what replaying them gives. */
module SnapshotLog {
  import opened Types
  import opened Clock
  import opened Framing

  /** How nodes are turned into bytes; it is not part of this repository. */
  datatype Codec = Codec(encode: Node -> seq<byte>, decode: seq<byte> -> Option<Node>)

  ghost predicate Faithful(c: Codec) {
    forall n :: c.decode(c.encode(n)) == Some(n)
  }

  datatype Record =
    | AliveRecord(node: Node)
    | NotAliveRecord(node: Node)
    | ClockRecord(time: u64)
    | EventClockRecord(time: u64)
    | QueryClockRecord(time: u64)
    | CoordinateRecord
    | LeaveRecord
    | CommentRecord

  // ----- Bytes -----

  function LittleEndian(v: nat, width: nat): (bs: seq<byte>)
    ensures |bs| == width
  {
    if width == 0 then [] else [v % 256] + LittleEndian(v / 256, width - 1)
  }

  function FromLittleEndian(bs: seq<byte>): nat {
    if bs == [] then 0 else bs[0] + 256 * FromLittleEndian(bs[1..])
  }

  function Bound(width: nat): nat {
    if width == 0 then 1 else 256 * Bound(width - 1)
  }

  lemma {:induction false} LittleEndianRoundTrip(v: nat, width: nat)
    requires v < Bound(width)
    ensures FromLittleEndian(LittleEndian(v, width)) == v
  {
    if width == 0 {
    } else {
      LittleEndianRoundTrip(v / 256, width - 1);
      assert LittleEndian(v, width)[1..] == LittleEndian(v / 256, width - 1);
    }
  }

  lemma {:induction false} FromLittleEndianIsBounded(bs: seq<byte>)
    ensures FromLittleEndian(bs) < Bound(|bs|)
  {
    if bs == [] {
    } else {
      FromLittleEndianIsBounded(bs[1..]);
    }
  }

  lemma WordSizes()
    ensures Bound(4) == 0x1_0000_0000 && Bound(8) == LIMIT
  {
    assert Bound(4) == 256 * (256 * Bound(2)) && Bound(2) == 256 * (256 * Bound(0));
    assert Bound(8) == 256 * (256 * Bound(6)) && Bound(6) == 256 * (256 * Bound(4));
  }

  const MAX_INLINED_BYTES: nat := 64

  /** Does the node's record fit the inline buffer? */
  predicate Small(c: Codec, n: Node) {
    5 + |c.encode(n)| <= MAX_INLINED_BYTES
  }

  /** The kind, the length and the bytes of a node. Beyond 64 bytes the encoder
      hands the node a slice of only the five bytes already written, which the
      node refuses as too short, so nothing is written. */
  function EncodeNode(c: Codec, kind: byte, n: Node): Option<seq<byte>> {
    if Small(c, n) then Some([kind] + LittleEndian(|c.encode(n)|, 4) + c.encode(n)) else None
  }

  function Encode(c: Codec, r: Record): Option<seq<byte>> {
    match r
    case AliveRecord(n) => EncodeNode(c, 0, n)
    case NotAliveRecord(n) => EncodeNode(c, 1, n)
    case ClockRecord(t) => Some([2] + LittleEndian(t, 8))
    case EventClockRecord(t) => Some([3] + LittleEndian(t, 8))
    case QueryClockRecord(t) => Some([4] + LittleEndian(t, 8))
    case CoordinateRecord => Some([5])
    case LeaveRecord => Some([6])
    case CommentRecord => Some([7])
  }

  lemma NodeRecordsFit(c: Codec, n: Node)
    ensures Encode(c, AliveRecord(n)).Some? <==> Small(c, n)
    ensures Encode(c, NotAliveRecord(n)).Some? <==> Small(c, n)
    ensures |Bytes(c, AliveRecord(n))| <= MAX_INLINED_BYTES
  {
  }

  /** What writing a record adds to the file. */
  function Bytes(c: Codec, r: Record): seq<byte> {
    match Encode(c, r) case Some(bs) => bs case None => []
  }

  function PowerOf256(n: nat): nat {
    if n == 0 then 1 else 256 * PowerOf256(n - 1)
  }

  /** The least significant byte comes first. */
  lemma {:induction false} LittleEndianByte(v: nat, width: nat, i: nat)
    requires i < width
    ensures PowerOf256(i) > 0 && LittleEndian(v, width)[i] == (v / PowerOf256(i)) % 256
  {
    if i == 0 {
    } else {
      LittleEndianByte(v / 256, width - 1, i - 1);
      DivideTwice(v, PowerOf256(i - 1));
    }
  }

  lemma DivideTwice(v: nat, p: nat)
    requires p > 0
    ensures v / (256 * p) == v / 256 / p
  {
    var (q, r) := (v / 256, v % 256);
    var (q', r') := (q / p, q % p);
    assert v == 256 * (p * q' + r') + r == (256 * p) * q' + (256 * r' + r);
    assert 256 * r' + r < 256 * p;
    Quotient(v, 256 * p, q', 256 * r' + r);
  }

  lemma Quotient(v: nat, d: nat, q: nat, r: nat)
    requires d > 0 && r < d && v == d * q + r
    ensures v / d == q
  {
    var (q', r') := (v / d, v % d);
    assert d * q + r == d * q' + r';
    if q < q' { OneMoreTime(d, q, q'); }
    if q' < q { OneMoreTime(d, q', q); }
  }

  lemma OneMoreTime(d: nat, q: nat, more: nat)
    requires q < more
    ensures d * more >= d * q + d
  {
    var k := more - q - 1;
    assert d * more == d * q + d * k + d;
  }

  /** The bytes of each kind of record. */
  lemma BytesOfEachKind(c: Codec, n: Node, t: u64)
    ensures 5 + |c.encode(n)| <= 64 ==>
              && Encode(c, AliveRecord(n)) == Some([0] + LittleEndian(|c.encode(n)|, 4) + c.encode(n))
              && Encode(c, NotAliveRecord(n)) == Some([1] + LittleEndian(|c.encode(n)|, 4) + c.encode(n))
    ensures 5 + |c.encode(n)| > 64 ==> Encode(c, AliveRecord(n)) == Encode(c, NotAliveRecord(n)) == None
    ensures Encode(c, ClockRecord(t)) == Some([2] + LittleEndian(t, 8))
    ensures Encode(c, EventClockRecord(t)) == Some([3] + LittleEndian(t, 8))
    ensures Encode(c, QueryClockRecord(t)) == Some([4] + LittleEndian(t, 8))
    ensures Encode(c, CoordinateRecord) == Some([5]) && Encode(c, LeaveRecord) == Some([6])
    ensures Encode(c, CommentRecord) == Some([7])
  {
  }

  /** Any other first byte is an error that names it. */
  lemma UnknownKindIsAnError(c: Codec, bs: seq<byte>, rejoin: bool)
    requires bs != [] && bs[0] > 7
    ensures ReplayFile(c, bs, rejoin) == Err(UnknownRecordType(bs[0]))
  {
    FormatProgresses(c);
    assert SnapshotFormat(c).read(bs) == Broken(UnknownRecordType(bs[0]));
  }

  // ----- Reading -----

  function ParseNode(c: Codec, bs: seq<byte>): Parsed<Record>
    requires bs != []
  {
    if |bs| < 5 then Broken(ReplayError)
    else
      var len := FromLittleEndian(bs[1..5]);
      if |bs| < 5 + len then Broken(ReplayError)
      else match c.decode(bs[5..5 + len])
           case None => Broken(ReplayError)
           case Some(n) => Next(if bs[0] == 0 then AliveRecord(n) else NotAliveRecord(n), bs[5 + len..])
  }

  function TimeRecord(kind: byte, t: u64): Record {
    if kind == 2 then ClockRecord(t) else if kind == 3 then EventClockRecord(t) else QueryClockRecord(t)
  }

  function ParseTime(bs: seq<byte>): Parsed<Record>
    requires bs != []
  {
    if |bs| < 9 then Broken(ReplayError)
    else
      var t := FromLittleEndian(bs[1..9]);
      WordSizes();
      FromLittleEndianIsBounded(bs[1..9]);
      Next(TimeRecord(bs[0], t), bs[9..])
  }

  /** One turn of the replay loop. */
  function ParseOne(c: Codec, bs: seq<byte>): (p: Parsed<Record>)
    ensures p.Next? ==> |p.rest| < |bs|
  {
    if bs == [] then End
    else match bs[0]
         case 0 => ParseNode(c, bs)
         case 1 => ParseNode(c, bs)
         case 2 => ParseTime(bs)
         case 3 => ParseTime(bs)
         case 4 => ParseTime(bs)
         case 5 => Next(CoordinateRecord, bs[1..])
         case 6 => Next(LeaveRecord, bs[1..])
         case 7 => Next(CommentRecord, bs[1..])
         case v => Broken(UnknownRecordType(v))
  }

  lemma NodeRoundTrip(c: Codec, kind: byte, n: Node, tail: seq<byte>)
    requires Faithful(c) && Small(c, n) && kind < 2
    ensures ParseOne(c, EncodeNode(c, kind, n).value + tail) ==
            Next(if kind == 0 then AliveRecord(n) else NotAliveRecord(n), tail)
  {
    var body := c.encode(n);
    var bs := [kind] + LittleEndian(|body|, 4) + body + tail;
    assert EncodeNode(c, kind, n).value + tail == bs;
    WordSizes();
    LittleEndianRoundTrip(|body|, 4);
    assert bs[1..5] == LittleEndian(|body|, 4);
    assert bs[5..5 + |body|] == body;
    assert bs[5 + |body|..] == tail;
    assert c.decode(c.encode(n)) == Some(n);
  }

  lemma TimeRoundTrip(c: Codec, kind: byte, t: u64, tail: seq<byte>)
    requires 2 <= kind <= 4
    ensures ParseOne(c, [kind] + LittleEndian(t, 8) + tail) == Next(TimeRecord(kind, t), tail)
  {
    var bs := [kind] + LittleEndian(t, 8) + tail;
    WordSizes();
    LittleEndianRoundTrip(t, 8);
    assert bs[1..9] == LittleEndian(t, 8);
    assert bs[9..] == tail;
  }

  /** Reading undoes writing, whatever follows. */
  lemma ParseInvertsEncode(c: Codec, r: Record, tail: seq<byte>)
    requires Faithful(c) && Encode(c, r).Some?
    ensures ParseOne(c, Bytes(c, r) + tail) == Next(r, tail)
  {
    match r
    case AliveRecord(n) => NodeRoundTrip(c, 0, n, tail);
    case NotAliveRecord(n) => NodeRoundTrip(c, 1, n, tail);
    case ClockRecord(t) => TimeRoundTrip(c, 2, t, tail);
    case EventClockRecord(t) => TimeRoundTrip(c, 3, t, tail);
    case QueryClockRecord(t) => TimeRoundTrip(c, 4, t, tail);
    case CoordinateRecord => assert ([5] + tail)[1..] == tail;
    case LeaveRecord => assert ([6] + tail)[1..] == tail;
    case CommentRecord => assert ([7] + tail)[1..] == tail;
  }

  /** A record cut short does not read as anything. */
  lemma TornRecordIsBroken(c: Codec, r: Record, cut: nat)
    requires 0 < cut < |Bytes(c, r)|
    ensures ParseOne(c, Bytes(c, r)[..cut]).Broken?
  {
    var whole := Bytes(c, r);
    var bs := whole[..cut];
    assert bs[0] == whole[0];
    if r.AliveRecord? || r.NotAliveRecord? {
      var body := c.encode(r.node);
      var length := LittleEndian(|body|, 4);
      assert whole == [whole[0]] + length + body;
      if cut >= 5 {
        WordSizes();
        LittleEndianRoundTrip(|body|, 4);
        assert forall i :: 0 <= i < 4 ==> bs[1 + i] == length[i];
        assert bs[1..5] == length;
      }
    }
  }

  /** The file format of a snapshot. */
  ghost function SnapshotFormat(c: Codec): Format<Record> {
    Format(r => Bytes(c, r), r => Encode(c, r).Some?, bs => ParseOne(c, bs))
  }

  /** Snapshot records are self-delimiting, so a log reads back as written, and a
      log cut short reads without error exactly if it is cut between two records. */
  lemma SnapshotsAreSelfDelimiting(c: Codec)
    requires Faithful(c)
    ensures SelfDelimiting(SnapshotFormat(c))
  {
    var f := SnapshotFormat(c);
    forall r, tail | f.writable(r) ensures f.read(f.write(r) + tail) == Next(r, tail) {
      ParseInvertsEncode(c, r, tail);
    }
    forall r, cut | f.writable(r) && 0 < cut < |f.write(r)| ensures f.read(f.write(r)[..cut]).Broken? {
      TornRecordIsBroken(c, r, cut);
    }
  }

  /** The bytes of a log. */
  ghost function File(c: Codec, rs: seq<Record>): seq<byte> {
    WriteAll(SnapshotFormat(c), rs)
  }

  ghost predicate Loggable(c: Codec, rs: seq<Record>) {
    forall k :: 0 <= k < |rs| ==> Encode(c, rs[k]).Some?
  }

  lemma FileAppends(c: Codec, rs: seq<Record>, r: Record)
    ensures File(c, rs + [r]) == File(c, rs) + Bytes(c, r)
  {
    WriteOneMore(SnapshotFormat(c), rs, r);
  }

  // ----- Replay -----

  datatype Memory = Memory(alive: set<Node>, clock: u64, eventClock: u64, queryClock: u64)

  const BLANK: Memory := Memory({}, 0, 0, 0)

  function Replayed(m: Memory, r: Record, rejoin: bool): Memory {
    match r
    case AliveRecord(n) => m.(alive := m.alive + {n})
    case NotAliveRecord(n) => m.(alive := m.alive - {n})
    case ClockRecord(t) => m.(clock := t)
    case EventClockRecord(t) => m.(eventClock := t)
    case QueryClockRecord(t) => m.(queryClock := t)
    case LeaveRecord => if rejoin then m else BLANK
    case _ => m
  }

  function Replay(rs: seq<Record>, rejoin: bool): Memory {
    if rs == [] then BLANK else Replayed(Replay(rs[..|rs| - 1], rejoin), rs[|rs| - 1], rejoin)
  }

  lemma ReplayAppends(rs: seq<Record>, r: Record, rejoin: bool)
    ensures Replay(rs + [r], rejoin) == Replayed(Replay(rs, rejoin), r, rejoin)
  {
    assert (rs + [r])[..|rs|] == rs;
  }

  /** A leave for good makes all before it as if it had not been; a node that means to come
      back passes over it. */
  lemma {:induction false} ReplayAcrossLeave(rs: seq<Record>, more: seq<Record>, rejoin: bool)
    ensures Replay(rs + [LeaveRecord] + more, rejoin) == if rejoin then Replay(rs + more, true) else Replay(more, false)
  {
    var all := rs + [LeaveRecord] + more;
    if more == [] {
      assert all == rs + [LeaveRecord] && rs + more == rs;
      ReplayAppends(rs, LeaveRecord, rejoin);
    } else {
      var n := |more| - 1;
      ReplayAcrossLeave(rs, more[..n], rejoin);
      assert all == (rs + [LeaveRecord] + more[..n]) + [more[n]];
      ReplayAppends(rs + [LeaveRecord] + more[..n], more[n], rejoin);
      assert rs + more == (rs + more[..n]) + [more[n]];
      ReplayAppends(rs + more[..n], more[n], rejoin);
      assert more == more[..n] + [more[n]];
      ReplayAppends(more[..n], more[n], rejoin);
    }
  }

  /** Coordinates and comments are passed over. */
  lemma {:induction false} ReplaySkipsTheRest(rs: seq<Record>, r: Record, more: seq<Record>, rejoin: bool)
    requires r.CoordinateRecord? || r.CommentRecord?
    ensures Replay(rs + [r] + more, rejoin) == Replay(rs + more, rejoin)
  {
    if more == [] {
      assert rs + [r] + more == rs + [r] && rs + more == rs;
      ReplayAppends(rs, r, rejoin);
    } else {
      var n := |more| - 1;
      ReplaySkipsTheRest(rs, r, more[..n], rejoin);
      assert rs + [r] + more == (rs + [r] + more[..n]) + [more[n]];
      ReplayAppends(rs + [r] + more[..n], more[n], rejoin);
      assert rs + more == (rs + more[..n]) + [more[n]];
      ReplayAppends(rs + more[..n], more[n], rejoin);
    }
  }

  ghost function ReplayFile(c: Codec, bs: seq<byte>, rejoin: bool): Result<Memory> {
    FormatProgresses(c);
    match ReadAll(SnapshotFormat(c), bs)
    case Ok(rs) => Ok(Replay(rs, rejoin))
    case Err(e) => Err(e)
  }

  lemma FormatProgresses(c: Codec)
    ensures Progresses(SnapshotFormat(c))
  {
  }

  lemma ReplayOfWritten(c: Codec, rs: seq<Record>, rejoin: bool)
    requires Faithful(c) && Loggable(c, rs)
    ensures ReplayFile(c, File(c, rs), rejoin) == Ok(Replay(rs, rejoin))
  {
    SnapshotsAreSelfDelimiting(c);
    assert Writable(SnapshotFormat(c), rs);
    RoundTrip(SnapshotFormat(c), rs);
  }

  /** A log cut anywhere replays without error exactly if it is cut between two
      records, and then to what the records before the cut say. */
  lemma CutLogReplaysIffAtBoundary(c: Codec, rs: seq<Record>, cut: nat, rejoin: bool)
    requires Faithful(c) && Loggable(c, rs) && cut <= |File(c, rs)|
    ensures var result := ReplayFile(c, File(c, rs)[..cut], rejoin);
            && (result.Ok? <==> exists k :: 0 <= k <= |rs| && |File(c, rs[..k])| == cut)
            && (result.Ok? ==>
                  exists k :: 0 <= k <= |rs| && |File(c, rs[..k])| == cut && result == Ok(Replay(rs[..k], rejoin)))
  {
    var f := SnapshotFormat(c);
    SnapshotsAreSelfDelimiting(c);
    assert Writable(f, rs);
    var k := ReadCut(f, rs, cut);
    forall j | 0 <= j <= |rs| ensures |File(c, rs[..j])| == Boundary(f, rs, j) {}
  }

  /** The rest of the replay loop, from memory `m` on. */
  function Resumed(c: Codec, m: Memory, bs: seq<byte>, rejoin: bool): Result<Memory>
    decreases |bs|
  {
    match ParseOne(c, bs)
    case End => Ok(m)
    case Broken(e) => Err(e)
    case Next(r, rest) => Resumed(c, Replayed(m, r, rejoin), rest, rejoin)
  }

  lemma {:induction false} ResumedFinishesReplay(c: Codec, f: Format<Record>, done: seq<Record>, bs: seq<byte>,
                                                 rejoin: bool)
    requires Progresses(f) && forall x :: f.read(x) == ParseOne(c, x)
    ensures Resumed(c, Replay(done, rejoin), bs, rejoin) ==
            match ReadAll(f, bs) case Ok(rs) => Ok(Replay(done + rs, rejoin)) case Err(e) => Err(e)
    decreases |bs|
  {
    match f.read(bs)
    case End => assert done + [] == done;
    case Broken(e) =>
    case Next(r, rest) =>
      ReplayAppends(done, r, rejoin);
      ResumedFinishesReplay(c, f, done + [r], rest, rejoin);
      if ReadAll(f, rest).Ok? { assert done + [r] + ReadAll(f, rest).value == done + ([r] + ReadAll(f, rest).value); }
  }

  /** The replay loop at startup. */
  method OpenAndReplay(c: Codec, bs: seq<byte>, rejoin: bool) returns (result: Result<Memory>)
    ensures result == ReplayFile(c, bs, rejoin)
  {
    FormatProgresses(c);
    ResumedFinishesReplay(c, SnapshotFormat(c), [], bs, rejoin);
    assert ReadAll(SnapshotFormat(c), bs).Ok? ==>
      [] + ReadAll(SnapshotFormat(c), bs).value == ReadAll(SnapshotFormat(c), bs).value;
    result := ReplayLoop(c, bs, rejoin);
  }

  method ReplayLoop(c: Codec, bs: seq<byte>, rejoin: bool) returns (result: Result<Memory>)
    ensures result == Resumed(c, BLANK, bs, rejoin)
  {
    var alive: set<Node>, clock: u64, eventClock: u64, queryClock: u64 := {}, 0, 0, 0;
    var rest := bs;
    while true
      invariant Resumed(c, Memory(alive, clock, eventClock, queryClock), rest, rejoin) == Resumed(c, BLANK, bs, rejoin)
      decreases |rest|
    {
      match ParseOne(c, rest) {
        case End => return Ok(Memory(alive, clock, eventClock, queryClock));
        case Broken(e) => return Err(e);
        case Next(r, tail) =>
          match r {
            case AliveRecord(n) => alive := alive + {n};
            case NotAliveRecord(n) => alive := alive - {n};
            case ClockRecord(t) => clock := t;
            case EventClockRecord(t) => eventClock := t;
            case QueryClockRecord(t) => queryClock := t;
            case CoordinateRecord =>
            case LeaveRecord =>
              if !rejoin {
                alive, clock, eventClock, queryClock := {}, 0, 0, 0;
              }
            case CommentRecord =>
          }
          rest := tail;
      }
    }
  }
}
