/** Collecting the acks and responses to one query, with any number of responders
    and the closing of the query running at once.

    A responder looks at the collector under the read lock, lets go of it, and
    sends under the write lock; anything may happen in between. */
module QueryResponse {
  import opened Types

  /** A bounded channel: everything ever sent, how much of it was received, and
      whether sending is still possible. Either end may close it. */
  datatype Channel<T> = Channel(sent: seq<T>, received: nat, capacity: nat, open: bool)

  datatype Reply = Reply(from: Node, payload: string)

  datatype Message = Message(isAck: bool, reply: Reply)

  datatype Responder = Idle | Sending(msg: Message)

  datatype Collector = Collector(
    closed: bool,
    acks: set<Node>,
    responses: set<Node>,
    ackChannel: Option<Channel<Node>>,  // None unless acks were asked for
    replyChannel: Channel<Reply>,
    responders: seq<Responder>
  )

  function New(wantsAcks: bool, nodes: nat, responders: nat): Collector {
    Collector(false, {}, {}, if wantsAcks then Some(Channel([], 0, nodes, true)) else None,
              Channel([], 0, nodes, true), seq(responders, _ => Idle))
  }

  datatype Step =
    | Check(i: nat, msg: Message, expired: bool) // under the read lock
    | Send(i: nat)                               // under the write lock
    | Close
    | ReceiveAck
    | ReceiveReply
    | ReceiverCloses(acks: bool)

  predicate Enabled(c: Collector, step: Step) {
    match step
    case Check(i, _, _) => i < |c.responders| && c.responders[i].Idle?
    case Send(i) => i < |c.responders| && c.responders[i].Sending?
    case ReceiveAck => c.ackChannel.Some? && c.ackChannel.value.received < |c.ackChannel.value.sent|
    case ReceiveReply => c.replyChannel.received < |c.replyChannel.sent|
    case _ => true
  }

  predicate Full<T>(ch: Channel<T>) {
    |ch.sent| - ch.received >= ch.capacity
  }

  /** The channel, and whether the send came to an end at once. A send on a closed
      channel does, with an error that the caller does not look at. */
  function TrySend<T>(ch: Channel<T>, x: T): (Channel<T>, bool) {
    if !ch.open then (ch, true)
    else if Full(ch) then (ch, false)
    else (ch.(sent := ch.sent + [x]), true)
  }

  function SendAck(c: Collector, from: Node): Collector {
    if from in c.acks || c.closed || c.ackChannel.None? then c
    else
      var (ch, ended) := TrySend(c.ackChannel.value, from);
      c.(ackChannel := Some(ch), acks := if ended then c.acks + {from} else c.acks)
  }

  function SendReply(c: Collector, reply: Reply): Collector {
    if reply.from in c.responses || c.closed then c
    else
      var (ch, ended) := TrySend(c.replyChannel, reply);
      c.(replyChannel := ch, responses := if ended then c.responses + {reply.from} else c.responses)
  }

  function Do(c: Collector, step: Step): Collector
    requires Enabled(c, step)
  {
    match step
    case Check(i, msg, expired) =>
      var known := if msg.isAck then msg.reply.from in c.acks else msg.reply.from in c.responses;
      if c.closed || expired || known then c else c.(responders := c.responders[i := Sending(msg)])
    case Send(i) =>
      var msg := c.responders[i].msg;
      var c' := c.(responders := c.responders[i := Idle]);
      if msg.isAck then SendAck(c', msg.reply.from) else SendReply(c', msg.reply)
    case Close =>
      if c.closed then c
      else c.(closed := true, replyChannel := c.replyChannel.(open := false),
              ackChannel := match c.ackChannel case Some(ch) => Some(ch.(open := false)) case None => None)
    case ReceiveAck => c.(ackChannel := Some(c.ackChannel.value.(received := c.ackChannel.value.received + 1)))
    case ReceiveReply => c.(replyChannel := c.replyChannel.(received := c.replyChannel.received + 1))
    case ReceiverCloses(acks) =>
      if acks
      then c.(ackChannel := match c.ackChannel case Some(ch) => Some(ch.(open := false)) case None => None)
      else c.(replyChannel := c.replyChannel.(open := false))
  }

  // ----- At most once, and nothing after close -----

  function AcksSent(c: Collector): seq<Node> {
    match c.ackChannel case Some(ch) => ch.sent case None => []
  }

  /** Sent once each, and recorded. */
  ghost predicate Inv(c: Collector) {
    && (forall j, k :: 0 <= j < k < |AcksSent(c)| ==> AcksSent(c)[j] != AcksSent(c)[k])
    && (forall j, k :: 0 <= j < k < |c.replyChannel.sent| ==>
          c.replyChannel.sent[j].from != c.replyChannel.sent[k].from)
    && (forall j :: 0 <= j < |AcksSent(c)| ==> AcksSent(c)[j] in c.acks)
    && (forall j :: 0 <= j < |c.replyChannel.sent| ==> c.replyChannel.sent[j].from in c.responses)
  }

  /** A response of this node was sent. */
  ghost predicate Replied(c: Collector, n: Node) {
    exists k :: 0 <= k < |c.replyChannel.sent| && c.replyChannel.sent[k].from == n
  }

  /** What is recorded is what was sent. */
  ghost predicate Exact(c: Collector) {
    && (forall n :: n in c.acks ==> n in AcksSent(c))
    && (forall n :: n in c.responses ==> Replied(c, n))
  }

  /** Later in the same query: nothing is taken back, and once closed nothing is
      sent or recorded any more. */
  ghost predicate Follows(c: Collector, c': Collector) {
    && (c.closed ==> c'.closed) && |c'.responders| == |c.responders|
    && AcksSent(c) <= AcksSent(c') && c.replyChannel.sent <= c'.replyChannel.sent
    && c.acks <= c'.acks && c.responses <= c'.responses
    && (c.closed ==> AcksSent(c') == AcksSent(c) && c'.replyChannel.sent == c.replyChannel.sent
                     && c'.acks == c.acks && c'.responses == c.responses)
  }

  lemma AckKeepsInv(c: Collector, from: Node)
    requires Inv(c)
    ensures Inv(SendAck(c, from)) && Follows(c, SendAck(c, from))
  {
    var c' := SendAck(c, from);
    if AcksSent(c') != AcksSent(c) {
      assert AcksSent(c') == AcksSent(c) + [from];
    }
    assert c'.replyChannel == c.replyChannel;
  }

  lemma ReplyKeepsInv(c: Collector, reply: Reply)
    requires Inv(c)
    ensures Inv(SendReply(c, reply)) && Follows(c, SendReply(c, reply))
  {
    var c' := SendReply(c, reply);
    assert AcksSent(c') == AcksSent(c);
    if c'.replyChannel.sent != c.replyChannel.sent {
      assert c'.replyChannel.sent == c.replyChannel.sent + [reply];
    }
  }

  lemma StepKeepsInv(c: Collector, step: Step)
    requires Inv(c) && Enabled(c, step)
    ensures Inv(Do(c, step)) && Follows(c, Do(c, step))
  {
    match step
    case Send(i) =>
      var msg := c.responders[i].msg;
      var c1 := c.(responders := c.responders[i := Idle]);
      assert AcksSent(c1) == AcksSent(c);
      assert Inv(c1);
      if msg.isAck { AckKeepsInv(c1, msg.reply.from); } else { ReplyKeepsInv(c1, msg.reply); }
    case _ =>
      assert AcksSent(Do(c, step)) == AcksSent(c);
      assert Do(c, step).replyChannel.sent == c.replyChannel.sent;
  }

  ghost predicate Runnable(c: Collector, steps: seq<Step>)
    decreases |steps|
  {
    steps == [] || (Enabled(c, steps[0]) && Runnable(Do(c, steps[0]), steps[1..]))
  }

  ghost function Run(c: Collector, steps: seq<Step>): Collector
    requires Runnable(c, steps)
    decreases |steps|
  {
    if steps == [] then c else Run(Do(c, steps[0]), steps[1..])
  }

  lemma {:induction false} RunKeepsInv(c: Collector, steps: seq<Step>)
    requires Inv(c) && Runnable(c, steps)
    ensures Inv(Run(c, steps)) && Follows(c, Run(c, steps))
    decreases |steps|
  {
    if steps == [] {
    } else {
      StepKeepsInv(c, steps[0]);
      RunKeepsInv(Do(c, steps[0]), steps[1..]);
    }
  }

  // ----- Is what is recorded what was sent? -----

  /** The branch that records without sending: the sender is not recorded yet and
      the query is open, but the message's own channel was closed by its receiver. */
  predicate RecordsUnsent(c: Collector, step: Step)
    requires Enabled(c, step)
  {
    && step.Send? && !c.closed
    && var msg := c.responders[step.i].msg;
       if msg.isAck
       then c.ackChannel.Some? && !c.ackChannel.value.open && msg.reply.from !in c.acks
       else !c.replyChannel.open && msg.reply.from !in c.responses
  }

  lemma AckIsExactIffSent(c: Collector, from: Node)
    requires Inv(c) && Exact(c)
    ensures Exact(SendAck(c, from)) <==>
            !(from !in c.acks && !c.closed && c.ackChannel.Some? && !c.ackChannel.value.open)
  {
    var c' := SendAck(c, from);
    if AcksSent(c') != AcksSent(c) { assert AcksSent(c') == AcksSent(c) + [from]; }
    forall n | n in c'.responses ensures Replied(c', n) { assert Replied(c, n); }
  }

  lemma ReplyIsExactIffSent(c: Collector, reply: Reply)
    requires Inv(c) && Exact(c)
    ensures Exact(SendReply(c, reply)) <==> !(reply.from !in c.responses && !c.closed && !c.replyChannel.open)
  {
    var c' := SendReply(c, reply);
    var (sent, sent') := (c.replyChannel.sent, c'.replyChannel.sent);
    assert AcksSent(c') == AcksSent(c);
    if sent' != sent {
      assert sent' == sent + [reply] && sent'[|sent|].from == reply.from;
    }
    forall n | n in c.responses ensures Replied(c', n) {
      assert Replied(c, n);
      var k :| 0 <= k < |sent| && sent[k].from == n;
      assert sent'[k].from == n;
    }
    if reply.from !in c.responses && !c.closed && !c.replyChannel.open {
      assert !Replied(c', reply.from);
    }
  }

  /** A step keeps what is recorded equal to what was sent exactly if it does not
      record on a channel that its receiver has closed. */
  lemma StaysExactIffSent(c: Collector, step: Step)
    requires Inv(c) && Exact(c) && Enabled(c, step)
    ensures Exact(Do(c, step)) <==> !RecordsUnsent(c, step)
  {
    match step
    case Send(i) =>
      var msg := c.responders[i].msg;
      var c1 := c.(responders := c.responders[i := Idle]);
      assert AcksSent(c1) == AcksSent(c);
      forall n | n in c1.responses ensures Replied(c1, n) { assert Replied(c, n); }
      if msg.isAck { AckIsExactIffSent(c1, msg.reply.from); } else { ReplyIsExactIffSent(c1, msg.reply); }
    case _ =>
      var c' := Do(c, step);
      assert AcksSent(c') == AcksSent(c);
      forall n | n in c'.responses ensures Replied(c', n) { assert Replied(c, n); }
  }

  /** A node recorded without being sent is turned away ever after. */
  lemma UnsentStaysUnsent(c: Collector, step: Step)
    requires Inv(c) && !Exact(c) && Enabled(c, step)
    ensures !Exact(Do(c, step))
  {
    var c' := Do(c, step);
    StepKeepsInv(c, step);
    if n :| n in c.acks && n !in AcksSent(c) {
      assert AcksSent(c') == AcksSent(c) ||
        (step.Send? && AcksSent(c') == AcksSent(c) + [c.responders[step.i].msg.reply.from]);
      assert n in c'.acks && n !in AcksSent(c');
    } else {
      var n :| n in c.responses && !Replied(c, n);
      var (sent, sent') := (c.replyChannel.sent, c'.replyChannel.sent);
      assert sent' == sent || (step.Send? && sent' == sent + [c.responders[step.i].msg.reply]);
      assert !Replied(c', n);
    }
  }

  /** No step of the run records without sending. */
  ghost predicate AllSent(c: Collector, steps: seq<Step>)
    requires Runnable(c, steps)
    decreases |steps|
  {
    steps == [] || (!RecordsUnsent(c, steps[0]) && AllSent(Do(c, steps[0]), steps[1..]))
  }

  lemma {:induction false} RunIsExactIffSent(c: Collector, steps: seq<Step>)
    requires Inv(c) && Runnable(c, steps)
    ensures Exact(Run(c, steps)) <==> Exact(c) && AllSent(c, steps)
    decreases |steps|
  {
    if steps == [] {
    } else {
      StepKeepsInv(c, steps[0]);
      if Exact(c) { StaysExactIffSent(c, steps[0]); } else { UnsentStaysUnsent(c, steps[0]); }
      RunIsExactIffSent(Do(c, steps[0]), steps[1..]);
    }
  }

  /** While no receiver closes its end, the channels are open as long as the query. */
  ghost predicate OpenWithQuery(c: Collector) {
    !c.closed ==> c.replyChannel.open && (c.ackChannel.Some? ==> c.ackChannel.value.open)
  }

  lemma {:induction false} ReceiversStayingMeansAllSent(c: Collector, steps: seq<Step>)
    requires Runnable(c, steps) && OpenWithQuery(c)
    requires forall k :: 0 <= k < |steps| ==> !steps[k].ReceiverCloses?
    ensures AllSent(c, steps)
    decreases |steps|
  {
    if steps == [] {
    } else {
      assert !steps[0].ReceiverCloses?;
      assert OpenWithQuery(Do(c, steps[0]));
      ReceiversStayingMeansAllSent(Do(c, steps[0]), steps[1..]);
    }
  }

  /** Whatever the responders, the receiver and the closing do in whatever order:
      each node's ack and response is delivered at most once. The nodes recorded
      are those delivered if and only if no step recorded one on a channel that
      its receiver had closed, as in every run in which no receiver closes. */
  lemma EachNodeIsDeliveredOnce(wantsAcks: bool, nodes: nat, responders: nat, steps: seq<Step>)
    requires Runnable(New(wantsAcks, nodes, responders), steps)
    ensures var c0 := New(wantsAcks, nodes, responders);
            var c := Run(c0, steps);
            && (forall j, k :: 0 <= j < k < |AcksSent(c)| ==> AcksSent(c)[j] != AcksSent(c)[k])
            && (forall j, k :: 0 <= j < k < |c.replyChannel.sent| ==>
                  c.replyChannel.sent[j].from != c.replyChannel.sent[k].from)
            && (Exact(c) <==> AllSent(c0, steps))
            && ((forall k :: 0 <= k < |steps| ==> !steps[k].ReceiverCloses?) ==> Exact(c))
  {
    var c0 := New(wantsAcks, nodes, responders);
    RunKeepsInv(c0, steps);
    RunIsExactIffSent(c0, steps);
    if forall k :: 0 <= k < |steps| ==> !steps[k].ReceiverCloses? { ReceiversStayingMeansAllSent(c0, steps); }
  }

  /** Nothing is delivered after the query is closed, not even by a responder that
      had passed its check before. */
  lemma NothingAfterClose(c: Collector, steps: seq<Step>)
    requires Inv(c) && c.closed && Runnable(c, steps)
    ensures var c' := Run(c, steps);
            c'.closed && AcksSent(c') == AcksSent(c) && c'.replyChannel.sent == c.replyChannel.sent
  {
    RunKeepsInv(c, steps);
  }

  /** That a receiver leaves its end open is needed: for any node, once the response
      channel is closed by its receiver, a response is recorded that nobody gets,
      and a later one from that node is turned away. */
  lemma ClosedReceiverRecordsTheUndelivered(nodes: nat, reply: Reply)
    ensures var check := Check(0, Message(false, reply), false);
            var c1 := Do(New(false, nodes, 1), ReceiverCloses(false));
            && Enabled(c1, check)
            && var c2 := Do(c1, check);
            && Enabled(c2, Send(0))
            && var c3 := Do(c2, Send(0));
            && reply.from in c3.responses && c3.replyChannel.sent == [] && !Exact(c3)
            && Enabled(c3, check) && Do(c3, check) == c3
  {
    var c1 := Do(New(false, nodes, 1), ReceiverCloses(false));
    var c3 := Do(Do(c1, Check(0, Message(false, reply), false)), Send(0));
    assert reply.from in c3.responses && c3.replyChannel.sent == [];
  }

  // ----- What is delivered -----

  /** A responder goes on to send exactly if the query is open, the deadline has not
      passed, and its node is not recorded yet. */
  lemma CheckPassesIff(c: Collector, i: nat, msg: Message, expired: bool)
    requires Enabled(c, Check(i, msg, expired))
    ensures var c' := Do(c, Check(i, msg, expired));
            && c' == c.(responders := c'.responders) && |c'.responders| == |c.responders|
            && (c'.responders[i] == Sending(msg) <==>
                  !c.closed && !expired && msg.reply.from !in (if msg.isAck then c.acks else c.responses))
  {
  }

  /** A response is delivered exactly if the query and the channel are open, the channel
      has room, and the node is not recorded; it is then recorded. Otherwise nothing is
      sent, and unless the channel is closed nothing is recorded, so that the node may try
      again. */
  lemma ReplyIsDeliveredIff(c: Collector, i: nat)
    requires Enabled(c, Send(i)) && !c.responders[i].msg.isAck
    ensures var r := c.responders[i].msg.reply;
            var c' := Do(c, Send(i));
            var delivered := !c.closed && c.replyChannel.open && r.from !in c.responses
                             && |c.replyChannel.sent| - c.replyChannel.received < c.replyChannel.capacity;
            && (c'.replyChannel.sent == c.replyChannel.sent + [r] <==> delivered)
            && (!delivered ==> c'.replyChannel == c.replyChannel)
            && (delivered ==> c'.responses == c.responses + {r.from})
            && (!delivered && c.replyChannel.open ==> c'.responses == c.responses)
            && c'.acks == c.acks && c'.ackChannel == c.ackChannel && c'.closed == c.closed
  {
  }

  /** The same for an ack, if acks were asked for. */
  lemma AckIsDeliveredIff(c: Collector, i: nat)
    requires Enabled(c, Send(i)) && c.responders[i].msg.isAck
    ensures var from := c.responders[i].msg.reply.from;
            var c' := Do(c, Send(i));
            var delivered := !c.closed && c.ackChannel.Some? && c.ackChannel.value.open && from !in c.acks
                             && |AcksSent(c)| - c.ackChannel.value.received < c.ackChannel.value.capacity;
            && (AcksSent(c') == AcksSent(c) + [from] <==> delivered)
            && (!delivered ==> c'.ackChannel == c.ackChannel)
            && (delivered ==> c'.acks == c.acks + {from})
            && (!delivered && (c.ackChannel.Some? ==> c.ackChannel.value.open) ==> c'.acks == c.acks)
            && c'.responses == c.responses && c'.replyChannel == c.replyChannel && c'.closed == c.closed
  {
  }

  /** Closing closes the query and both channels, and sends and records nothing. */
  lemma CloseCloses(c: Collector)
    requires Inv(c) && OpenWithQuery(c)
    ensures var c' := Do(c, Close);
            && c'.closed && OpenWithQuery(c') && Follows(c, c')
            && (!c.closed ==> !c'.replyChannel.open && (c'.ackChannel.Some? ==> !c'.ackChannel.value.open))
            && AcksSent(c') == AcksSent(c) && c'.replyChannel.sent == c.replyChannel.sent
  {
  }

  /** At most `nodes` messages wait on either channel. */
  ghost predicate Fits(c: Collector, nodes: nat) {
    && c.replyChannel.capacity == nodes
    && 0 <= |c.replyChannel.sent| - c.replyChannel.received <= nodes
    && (c.ackChannel.Some? ==>
          c.ackChannel.value.capacity == nodes && 0 <= |AcksSent(c)| - c.ackChannel.value.received <= nodes)
  }

  lemma {:induction false} ChannelsNeverOverflow(c: Collector, steps: seq<Step>, nodes: nat)
    requires Fits(c, nodes) && Runnable(c, steps)
    ensures Fits(Run(c, steps), nodes)
    decreases |steps|
  {
    if steps == [] {
    } else {
      StepFits(c, steps[0], nodes);
      ChannelsNeverOverflow(Do(c, steps[0]), steps[1..], nodes);
    }
  }

  /** In every run the channels are as large as the number of nodes, and never hold more. */
  lemma AtMostNodesWait(wantsAcks: bool, nodes: nat, responders: nat, steps: seq<Step>)
    requires Runnable(New(wantsAcks, nodes, responders), steps)
    ensures Fits(Run(New(wantsAcks, nodes, responders), steps), nodes)
  {
    ChannelsNeverOverflow(New(wantsAcks, nodes, responders), steps, nodes);
  }

  lemma StepFits(c: Collector, step: Step, nodes: nat)
    requires Fits(c, nodes) && Enabled(c, step)
    ensures Fits(Do(c, step), nodes)
  {
  }

  /** Receiving makes room for one more, and changes nothing else. */
  lemma ReceivingMakesRoom(c: Collector)
    ensures Enabled(c, ReceiveReply) ==>
              var c' := Do(c, ReceiveReply);
              && c' == c.(replyChannel := c'.replyChannel) && c'.replyChannel.sent == c.replyChannel.sent
              && c'.replyChannel.received == c.replyChannel.received + 1
    ensures Enabled(c, ReceiveAck) ==>
              var c' := Do(c, ReceiveAck);
              && c'.ackChannel.Some? && AcksSent(c') == AcksSent(c) && c' == c.(ackChannel := c'.ackChannel)
              && c'.ackChannel.value.received == c.ackChannel.value.received + 1
  {
  }

  /** The query and its channels are open, the channels are as large as `members`, and only
      those respond. */
  ghost predicate Roomy(c: Collector, members: set<Node>) {
    && !c.closed && c.replyChannel.open && |members| <= c.replyChannel.capacity
    && (c.ackChannel.Some? ==> c.ackChannel.value.open && |members| <= c.ackChannel.value.capacity)
    && c.acks <= members && c.responses <= members
    && (forall i :: 0 <= i < |c.responders| && c.responders[i].Sending? ==> c.responders[i].msg.reply.from in members)
  }

  /** Only `members` respond, and nothing is closed. */
  ghost predicate Calm(steps: seq<Step>, members: set<Node>) {
    forall k :: 0 <= k < |steps| ==>
      && !steps[k].Close? && !steps[k].ReceiverCloses?
      && (steps[k].Check? ==> steps[k].msg.reply.from in members)
  }

  /** As many as were sent were recorded. */
  lemma {:induction false} SentFewerThanMembers(nodes: seq<Node>, members: set<Node>, n: Node)
    requires forall j, k :: 0 <= j < k < |nodes| ==> nodes[j] != nodes[k]
    requires (forall j :: 0 <= j < |nodes| ==> nodes[j] in members) && n in members && n !in nodes
    ensures |nodes| < |members|
    decreases |nodes|
  {
    if nodes == [] {
    } else {
      var last := nodes[|nodes| - 1];
      SentFewerThanMembers(nodes[..|nodes| - 1], members - {last}, n);
    }
  }

  function Senders(replies: seq<Reply>): seq<Node> {
    seq(|replies|, k requires 0 <= k < |replies| => replies[k].from)
  }

  lemma RoomForReply(c: Collector, members: set<Node>, from: Node)
    requires Inv(c) && Roomy(c, members) && from in members && from !in c.responses
    ensures !Full(c.replyChannel)
  {
    var nodes := Senders(c.replyChannel.sent);
    forall j | 0 <= j < |nodes| ensures nodes[j] in c.responses { assert c.replyChannel.sent[j].from in c.responses; }
    SentFewerThanMembers(nodes, members, from);
  }

  lemma RoomForAck(c: Collector, members: set<Node>, from: Node)
    requires Inv(c) && Roomy(c, members) && from in members && from !in c.acks && c.ackChannel.Some?
    ensures !Full(c.ackChannel.value)
  {
    forall j | 0 <= j < |AcksSent(c)| ensures AcksSent(c)[j] in c.acks {}
    SentFewerThanMembers(AcksSent(c), members, from);
  }

  /** The message was delivered, or one of its kind from the same node before. */
  ghost predicate GotThrough(c: Collector, msg: Message) {
    if msg.isAck then c.ackChannel.Some? ==> msg.reply.from in AcksSent(c) else Replied(c, msg.reply.from)
  }

  lemma SendGetsThrough(c: Collector, members: set<Node>, i: nat)
    requires Inv(c) && Exact(c) && Roomy(c, members) && Enabled(c, Send(i))
    ensures var c' := Do(c, Send(i));
            Roomy(c', members) && Exact(c') && GotThrough(c', c.responders[i].msg)
  {
    var msg := c.responders[i].msg;
    var from := msg.reply.from;
    var c' := Do(c, Send(i));
    StaysExactIffSent(c, Send(i));
    if msg.isAck {
      if c.ackChannel.Some? && from !in c.acks { RoomForAck(c, members, from); }
      AckIsDeliveredIff(c, i);
    } else {
      if from !in c.responses { RoomForReply(c, members, from); }
      ReplyIsDeliveredIff(c, i);
      assert from in c'.responses;
    }
  }

  lemma CalmStepStaysRoomy(c: Collector, members: set<Node>, step: Step)
    requires Inv(c) && Exact(c) && Roomy(c, members) && Enabled(c, step) && Calm([step], members)
    ensures Roomy(Do(c, step), members) && Exact(Do(c, step))
  {
    assert [step][0] == step;
    match step
    case Send(i) => SendGetsThrough(c, members, i);
    case _ => StaysExactIffSent(c, step);
  }

  lemma ThroughIsThrough(c: Collector, c': Collector, msg: Message)
    requires GotThrough(c, msg) && Follows(c, c') && (c.ackChannel.Some? <==> c'.ackChannel.Some?)
    ensures GotThrough(c', msg)
  {
    if !msg.isAck {
      var k :| 0 <= k < |c.replyChannel.sent| && c.replyChannel.sent[k].from == msg.reply.from;
      assert c'.replyChannel.sent[k] == c.replyChannel.sent[k];
    }
  }

  /** The messages sent in a run. */
  ghost function MessagesOf(c: Collector, steps: seq<Step>): seq<Message>
    requires Runnable(c, steps)
    decreases |steps|
  {
    if steps == [] then []
    else (if steps[0].Send? then [c.responders[steps[0].i].msg] else []) + MessagesOf(Do(c, steps[0]), steps[1..])
  }

  lemma {:induction false} AllGetThrough(c: Collector, members: set<Node>, steps: seq<Step>)
    requires Inv(c) && Exact(c) && Roomy(c, members) && Runnable(c, steps) && Calm(steps, members)
    ensures forall msg :: msg in MessagesOf(c, steps) ==> GotThrough(Run(c, steps), msg)
    ensures c.ackChannel.Some? <==> Run(c, steps).ackChannel.Some?
    decreases |steps|
  {
    if steps == [] {
    } else {
      var c1 := Do(c, steps[0]);
      assert Calm([steps[0]], members) && Calm(steps[1..], members);
      StepKeepsInv(c, steps[0]);
      CalmStepStaysRoomy(c, members, steps[0]);
      AllGetThrough(c1, members, steps[1..]);
      if steps[0].Send? {
        SendGetsThrough(c, members, steps[0].i);
        RunKeepsInv(c1, steps[1..]);
        ThroughIsThrough(c1, Run(c1, steps[1..]), c.responders[steps[0].i].msg);
      }
    }
  }

  /** In every run in which nothing is closed and no more nodes respond than there are
      members, every ack and response that is sent gets through, however the responders and
      the receiver interleave. */
  lemma EveryResponseGetsThrough(wantsAcks: bool, nodes: nat, responders: nat, members: set<Node>, steps: seq<Step>)
    requires |members| <= nodes && Runnable(New(wantsAcks, nodes, responders), steps) && Calm(steps, members)
    ensures var c := New(wantsAcks, nodes, responders);
            forall msg :: msg in MessagesOf(c, steps) ==> GotThrough(Run(c, steps), msg)
  {
    AllGetThrough(New(wantsAcks, nodes, responders), members, steps);
  }
}
