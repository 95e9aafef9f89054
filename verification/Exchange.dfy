/** The state exchange as a whole: the members, the user events and the three clocks. */
module Exchange {
  import opened Handlers
  import EventRing
  import Gossip
  import PushPull
  import QueryRing

  /** What a peer sends. */
  datatype Message = Message(members: PushPull.Remote, eventTime: nat, slots: seq<EventRing.UserEvents>, queryTime: nat)

  /** Merges a peer's message; `ignoreOld` is set during a join that ignores old
      events. Each of the three parts ends as its own merge says, and nothing of one
      part reaches another. */
  method MergeRemoteState(core: SerfCore, events: EventRing.EventCore, queries: QueryRing.QueryCore,
                          msg: Message, ignoreOld: bool, now: nat)
    returns (refutes: seq<nat>, ghost ms: seq<Gossip.Msg>)
    requires core.Valid()
    modifies core, events, events.buffer, queries`clock
    ensures core.Valid()
    ensures PushPull.Order(ms, PushPull.Intents(msg.members))
    ensures core.View() == PushPull.Merge(old(core.View()), msg.members, ms, now)
    ensures refutes == PushPull.MergeRefutations(old(core.View()), msg.members, ms, now)
    ensures events.View() == EventRing.Merge(old(events.View()), msg.eventTime, ignoreOld, EventRing.Flatten(msg.slots))
    ensures queries.View() == (if msg.queryTime > 0
                               then QueryRing.Do(old(queries.View()), QueryRing.Witness(msg.queryTime - 1)).0
                               else old(queries.View()))
    ensures queries.clock == if old(queries.clock) < msg.queryTime then msg.queryTime else old(queries.clock)
  {
    if msg.queryTime > 0 { queries.WitnessTime(msg.queryTime - 1); }
    refutes, ms := core.MergeMembers(msg.members, now);
    events.MergeEvents(msg.eventTime, ignoreOld, msg.slots);
  }
}
