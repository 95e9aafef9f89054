/** The records shared by the modules. */
module Types {

  datatype Option<+T> = None | Some(value: T)

  type Id = string
  type Addr = string
  type Tags = map<string, string>

  datatype Node = Node(id: Id, addr: Addr)

  datatype Status = Nothing | Alive | Leaving | Left | Failed | Unknown(code: nat)

  datatype Versions = Versions(protocol: nat, delegate: nat, memberlistProtocol: nat, memberlistDelegate: nat)

  const V1: Versions := Versions(1, 1, 1, 1)

  datatype Member = Member(node: Node, tags: Tags, status: Status, versions: Versions)

  /** A member, the Lamport time of the last intent about it, and the wall time
      at which it failed or left. */
  datatype MemberState = MemberState(member: Member, statusTime: nat, leaveTime: Option<nat>) {
    function Id(): Id { member.node.id }
    function Status(): Status { member.status }
  }

  datatype Kind = JoinKind | LeaveKind

  /** An intent kept for a member that is not known yet. */
  datatype Intent = Intent(kind: Kind, ltime: nat, wallTime: nat)

  datatype EventType = Joined | Departed | Lost | Updated | Reaped

  datatype MemberEvent = MemberEvent(ty: EventType, member: Member)
}
