/** Wire constants and the immutable values the router and its links exchange. */
module Packets {
  import opened Common

  const MaxPacketBytes := 6 * 1024 * 1024
  const MaxPendingBytes := 16 * 1024 * 1024
  const SOSReserveBytes := 64 * 1024
  const FragmentBytes := 2048
  const MaxTransfers := 64
  const SOSReserveSlots := 2
  const MaxAssemblies := 8
  const MaxHops := 12
  const MaxTTL := 3_600_000 // one hour, in milliseconds

  type Name = nat

  datatype Priority = SOS | Normal | Bulk

  function Rank(p: Priority): nat {
    match p
    case SOS => 0
    case Normal => 1
    case Bulk => 2
  }

  predicate AsUrgent(p: Priority, q: Priority) {
    (q == SOS ==> p == SOS) && (q == Normal ==> p != Bulk)
  }

  /** How many fragments of `FragmentBytes` bytes a packet is cut into. */
  function FragmentCount(encoded: seq<Byte>): nat {
    (|encoded| + 2047) / 2048
  }

  /** What the packet hash covers. Hops travel beside it. */
  datatype Body = Body(source: Name, created: int, expires: int, maxHops: int, priority: Priority, payload: seq<Byte>)

  datatype Packet = Packet(id: Id, body: Body, hops: seq<Name>)

  /** An immutable snapshot shared by the retained table and the link queues. */
  datatype Retained = Retained(packet: Packet, encoded: seq<Byte>, relayOnly: bool, sequence: nat) {
    function Id(): Id { packet.id }
    function Priority(): Priority { packet.body.priority }
    function Expires(): int { packet.body.expires }
  }
}
