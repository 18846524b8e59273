/** Rollapp packets as they are stored: values, with the embedded IBC packet copied in. */
module Packets {
  import opened Bytes

  type Text = bytes

  datatype Status = Pending | Finalized

  datatype PacketType = OnRecv | OnAck | OnTimeout | Undefined

  /** An amount as it is written, and the integer it is read as, if it is one. */
  datatype Amount = Amount(text: Text, value: Option<int>)

  /** ICS-20 fungible token packet data. */
  datatype Transfer = Transfer(denom: Text, amount: Amount, sender: Text, receiver: Text, memo: Text)

  /** The bytes of a packet's data field up to what the module can tell apart: the canonical text that
      GetBytes produces for a transfer, some other JSON text of the same transfer, or no transfer. */
  datatype Data = Canonical(transfer: Transfer) | Respelled(transfer: Transfer, form: nat) | Malformed(raw: bytes)
  {
    predicate Parses() { !Malformed? }
  }

  datatype Packet = Packet(sequence: u64, srcPort: Text, srcChan: Text, dstPort: Text, dstChan: Text,
                           data: Data, timeout: nat)

  datatype RollappPacket = RollappPacket(
    rollappId: Text,
    packet: Packet,
    acknowledgement: bytes,
    status: Status,
    proofHeight: u64,
    relayer: bytes,
    ptype: PacketType,
    error: Text,
    originalTarget: Text)

  /** Packets the hub sent, whose outcome comes back as an acknowledgement or a timeout. */
  predicate IsSent(t: PacketType) { t == OnAck || t == OnTimeout }

  /** The address the transfer credits or refunds: the receiver of an incoming packet, the sender of an
      acknowledged or timed-out one, the empty string for an undefined type. */
  function Payee(t: PacketType, x: Transfer): (a: Text) {
    match t
    case OnRecv => x.receiver
    case OnAck => x.sender
    case OnTimeout => x.sender
    case Undefined => []
  }

  function WithPayee(t: PacketType, x: Transfer, a: Text): (y: Transfer)
    ensures t != Undefined ==> Payee(t, y) == a
  {
    match t
    case OnRecv => x.(receiver := a)
    case OnAck => x.(sender := a)
    case OnTimeout => x.(sender := a)
    case Undefined => x
  }

  function PayeeOf(p: RollappPacket): (a: Text)
    requires p.packet.data.Parses()
  {
    Payee(p.ptype, p.packet.data.transfer)
  }

  /** The packet whose payee a fulfilment has redirected to `to`, remembering who it was. */
  function Redirect(p: RollappPacket, to: Text): (q: RollappPacket)
    requires p.packet.data.Parses()
  {
    var x := p.packet.data.transfer;
    p.(packet := p.packet.(data := Canonical(WithPayee(p.ptype, x, to))),
       originalTarget := Payee(p.ptype, x))
  }

  /** What RestoreOriginalTransferTarget leaves in the shared packet. */
  function Restore(p: RollappPacket): (q: RollappPacket)
    requires p.packet.data.Parses()
    ensures q.packet.data.Parses()
    ensures q == p.(packet := p.packet.(data := q.packet.data))
  {
    if p.originalTarget == [] then p
    else p.(packet := p.packet.(data := Canonical(WithPayee(p.ptype, p.packet.data.transfer, p.originalTarget))))
  }

  /** A fulfilment followed by a restore is exact on the transfer whenever someone is named as payee. */
  lemma RedirectThenRestoreTransfer(p: RollappPacket, to: Text)
    requires p.ptype != Undefined && p.packet.data.Parses()
    ensures Restore(Redirect(p, to)).packet.data.transfer == p.packet.data.transfer
            <==> (PayeeOf(p) != [] || to == PayeeOf(p))
    ensures PayeeOf(Redirect(p, to)) == to
  {
    var x := p.packet.data.transfer;
    assert WithPayee(p.ptype, WithPayee(p.ptype, x, to), Payee(p.ptype, x)) == x;
    if Payee(p.ptype, x) == [] {
      assert Restore(Redirect(p, to)) == Redirect(p, to);
      assert Payee(p.ptype, WithPayee(p.ptype, x, to)) == to;
    }
  }

  /** It is exact on the data bytes only if they were canonical to begin with. */
  lemma RedirectThenRestoreBytes(p: RollappPacket, to: Text)
    requires p.ptype != Undefined && p.packet.data.Parses()
    ensures Restore(Redirect(p, to)).packet == p.packet
            <==> p.packet.data.Canonical? && (PayeeOf(p) != [] || to == PayeeOf(p))
  {
    RedirectThenRestoreTransfer(p, to);
  }

  /** ICS-04 packet commitment; the hash is taken to be collision free. */
  datatype Commitment = Commitment(timeout: nat, data: Data)

  function CommitPacket(p: Packet): (c: Commitment) {
    Commitment(p.timeout, p.data)
  }
}
