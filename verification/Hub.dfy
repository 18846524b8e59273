/** The hub's delayed-ack state and what each transaction does to it. Core IBC (ICS-04), the modules below
    the middleware and the eIBC market appear through what they do to this state; their free choices are
    the oracle arguments of a step. */
module Hub {
  import opened Bytes
  import opened SortedStore
  import opened Packets
  import opened PacketKey

  datatype Endpoint = Endpoint(port: Text, chan: Text)
  datatype Slot = Slot(at: Endpoint, seqn: u64)
  datatype Side = In | Out

  datatype Channel = Channel(peer: Endpoint, rollapp: Option<Text>)

  /** The hub's channel ends and each rollapp's canonical channel. */
  datatype Env = Env(channels: map<Endpoint, Channel>, canonical: map<Text, Text>)

  /** Channel ids are unique on the hub and rollapp ids contain no separator. */
  ghost predicate ValidEnv(env: Env) {
    && (forall e, f :: e in env.channels && f in env.channels && e.chan == f.chan ==> e == f)
    && (forall e :: e in env.channels && env.channels[e].rollapp.Some? ==> SlashFree(env.channels[e].rollapp.value))
  }

  datatype Order = Order(trackingKey: bytes, recipient: Text, fulfiller: Text, hasHook: bool) {
    predicate IsFulfilled() { fulfiller != [] }
  }

  /** The arguments of a callback to the module below; only acknowledgements carry one. */
  datatype Call = Call(ptype: PacketType, packet: Packet, ack: bytes, relayer: bytes)

  /** What the model remembers of a run: packets put on hold with the callback they wait for, callbacks with whether
      the module below accepted the packet, and hooks. */
  datatype Event =
    | Saved(key: bytes, call: Call)
    | Delivered(side: Side, slot: Slot, rollapp: Option<Text>, height: u64, call: Call, accepted: bool)
    | HookRan(key: bytes)

  datatype State = State(
    packets: map<bytes, RollappPacket>,
    index: set<(Text, bytes)>,
    orders: map<(Status, bytes), Order>,
    ibc: Ibc,
    finalized: map<Text, u64>,
    log: seq<Event>)

  /** An acknowledgement written for a packet, and whether it is one of success. */
  datatype Acked = Acked(packet: Packet, ok: bool)

  /** The channel keeper's store: receipts and acknowledgements of received packets, commitments of sent ones;
      `sent` remembers each commitment as it was first made. */
  datatype Ibc = Ibc(receipts: set<Slot>, acks: map<Slot, Acked>,
                     commitments: map<Slot, Commitment>, sent: map<Slot, Commitment>)

  function SrcEnd(p: Packet): Endpoint { Endpoint(p.srcPort, p.srcChan) }
  function DstEnd(p: Packet): Endpoint { Endpoint(p.dstPort, p.dstChan) }

  /** PacketHubPortChan: the hub's end of the channel a packet travels on. */
  function HubEnd(t: PacketType, p: Packet): Endpoint { if IsSent(t) then SrcEnd(p) else DstEnd(p) }
  function SideOf(t: PacketType): Side { if IsSent(t) then Out else In }
  function SlotOf(t: PacketType, p: Packet): Slot { Slot(HubEnd(t, p), p.sequence) }

  // ---------------------------------------------------------------- packet store and address index

  function SetPacket(s: State, p: RollappPacket): State { s.(packets := s.packets[KeyOf(p) := p]) }

  function AddIndex(s: State, a: Text, k: bytes): State { s.(index := s.index + {(a, k)}) }

  function RemoveIndex(s: State, a: Text, k: bytes): State { s.(index := s.index - {(a, k)}) }

  function Log(s: State, e: Event): State { s.(log := s.log + [e]) }

  /** What a stored packet calls back with. */
  function CallOf(p: RollappPacket): Call {
    Call(p.ptype, p.packet, if p.ptype == OnAck then p.acknowledgement else [], p.relayer)
  }

  /** savePacket: index entry, then the packet. */
  function Save(s: State, p: RollappPacket): State
    requires p.packet.data.Parses()
  {
    Log(SetPacket(AddIndex(s, PayeeOf(p), KeyOf(p)), p), Saved(KeyOf(p), CallOf(p)))
  }

  /** UpdateRollappPacketTransferAddress. */
  function Retarget(s: State, key: bytes, to: Text): (r: Option<State>) {
    if key !in s.packets then None else
    var p := s.packets[key];
    if p.status != Pending || !p.packet.data.Parses() then None else
    var q := Redirect(p, to);
    Some(SetPacket(AddIndex(RemoveIndex(s, PayeeOf(p), key), to, KeyOf(q)), q))
  }

  /** AfterPacketStatusUpdated: the order follows its packet to the finalized side. */
  function FinalizeOrder(s: State, oldKey: bytes, newKey: bytes): State {
    if (Pending, oldKey) !in s.orders then s else
    var o := s.orders[(Pending, oldKey)].(trackingKey := newKey);
    s.(orders := (s.orders - {(Pending, oldKey)})[(Finalized, oldKey) := o])
  }

  /** UpdateRollappPacketAfterFinalization. */
  function MoveToFinalized(s: State, p: RollappPacket): (r: Option<State>) {
    if p.status != Pending || !p.packet.data.Parses() then None else
    var oldKey := KeyOf(p);
    var q := p.(status := Finalized);
    var s1 := if p.ptype == Undefined then s else RemoveIndex(s, PayeeOf(p), oldKey);
    var s2 := SetPacket(s1.(packets := s1.packets - {oldKey}), q);
    Some(FinalizeOrder(s2, oldKey, KeyOf(q)))
  }

  /** DeleteRollappPacket with the eIBC hook AfterPacketDeleted. */
  function Delete(s: State, p: RollappPacket): State
    requires p.packet.data.Parses()
  {
    var k := KeyOf(p);
    var id := KeyOf(p.(status := Pending));
    RemoveIndex(s, PayeeOf(p), k).(packets := s.packets - {k},
                                   orders := s.orders - {(Pending, id), (Finalized, id)})
  }

  // ---------------------------------------------------------------- receiving, acknowledging, timing out

  datatype AckOut = NoAck | SuccessAck | ErrorAck
  datatype AckForm = Unreadable | Result | Error
  datatype Market = Rejected | NoOrder | NewOrder(hasHook: bool)

  /** What the rest of the chain answers while a packet message is handled. */
  datatype Outcome = Outcome(ack: AckOut, callbackOk: bool, ackForm: AckForm, market: Market)

  predicate Blank(s: Text) { forall i :: 0 <= i < |s| ==> 9 <= s[i] <= 13 || s[i] == 32 }

  predicate ValidateBasic(x: Transfer) {
    x.amount.value.Some? && x.amount.value.value > 0 && !Blank(x.sender) && !Blank(x.receiver)
  }

  datatype ValidTransfer = Invalid | Plain | OfRollapp(rollapp: Text)

  /** GetValidTransfer: a valid transfer, and for which rollapp; rollapps transfer on their canonical channel only. */
  function GetValidTransfer(env: Env, d: Data, at: Endpoint): (v: ValidTransfer) {
    if !d.Parses() || !ValidateBasic(d.transfer) || at !in env.channels then Invalid
    else match env.channels[at].rollapp
      case None => Plain
      case Some(r) => if r in env.canonical && env.canonical[r] == at.chan then OfRollapp(r) else Invalid
  }

  /** An unknown rollapp has nothing finalized. */
  predicate Finalizable(heights: map<Text, u64>, r: Text, h: u64) { r in heights && h <= heights[r] }

  /** VerifyHeightFinalized. */
  predicate HeightFinalized(s: State, r: Text, h: u64) { Finalizable(s.finalized, r, h) }

  function NewPacket(r: Text, p: Packet, ack: bytes, h: u64, relayer: bytes, t: PacketType): (q: RollappPacket) {
    RollappPacket(r, p, ack, Pending, h, relayer, t, [], [])
  }

  /** EIBCDemandOrderHandler, once it has decided to create an order. */
  function AddOrder(s: State, p: RollappPacket, hasHook: bool): State
    requires p.packet.data.Parses()
  {
    s.(orders := s.orders[(Pending, KeyOf(p)) := Order(KeyOf(p), PayeeOf(p), [], hasHook)])
  }

  function DeliverNow(s: State, r: Option<Text>, h: u64, c: Call, accepted: bool): State {
    Log(s, Delivered(SideOf(c.ptype), SlotOf(c.ptype, c.packet), r, h, c, accepted))
  }

  /** The middleware's OnRecvPacket. */
  function OnRecvPacket(env: Env, s: State, p: Packet, h: u64, relayer: bytes, o: Outcome): (r: (State, AckOut)) {
    var call := Call(OnRecv, p, [], relayer);
    match GetValidTransfer(env, p.data, DstEnd(p))
    case Invalid => (s, ErrorAck)
    case Plain => (DeliverNow(s, None, h, call, o.ack != ErrorAck), o.ack)
    case OfRollapp(r) =>
      if HeightFinalized(s, r, h) then (DeliverNow(s, Some(r), h, call, o.ack != ErrorAck), o.ack)
      else if o.ack != SuccessAck then (s, ErrorAck)
      else
        var q := NewPacket(r, p, [], h, relayer, OnRecv);
        match o.market
        case Rejected => (Save(s, q), ErrorAck)
        case NoOrder => (Save(s, q), NoAck)
        case NewOrder(hook) => (AddOrder(Save(s, q), q, hook), NoAck)
  }

  /** The middleware's OnAcknowledgementPacket and OnTimeoutPacket; None is an error. */
  function OnOutcomePacket(env: Env, s: State, t: PacketType, p: Packet, ack: bytes, h: u64, relayer: bytes,
                           o: Outcome): (r: Option<State>)
    requires IsSent(t)
  {
    var sentAck := if t == OnAck then ack else [];
    var call := Call(t, p, sentAck, relayer);
    if t == OnAck && o.ackForm == Unreadable then None
    else match GetValidTransfer(env, p.data, SrcEnd(p))
      case Invalid => None
      case Plain => if o.callbackOk then Some(DeliverNow(s, None, h, call, true)) else None
      case OfRollapp(r) =>
        if !o.callbackOk then None
        else if HeightFinalized(s, r, h) then Some(DeliverNow(s, Some(r), h, call, true))
        else
          var q := NewPacket(r, p, sentAck, h, relayer, t);
          if t == OnAck && o.ackForm == Result then Some(Save(s, q))
          else match o.market
            case Rejected => None
            case NoOrder => Some(Save(s, q))
            case NewOrder(_) => Some(AddOrder(Save(s, q), q, false))
  }

  /** A failed transaction leaves nothing behind. */
  function Tx(s: State, r: Option<State>): State { if r.Some? then r.value else s }

  predicate Routed(env: Env, at: Endpoint, peer: Endpoint) {
    at in env.channels && env.channels[at].peer == peer
  }

  function WriteAck(s: State, slot: Slot, p: Packet, ok: bool): State {
    s.(ibc := s.ibc.(acks := s.ibc.acks[slot := Acked(p, ok)]))
  }

  function SetCommitment(s: State, slot: Slot, c: Commitment): State {
    s.(ibc := s.ibc.(commitments := s.ibc.commitments[slot := c]))
  }

  /** ICS-04 receive: a receipt admits a packet once; an error acknowledgement discards the callback's writes. */
  function RecvTx(env: Env, s: State, p: Packet, h: u64, relayer: bytes, o: Outcome): State {
    var slot := SlotOf(OnRecv, p);
    if !Routed(env, DstEnd(p), SrcEnd(p)) || slot in s.ibc.receipts then s else
    var s1 := s.(ibc := s.ibc.(receipts := s.ibc.receipts + {slot}));
    var (s2, ack) := OnRecvPacket(env, s1, p, h, relayer, o);
    var s3 := if ack == ErrorAck then s1 else s2;
    if ack == NoAck then s3
    else if slot in s3.ibc.acks then s
    else WriteAck(s3, slot, p, ack == SuccessAck)
  }

  /** ICS-04 acknowledge or time out: the commitment admits an outcome once. */
  function OutcomeTx(env: Env, s: State, t: PacketType, p: Packet, ack: bytes, h: u64, relayer: bytes,
                     o: Outcome): State
    requires IsSent(t)
  {
    var slot := SlotOf(t, p);
    if !Routed(env, SrcEnd(p), DstEnd(p)) || slot !in s.ibc.commitments then s
    else if s.ibc.commitments[slot] != CommitPacket(p) then s
    else
      var s1 := s.(ibc := s.ibc.(commitments := s.ibc.commitments - {slot}));
      Tx(s, OnOutcomePacket(env, s1, t, p, ack, h, relayer, o))
  }

  /** The hub's transfer module sends canonical data under a sequence it has not used. */
  function SendTx(env: Env, s: State, p: Packet): State {
    var slot := SlotOf(OnAck, p);
    if !Routed(env, SrcEnd(p), DstEnd(p)) || slot in s.ibc.sent || !p.data.Canonical? then s
    else SetCommitment(s.(ibc := s.ibc.(sent := s.ibc.sent[slot := CommitPacket(p)])), slot, CommitPacket(p))
  }

  // ---------------------------------------------------------------- fulfilment

  /** FulfillOrder: GetOutstandingOrder, the fulfilment, then AfterDemandOrderFulfilled with the completion hook
      ahead of the address update. */
  function Fulfill(s: State, id: bytes, fundsSource: Text, fulfiller: Text, hookOk: bool): (r: Option<State>) {
    if (Pending, id) !in s.orders || fulfiller == [] || fundsSource == [] then None else
    var o := s.orders[(Pending, id)];
    if o.IsFulfilled() || o.trackingKey !in s.packets then None else
    var p := s.packets[o.trackingKey];
    if HeightFinalized(s, p.rollappId, p.proofHeight) || (o.hasHook && !hookOk) then None else
    var s1 := s.(orders := s.orders[(Pending, id) := o.(fulfiller := fulfiller)]);
    var s2 := if o.hasHook then Log(s1, HookRan(o.trackingKey)) else s1;
    Retarget(s2, o.trackingKey, fundsSource)
  }

  // ---------------------------------------------------------------- finalization

  datatype Verdict = Verdict(ack: AckOut, channelFound: bool, ackAccepted: bool, callbackOk: bool, hookOk: bool,
                             errorText: Text)

  /** finalizeCompletionHook; the flag is false when the packet records an error. */
  function FinalizeHook(env: Env, s: State, p: RollappPacket, o: Verdict): (r: (State, bool)) {
    var id := KeyOf(p);
    if (Pending, id) !in s.orders || s.orders[(Pending, id)].IsFulfilled() || !s.orders[(Pending, id)].hasHook
    then (s, true)
    else if GetValidTransfer(env, p.packet.data, DstEnd(p.packet)).Invalid? then (s, false)
    else (Log(s, HookRan(id)), o.hookOk)
  }

  /** finalizeOnRecv. The middle result is the packet as the caller sees it afterwards: once the channel is found
      the shared IBC packet carries the original payee again, whether or not the acknowledgement was accepted. */
  function FinalizeOnRecv(env: Env, s: State, p: RollappPacket, o: Verdict): (r: (State, RollappPacket, bool))
    requires p.packet.data.Parses()
    ensures r.1.packet.data.Parses()
  {
    var s1 := DeliverNow(s, Some(p.rollappId), p.proofHeight, CallOf(p), o.ack != ErrorAck);
    if o.ack == NoAck then
      var (s2, ok) := FinalizeHook(env, s1, p, o);
      (s2, p, ok)
    else if !o.channelFound then (s1, p, false)
    else
      var q := Restore(p);
      var slot := SlotOf(OnRecv, q.packet);
      if slot in s1.ibc.acks || !o.ackAccepted then (s1, q, false)
      else
        var (s2, ok) := FinalizeHook(env, WriteAck(s1, slot, q.packet, o.ack == SuccessAck), q, o);
        (s2, q, ok)
  }

  /** The callback part of finalizeRollappPacket; what a failed callback wrote is discarded. */
  function FinalizeCallback(env: Env, s: State, p: RollappPacket, o: Verdict): (r: (State, RollappPacket, bool))
    requires p.packet.data.Parses()
    ensures r.1.packet.data.Parses()
  {
    match p.ptype
    case OnRecv => FinalizeOnRecv(env, s, p, o)
    case Undefined => (s, p, true)
    case _ => (DeliverNow(s, Some(p.rollappId), p.proofHeight, CallOf(p), o.callbackOk), p, o.callbackOk)
  }

  /** FinalizeRollappPacket; None is an error or a panic, which aborts the transaction. */
  function Finalize(env: Env, s: State, key: bytes, o: Verdict): (r: Option<State>) {
    if key !in s.packets then None else
    var p := s.packets[key];
    if !HeightFinalized(s, p.rollappId, p.proofHeight) || !p.packet.data.Parses() then None else
    var (s1, q, ok) := FinalizeCallback(env, s, p, o);
    MoveToFinalized(s1, if ok then q else q.(error := o.errorText))
  }

  // ---------------------------------------------------------------- hard fork

  const MAX_U64: u64 := U64_SIZE - 1

  /** The height a fork scan starts from, in 64-bit arithmetic. */
  function ForkFrom(lastValid: u64): u64 { (lastValid + 1) % U64_SIZE }

  /** Keys that PendingByRollappIDFromHeight selects. */
  function ForkKeys(s: State, r: Text, lastValid: u64): seq<bytes> {
    RangeKeys(s.packets.Keys, HeightPrefix(Pending, r, ForkFrom(lastValid)), Some(HeightPrefix(Pending, r, MAX_U64)))
  }

  /** One round of the loop of OnHardFork: reopen the packet's ICS-04 guard and drop the packet. For a sent packet
      the commitment is taken from the restored packet, and so is the index entry that is dropped. */
  function Revert(s: State, p: RollappPacket): State
    requires p.packet.data.Parses()
  {
    var slot := SlotOf(p.ptype, p.packet);
    if IsSent(p.ptype) then
      var q := Restore(p);
      Delete(SetCommitment(s, slot, CommitPacket(q.packet)), q)
    else Delete(s.(ibc := s.ibc.(receipts := s.ibc.receipts - {slot})), p)
  }

  function RevertAll(s: State, ps: seq<RollappPacket>): State
    requires AllParse(ps)
    decreases |ps|
  {
    if ps == [] then s else RevertAll(Revert(s, ps[0]), ps[1..])
  }

  function Lookup(m: map<bytes, RollappPacket>, ks: seq<bytes>): (ps: seq<RollappPacket>)
    requires forall k :: k in ks ==> k in m
    ensures |ps| == |ks|
    ensures forall i :: 0 <= i < |ks| ==> ps[i] == m[ks[i]]
  {
    if ks == [] then [] else [m[ks[0]]] + Lookup(m, ks[1..])
  }

  predicate AllParse(ps: seq<RollappPacket>) { forall i :: 0 <= i < |ps| ==> ps[i].packet.data.Parses() }

  /** OnHardFork; a packet whose data does not parse panics and aborts. */
  function HardFork(s: State, r: Text, lastValid: u64): (t: Option<State>) {
    var ps := Lookup(s.packets, ForkKeys(s, r, lastValid));
    if AllParse(ps) then Some(RevertAll(s, ps)) else None
  }

  // ---------------------------------------------------------------- epoch end

  const BATCH := 1000

  /** Keys of finalized packets in store order. */
  function FinalizedKeys(s: State): seq<bytes> {
    RangeKeys(s.packets.Keys, StatusPrefix(Finalized), PrefixEnd(StatusPrefix(Finalized)))
  }

  function DeleteAll(s: State, ps: seq<RollappPacket>): State
    requires AllParse(ps)
    decreases |ps|
  {
    if ps == [] then s else DeleteAll(Delete(s, ps[0]), ps[1..])
  }

  // ---------------------------------------------------------------- steps and runs

  datatype Step =
    | SendStep(p: Packet)
    | RecvStep(p: Packet, height: u64, relayer: bytes, outcome: Outcome)
    | AckStep(p: Packet, ack: bytes, height: u64, relayer: bytes, outcome: Outcome)
    | TimeoutStep(p: Packet, height: u64, relayer: bytes, outcome: Outcome)
    | FulfillStep(id: bytes, fundsSource: Text, fulfiller: Text, hookOk: bool)
    | FinalizeStep(key: bytes, verdict: Verdict)
    | ForkStep(rollapp: Text, lastValid: u64)
    | EpochStep(limit: int)
    | HeightStep(rollapp: Text, height: u64)

  /** The finalized height of a rollapp never falls. */
  function RaiseHeight(s: State, r: Text, h: u64): State {
    if r in s.finalized && h < s.finalized[r] then s else s.(finalized := s.finalized[r := h])
  }

  function FirstBatch(s: State): (ps: seq<RollappPacket>) {
    Lookup(s.packets, Take(FinalizedKeys(s), BATCH))
  }

  /** Rounds of the epoch loop under a deletion limit: it stops once the limit is reached, after a whole batch. */
  function RoundsFor(limit: int): (n: nat) {
    if limit <= BATCH then 1 else (limit + BATCH - 1) / BATCH
  }

  /** A number of rounds of the epoch loop: each deletes the first batch of finalized packets. */
  function EpochRounds(s: State, n: nat): (t: Option<State>)
    decreases n
  {
    var ps := FirstBatch(s);
    if n == 0 || ps == [] then Some(s)
    else if !AllParse(ps) then None
    else EpochRounds(DeleteAll(s, ps), n - 1)
  }

  function Apply(env: Env, s: State, step: Step): (t: State) {
    match step
    case SendStep(p) => SendTx(env, s, p)
    case RecvStep(p, h, relayer, o) => RecvTx(env, s, p, h, relayer, o)
    case AckStep(p, ack, h, relayer, o) => OutcomeTx(env, s, OnAck, p, ack, h, relayer, o)
    case TimeoutStep(p, h, relayer, o) => OutcomeTx(env, s, OnTimeout, p, [], h, relayer, o)
    case FulfillStep(id, src, who, ok) => Tx(s, Fulfill(s, id, src, who, ok))
    case FinalizeStep(key, v) => Tx(s, Finalize(env, s, key, v))
    case ForkStep(r, h) => Tx(s, HardFork(s, r, h))
    case EpochStep(limit) => Tx(s, EpochRounds(s, RoundsFor(limit)))
    case HeightStep(r, h) => RaiseHeight(s, r, h)
  }

  const GENESIS := State(map[], {}, map[], Ibc({}, map[], map[], map[]), map[], [])

  /** The state after a run of committed steps. */
  function Run(env: Env, steps: seq<Step>): (s: State) {
    if steps == [] then GENESIS
    else Apply(env, Run(env, steps[..|steps| - 1]), steps[|steps| - 1])
  }
}
