/** What each step does to the whole state, told field by field. */
module HubEffects {
  import opened Bytes
  import opened Packets
  import opened PacketKey
  import opened Hub
  import opened HubInvariant
  import opened HubRuns
  import opened HubSafety
  import opened HubIndex

  // ---------------------------------------------------------------- what a packet message must satisfy

  /** Something other than white space. */
  ghost predicate Visible(s: Text) { exists i :: 0 <= i < |s| && s[i] != 32 && !(9 <= s[i] <= 13) }

  /** A transfer of a positive amount between named parties, on a channel of the hub, which is the canonical one if it
      leads to a rollapp. */
  ghost predicate ValidOn(env: Env, d: Data, at: Endpoint) {
    && !d.Malformed? && (exists n :: n >= 1 && d.transfer.amount.value == Some(n))
    && Visible(d.transfer.sender) && Visible(d.transfer.receiver)
    && at in env.channels
    && (forall r :: env.channels[at].rollapp == Some(r) ==> r in env.canonical && env.canonical[r] == at.chan)
  }

  lemma ValidTransferIs(env: Env, d: Data, at: Endpoint)
    ensures GetValidTransfer(env, d, at).Invalid? <==> !ValidOn(env, d, at)
    ensures ValidOn(env, d, at) ==>
              GetValidTransfer(env, d, at) == match env.channels[at].rollapp
                                              case None => Plain
                                              case Some(r) => OfRollapp(r)
  {
    if d.Parses() {
      assert Blank(d.transfer.sender) <==> !Visible(d.transfer.sender);
      assert Blank(d.transfer.receiver) <==> !Visible(d.transfer.receiver);
      if d.transfer.amount.value.Some? { assert d.transfer.amount.value == Some(d.transfer.amount.value.value); }
    }
  }

  /** The packet left its counterparty by the peer of the hub's end, and ICS-04 has not consumed it. */
  predicate Admits(env: Env, ibc: Ibc, c: Call) {
    var src, dst := Endpoint(c.packet.srcPort, c.packet.srcChan), Endpoint(c.packet.dstPort, c.packet.dstChan);
    if c.ptype == OnRecv then
      dst in env.channels && env.channels[dst].peer == src && Slot(dst, c.packet.sequence) !in ibc.receipts
    else
      && src in env.channels && env.channels[src].peer == dst && Slot(src, c.packet.sequence) in ibc.commitments
      && ibc.commitments[Slot(src, c.packet.sequence)] == Commitment(c.packet.timeout, c.packet.data)
  }

  /** The rollapp has finalized no state as high as this. */
  predicate Waits(s: State, r: Option<Text>, h: u64) {
    r.Some? && (r.value !in s.finalized || s.finalized[r.value] < h)
  }

  lemma WaitsForRollapp(s: State, r: Option<Text>, h: u64)
    ensures Waits(s, r, h) ==> r.Some?
  {
  }

  // ---------------------------------------------------------------- what it can do

  function ConsumedSlot(c: Call): Slot {
    if c.ptype == OnRecv then Slot(Endpoint(c.packet.dstPort, c.packet.dstChan), c.packet.sequence)
    else Slot(Endpoint(c.packet.srcPort, c.packet.srcChan), c.packet.sequence)
  }

  /** ICS-04 has consumed this packet and no other; an acknowledgement may have been written for it. */
  ghost predicate ConsumedBy(a: Ibc, b: Ibc, c: Call, ack: Option<Acked>) {
    var slot := ConsumedSlot(c);
    && b.sent == a.sent
    && b.receipts == (if c.ptype == OnRecv then a.receipts + {slot} else a.receipts)
    && b.commitments == (if c.ptype == OnRecv then a.commitments else a.commitments - {slot})
    && b.acks == (if ack.Some? then a.acks[slot := ack.value] else a.acks)
  }

  /** The module below has taken the packet. */
  ghost predicate PassedOn(s: State, t: State, c: Call, r: Option<Text>, h: u64, ack: Option<Acked>) {
    && t == s.(ibc := t.ibc, log := t.log) && ConsumedBy(s.ibc, t.ibc, c, ack)
    && t.log == s.log + [Delivered(if c.ptype == OnRecv then In else Out, ConsumedSlot(c), r, h, c, true)]
  }

  /** Nothing has happened but the error acknowledgement. */
  ghost predicate TurnedAway(s: State, t: State, c: Call) {
    t == s.(ibc := t.ibc) && ConsumedBy(s.ibc, t.ibc, c, Some(Acked(c.packet, false)))
  }

  /** The record of a packet that waits. */
  function HeldRecord(c: Call, r: Text, h: u64): RollappPacket {
    RollappPacket(r, c.packet, c.ack, Pending, h, c.relayer, c.ptype, [], [])
  }

  function Beneficiary(c: Call): Text
    requires !c.packet.data.Malformed?
  {
    if c.ptype == OnRecv then c.packet.data.transfer.receiver else c.packet.data.transfer.sender
  }

  /** The packet waits under a new key, listed for its payee, with an open order for it or none. */
  ghost predicate PutOnHold(s: State, t: State, c: Call, r: Text, h: u64, order: Market)
    requires !c.packet.data.Malformed?
  {
    var k := KeyOf(HeldRecord(c, r, h));
    && k !in s.packets && ConsumedBy(s.ibc, t.ibc, c, None)
    && t == s.(packets := s.packets[k := HeldRecord(c, r, h)], index := s.index + {(Beneficiary(c), k)}, ibc := t.ibc,
               log := s.log + [Saved(k, c)], orders := t.orders)
    && t.orders == if order.NewOrder? then s.orders[(Pending, k) := Order(k, Beneficiary(c), [], order.hasHook)]
                   else s.orders
  }

  // ---------------------------------------------------------------- receiving

  lemma HoldIs(env: Env, s: State, s1: State, c: Call, r: Text, h: u64, hook: bool)
    requires ValidEnv(env) && Inv(env, s1) && Admitted(env, s1, c.ptype, c.packet)
    requires GetValidTransfer(env, c.packet.data, HubEnd(c.ptype, c.packet)) == OfRollapp(r)
    requires c.ptype != OnAck ==> c.ack == []
    requires s1 == s.(ibc := s1.ibc) && ConsumedBy(s.ibc, s1.ibc, c, None)
    ensures c.packet.data.Parses()
    ensures var q := NewPacket(r, c.packet, c.ack, h, c.relayer, c.ptype);
            && PutOnHold(s, Save(s1, q), c, r, h, NoOrder)
            && PutOnHold(s, AddOrder(Save(s1, q), q, hook), c, r, h, NewOrder(hook))
  {
    hide Inv, KeyOf, Admitted, ConsumedBy, GetValidTransfer;
    var q := NewPacket(r, c.packet, c.ack, h, c.relayer, c.ptype);
    HoldFacts(env, s1, c, r, q);
    assert q == HeldRecord(c, r, h) && CallOf(q) == c;
  }

  lemma HoldFacts(env: Env, s: State, c: Call, r: Text, q: RollappPacket)
    requires ValidEnv(env) && Inv(env, s) && Admitted(env, s, c.ptype, c.packet)
    requires GetValidTransfer(env, c.packet.data, HubEnd(c.ptype, c.packet)) == OfRollapp(r)
    requires q == NewPacket(r, c.packet, q.acknowledgement, q.proofHeight, q.relayer, c.ptype)
    ensures c.packet.data.Parses() && PayeeOf(q) == Beneficiary(c) && KeyOf(q) !in s.packets
  {
    NewPacketIsFresh(env, s, c.ptype, c.packet, q, r);
    FreeKey(env, s.packets, q);
  }

  /** Its receipt is all that is there when the middleware sees an admitted packet. */
  function Receipted(s: State, c: Call): State {
    s.(ibc := s.ibc.(receipts := s.ibc.receipts + {SlotOf(OnRecv, c.packet)}))
  }

  lemma ReceiptedFacts(env: Env, s: State, c: Call)
    requires Inv(env, s) && c.ptype == OnRecv && Admits(env, s.ibc, c)
    ensures Inv(env, Receipted(s, c)) && Admitted(env, Receipted(s, c), OnRecv, c.packet)
    ensures SlotOf(OnRecv, c.packet) !in s.ibc.acks && ConsumedBy(s.ibc, Receipted(s, c).ibc, c, None)
  {
    hide Inv;
    var slot := SlotOf(OnRecv, c.packet);
    AckFacts(env, s, slot);
    OpenIsUnseen(env, s, In, slot);
    NarrowKeepsInv(env, s, Receipted(s, c).ibc);
  }

  lemma ReceivedWaits(env: Env, s: State, c: Call, r: Text, h: u64, o: Outcome)
    requires ValidEnv(env) && Inv(env, s) && c.ptype == OnRecv && c.ack == [] && Admits(env, s.ibc, c)
    requires GetValidTransfer(env, c.packet.data, DstEnd(c.packet)) == OfRollapp(r) && Waits(s, Some(r), h)
    ensures var t := Apply(env, s, RecvStep(c.packet, h, c.relayer, o));
            && c.packet.data.Parses()
            && if o.ack != SuccessAck || o.market == Rejected then TurnedAway(s, t, c)
               else PutOnHold(s, t, c, r, h, o.market)
  {
    hide Inv, PutOnHold, KeyOf, GetValidTransfer, Admitted, Save, AddOrder, ConsumedBy, TurnedAway;
    ReceiptedFacts(env, s, c);
    if o.ack != SuccessAck || o.market == Rejected { ReceivedRefused(env, s, c, r, h, o); }
    HoldIs(env, s, Receipted(s, c), c, r, h, o.market.NewOrder? && o.market.hasHook);
  }

  lemma ReceivedRefused(env: Env, s: State, c: Call, r: Text, h: u64, o: Outcome)
    requires Inv(env, s) && c.ptype == OnRecv && Admits(env, s.ibc, c)
    requires GetValidTransfer(env, c.packet.data, DstEnd(c.packet)) == OfRollapp(r) && Waits(s, Some(r), h)
    requires o.ack != SuccessAck || o.market == Rejected
    ensures TurnedAway(s, Apply(env, s, RecvStep(c.packet, h, c.relayer, o)), c)
  {
    hide Inv, KeyOf, GetValidTransfer, Admitted, Save, AddOrder;
    ReceiptedFacts(env, s, c);
  }

  lemma ReceivedNow(env: Env, s: State, c: Call, h: u64, o: Outcome)
    requires Inv(env, s) && c.ptype == OnRecv && c.ack == [] && Admits(env, s.ibc, c)
    ensures var t := Apply(env, s, RecvStep(c.packet, h, c.relayer, o));
            match GetValidTransfer(env, c.packet.data, DstEnd(c.packet))
            case Invalid => TurnedAway(s, t, c)
            case Plain => ReceivedBy(s, t, c, None, h, o.ack)
            case OfRollapp(r) => Waits(s, Some(r), h) || ReceivedBy(s, t, c, Some(r), h, o.ack)
  {
    hide Inv, KeyOf, GetValidTransfer, Admitted, Save, AddOrder;
    ReceiptedFacts(env, s, c);
  }

  /** The module below answers for the packet. */
  ghost predicate ReceivedBy(s: State, t: State, c: Call, r: Option<Text>, h: u64, ack: AckOut) {
    match ack
    case ErrorAck => TurnedAway(s, t, c)
    case SuccessAck => PassedOn(s, t, c, r, h, Some(Acked(c.packet, true)))
    case NoAck => PassedOn(s, t, c, r, h, None)
  }

  /** A received packet that ICS-04 does not admit changes nothing. One that is not a valid transfer, or that the module
      below or the market refuses, gets an error acknowledgement and nothing else. Any other is passed on if it is not
      from a rollapp or its height is final, and put on hold if it is not. */
  lemma ReceiveExactly(env: Env, s: State, c: Call, h: u64, o: Outcome)
    requires ValidEnv(env) && Inv(env, s) && c.ptype == OnRecv && c.ack == []
    ensures var t := Apply(env, s, RecvStep(c.packet, h, c.relayer, o));
            var at := Endpoint(c.packet.dstPort, c.packet.dstChan);
            if !Admits(env, s.ibc, c) then t == s
            else if !ValidOn(env, c.packet.data, at) then TurnedAway(s, t, c)
            else if !Waits(s, env.channels[at].rollapp, h) then ReceivedBy(s, t, c, env.channels[at].rollapp, h, o.ack)
            else if o.ack != SuccessAck || o.market == Rejected then TurnedAway(s, t, c)
            else PutOnHold(s, t, c, env.channels[at].rollapp.value, h, o.market)
  {
    hide Inv, PutOnHold, TurnedAway, ReceivedBy, GetValidTransfer, ValidOn;
    var at := DstEnd(c.packet);
    ValidTransferIs(env, c.packet.data, at);
    ValidParses(env, c.packet.data, at);
    if Admits(env, s.ibc, c) {
      ReceivedNow(env, s, c, h, o);
      if ValidOn(env, c.packet.data, at) && Waits(s, env.channels[at].rollapp, h) {
        ReceivedWaits(env, s, c, env.channels[at].rollapp.value, h, o);
      }
    } else {
      hide OnRecvPacket;
    }
  }

  lemma ValidParses(env: Env, d: Data, at: Endpoint)
    ensures ValidOn(env, d, at) ==> d.Parses() && at in env.channels
  {
  }

  // ---------------------------------------------------------------- acknowledging and timing out

  /** The commitment is gone when the middleware sees an admitted outcome. */
  function Uncommitted(s: State, c: Call): State {
    s.(ibc := s.ibc.(commitments := s.ibc.commitments - {SlotOf(c.ptype, c.packet)}))
  }

  lemma UncommittedFacts(env: Env, s: State, c: Call)
    requires Inv(env, s) && IsSent(c.ptype) && Admits(env, s.ibc, c)
    ensures Inv(env, Uncommitted(s, c)) && Admitted(env, Uncommitted(s, c), c.ptype, c.packet)
    ensures ConsumedBy(s.ibc, Uncommitted(s, c).ibc, c, None)
  {
    hide Inv;
    var slot := SlotOf(c.ptype, c.packet);
    CommitmentFacts(env, s, slot);
    OpenIsUnseen(env, s, Out, slot);
    NarrowKeepsInv(env, s, Uncommitted(s, c).ibc);
  }

  function OutcomeStep(c: Call, h: u64, o: Outcome): Step
    requires IsSent(c.ptype)
  {
    if c.ptype == OnAck then AckStep(c.packet, c.ack, h, c.relayer, o) else TimeoutStep(c.packet, h, c.relayer, o)
  }

  /** The market is asked about error acknowledgements and timeouts. */
  predicate AsksMarket(c: Call, o: Outcome) { c.ptype == OnTimeout || o.ackForm == AckForm.Error }

  lemma OutcomeWaits(env: Env, s: State, c: Call, r: Text, h: u64, o: Outcome)
    requires ValidEnv(env) && Inv(env, s) && IsSent(c.ptype) && (c.ptype == OnTimeout ==> c.ack == [])
    requires GetValidTransfer(env, c.packet.data, SrcEnd(c.packet)) == OfRollapp(r) && Waits(s, Some(r), h)
    requires Admits(env, s.ibc, c) && o.callbackOk && !(c.ptype == OnAck && o.ackForm == Unreadable)
    ensures var t := Apply(env, s, OutcomeStep(c, h, o));
            && c.packet.data.Parses()
            && if !AsksMarket(c, o) then PutOnHold(s, t, c, r, h, NoOrder)
               else match o.market
                 case Rejected => t == s
                 case NoOrder => PutOnHold(s, t, c, r, h, NoOrder)
                 case NewOrder(_) => PutOnHold(s, t, c, r, h, NewOrder(false))
  {
    hide Inv, PutOnHold, KeyOf, GetValidTransfer, Admitted, Save, AddOrder;
    UncommittedFacts(env, s, c);
    HoldIs(env, s, Uncommitted(s, c), c, r, h, false);
  }

  lemma OutcomeNow(env: Env, s: State, c: Call, h: u64, o: Outcome)
    requires Inv(env, s) && IsSent(c.ptype) && (c.ptype == OnTimeout ==> c.ack == []) && Admits(env, s.ibc, c)
    ensures var t := Apply(env, s, OutcomeStep(c, h, o));
            if !o.callbackOk || (c.ptype == OnAck && o.ackForm == Unreadable) then t == s
            else match GetValidTransfer(env, c.packet.data, SrcEnd(c.packet))
              case Invalid => t == s
              case Plain => PassedOn(s, t, c, None, h, None)
              case OfRollapp(r) => Waits(s, Some(r), h) || PassedOn(s, t, c, Some(r), h, None)
  {
    hide Inv, KeyOf, GetValidTransfer, Admitted, Save, AddOrder;
    UncommittedFacts(env, s, c);
  }

  /** An outcome that ICS-04 does not admit, that cannot be read, is not of a valid transfer, or that the module below
      or the market refuses, changes nothing. Any other is passed on if it is not from a rollapp or its height is final,
      and put on hold if it is not, with its acknowledgement; an order can come of it unless it reports success. */
  lemma OutcomeExactly(env: Env, s: State, c: Call, h: u64, o: Outcome)
    requires ValidEnv(env) && Inv(env, s) && IsSent(c.ptype) && (c.ptype == OnTimeout ==> c.ack == [])
    ensures var t, at := Apply(env, s, OutcomeStep(c, h, o)), Endpoint(c.packet.srcPort, c.packet.srcChan);
            if !Admits(env, s.ibc, c) || !ValidOn(env, c.packet.data, at) then t == s
            else if !o.callbackOk || (c.ptype == OnAck && o.ackForm == Unreadable) then t == s
            else if !Waits(s, env.channels[at].rollapp, h) then PassedOn(s, t, c, env.channels[at].rollapp, h, None)
            else if !AsksMarket(c, o) then PutOnHold(s, t, c, env.channels[at].rollapp.value, h, NoOrder)
            else match o.market
              case Rejected => t == s
              case NoOrder => PutOnHold(s, t, c, env.channels[at].rollapp.value, h, NoOrder)
              case NewOrder(_) => PutOnHold(s, t, c, env.channels[at].rollapp.value, h, NewOrder(false))
  {
    hide Inv, PutOnHold, PassedOn, GetValidTransfer, ValidOn, OnOutcomePacket;
    var at := SrcEnd(c.packet);
    ValidTransferIs(env, c.packet.data, at);
    ValidParses(env, c.packet.data, at);
    if Admits(env, s.ibc, c) {
      OutcomeNow(env, s, c, h, o);
      if ValidOn(env, c.packet.data, at) && Waits(s, env.channels[at].rollapp, h)
         && o.callbackOk && !(c.ptype == OnAck && o.ackForm == Unreadable) {
        OutcomeWaits(env, s, c, env.channels[at].rollapp.value, h, o);
      }
    }
  }

  // ---------------------------------------------------------------- sending, and finalized heights

  /** The first packet of canonical data under a sequence leaves its commitment; anything else is not sent. */
  lemma SendExactly(env: Env, s: State, p: Packet)
    ensures var t, src := Apply(env, s, SendStep(p)), Endpoint(p.srcPort, p.srcChan);
            var slot, c := Slot(src, p.sequence), Commitment(p.timeout, p.data);
            if src in env.channels && env.channels[src].peer == Endpoint(p.dstPort, p.dstChan)
               && slot !in s.ibc.sent && p.data.Canonical?
            then t == s.(ibc := s.ibc.(sent := s.ibc.sent[slot := c], commitments := s.ibc.commitments[slot := c]))
            else t == s
  {
  }

  /** The rollapp's finalized height is the larger of the two, and nothing else changes. */
  lemma HeightExactly(env: Env, s: State, r: Text, h: u64)
    ensures var t := Apply(env, s, HeightStep(r, h));
            && t == s.(finalized := t.finalized) && t.finalized.Keys == s.finalized.Keys + {r}
            && (forall x :: x in s.finalized && x != r ==> t.finalized[x] == s.finalized[x])
            && t.finalized[r] == if r in s.finalized && s.finalized[r] > h then s.finalized[r] else h
  {
  }

  // ---------------------------------------------------------------- fulfilment

  function Payer(t: PacketType, x: Transfer, to: Text): Transfer {
    if t == OnRecv then x.(receiver := to) else x.(sender := to)
  }

  /** An open order of a packet that waits, bought by somebody, whose completion hook does not fail. */
  predicate CanFulfil(s: State, id: bytes, src: Text, who: Text, hookOk: bool) {
    && src != [] && who != [] && (Pending, id) in s.orders && s.orders[(Pending, id)].fulfiller == []
    && (s.orders[(Pending, id)].hasHook ==> hookOk)
    && id in s.packets && Waits(s, Some(s.packets[id].rollappId), s.packets[id].proofHeight)
  }

  /** The source of funds is the payee now, and the order remembers who fulfilled it. */
  ghost predicate Bought(s: State, t: State, id: bytes, src: Text, who: Text)
    requires id in s.packets && !s.packets[id].packet.data.Malformed? && (Pending, id) in s.orders
  {
    var p, o := s.packets[id], s.orders[(Pending, id)];
    var payee := Beneficiary(CallOf(p));
    var data := Canonical(Payer(p.ptype, p.packet.data.transfer, src));
    && t == s.(packets := s.packets[id := p.(packet := p.packet.(data := data), originalTarget := payee)],
               index := s.index - {(payee, id)} + {(src, id)},
               orders := s.orders[(Pending, id) := o.(fulfiller := who)],
               log := if o.hasHook then s.log + [HookRan(id)] else s.log)
  }

  /** A fulfilment either changes nothing, or is of an open order and does all this. */
  lemma FulfillExactly(env: Env, s: State, id: bytes, src: Text, who: Text, hookOk: bool)
    requires Inv(env, s)
    ensures (Pending, id) in s.orders ==> id in s.packets && !s.packets[id].packet.data.Malformed?
    ensures var t := Apply(env, s, FulfillStep(id, src, who, hookOk));
            if CanFulfil(s, id, src, who, hookOk) then Bought(s, t, id, src, who) else t == s
  {
    hide Inv, KeyOf;
    if (Pending, id) in s.orders {
      OrderFacts(env, s, id);
      RedirectKeepsKey(s.packets[id], src);
    }
  }

  // ---------------------------------------------------------------- finalization

  /** The callback's acknowledgement is tried, and the payee named first is back in the packet. */
  predicate TriesAck(p: RollappPacket, v: Verdict) { p.ptype == OnRecv && v.ack != NoAck && v.channelFound }

  /** The order of an incoming packet is open, has a hook, and nothing failed before it. */
  predicate ReachesHook(s: State, p: RollappPacket, key: bytes, v: Verdict) {
    && p.ptype == OnRecv && (v.ack == NoAck || (v.channelFound && v.ackAccepted))
    && (Pending, key) in s.orders && s.orders[(Pending, key)].fulfiller == [] && s.orders[(Pending, key)].hasHook
  }

  /** Callback, acknowledgement and hook all went well. */
  ghost predicate WentWell(env: Env, s: State, p: RollappPacket, key: bytes, v: Verdict) {
    if p.ptype != OnRecv then v.callbackOk
    else
      && (v.ack == NoAck || (v.channelFound && v.ackAccepted))
      && (ReachesHook(s, p, key, v) ==> v.hookOk && ValidOn(env, p.packet.data, DstEnd(p.packet)))
  }

  /** The packet as it is stored in the end. */
  ghost function FinalRecord(env: Env, s: State, p: RollappPacket, key: bytes, v: Verdict): RollappPacket
    requires !p.packet.data.Malformed?
  {
    var data := if TriesAck(p, v) && p.originalTarget != []
                then Canonical(Payer(p.ptype, p.packet.data.transfer, p.originalTarget)) else p.packet.data;
    p.(status := Finalized, packet := p.packet.(data := data),
       error := if WentWell(env, s, p, key, v) then [] else v.errorText)
  }

  /** The packet has been called back for and is stored as finalized, and its order goes with it. */
  ghost predicate Settled(env: Env, s: State, t: State, key: bytes, v: Verdict)
    requires key in s.packets && !s.packets[key].packet.data.Malformed?
  {
    var p := s.packets[key];
    var q := FinalRecord(env, s, p, key, v);
    var fk, slot := KeyOf(q), ConsumedSlot(CallOf(p));
    var called := Delivered(if p.ptype == OnRecv then In else Out, slot, Some(p.rollappId), p.proofHeight,
                            Call(p.ptype, p.packet, if p.ptype == OnAck then p.acknowledgement else [], p.relayer),
                            if p.ptype == OnRecv then v.ack != ErrorAck else v.callbackOk);
    var ran := ReachesHook(s, p, key, v) && ValidOn(env, p.packet.data, DstEnd(p.packet));
    && fk !in s.packets && t.packets == (s.packets - {key})[fk := q]
    && t.index == s.index - {(Beneficiary(CallOf(q)), key)}
    && t.orders == (if (Pending, key) !in s.orders then s.orders
                    else (s.orders - {(Pending, key)})
                         [(Finalized, key) := s.orders[(Pending, key)].(trackingKey := fk)])
    && t.ibc == s.ibc.(acks := if TriesAck(p, v) && v.ackAccepted
                               then s.ibc.acks[slot := Acked(q.packet, v.ack == SuccessAck)] else s.ibc.acks)
    && t.log == s.log + [called] + (if ran then [HookRan(key)] else [])
    && t.finalized == s.finalized
  }

  lemma HookIs(env: Env, s: State, p: RollappPacket, v: Verdict)
    ensures var (t, ok) := FinalizeHook(env, s, p, v);
            var open := OpenHook(s.orders, KeyOf(p));
            var valid := ValidOn(env, p.packet.data, DstEnd(p.packet));
            && t == s.(log := s.log + if open && valid then [HookRan(KeyOf(p))] else [])
            && (ok <==> (open ==> valid && v.hookOk))
  {
    ValidTransferIs(env, p.packet.data, DstEnd(p.packet));
    hide KeyOf, ValidOn, GetValidTransfer;
    assert s.log + [] == s.log;
  }

  lemma RecvCallbackIs(env: Env, s: State, p: RollappPacket, v: Verdict)
    requires p.packet.data.Parses() && p.ptype == OnRecv && p.status == Pending && p.error == []
    requires SlotFor(p) !in s.ibc.acks
    requires OpenHook(s.orders, KeyOf(p)) ==> p.originalTarget == []
    ensures var (t, q, ok) := FinalizeCallback(env, s, p, v);
            var f := FinalRecord(env, s, p, KeyOf(p), v);
            var ran := ReachesHook(s, p, KeyOf(p), v) && ValidOn(env, p.packet.data, DstEnd(p.packet));
            && (ok <==> WentWell(env, s, p, KeyOf(p), v))
            && q == f.(status := Pending, error := [])
            && t == s.(log := t.log, ibc := t.ibc)
            && t.ibc == s.ibc.(acks := if TriesAck(p, v) && v.ackAccepted
                                       then s.ibc.acks[SlotFor(p) := Acked(q.packet, v.ack == SuccessAck)]
                                       else s.ibc.acks)
            && t.log == s.log + [DeliveryOf(p, Accepted(p, v))] + (if ran then [HookRan(KeyOf(p))] else [])
  {
    hide KeyOf, FinalizeHook, ValidOn;
    var d := DeliveryOf(p, Accepted(p, v));
    assert s.log + [d] == s.log + [d] + [];
    var q := Restore(p);
    var s1 := DeliverNow(s, Some(p.rollappId), p.proofHeight, CallOf(p), v.ack != ErrorAck);
    HookIs(env, s1, p, v);
    HookIs(env, WriteAck(s1, SlotFor(p), q.packet, v.ack == SuccessAck), q, v);
    RedirectKeepsKey(p, []);
  }

  lemma CallbackIs(env: Env, s: State, p: RollappPacket, v: Verdict)
    requires p.packet.data.Parses() && p.ptype != Undefined && p.status == Pending && p.error == []
    requires p.ptype == OnRecv ==> SlotFor(p) !in s.ibc.acks
    requires OpenHook(s.orders, KeyOf(p)) ==> p.originalTarget == []
    ensures var (t, q, ok) := FinalizeCallback(env, s, p, v);
            var f := FinalRecord(env, s, p, KeyOf(p), v);
            var ran := ReachesHook(s, p, KeyOf(p), v) && ValidOn(env, p.packet.data, DstEnd(p.packet));
            && (ok <==> WentWell(env, s, p, KeyOf(p), v))
            && q == f.(status := Pending, error := [])
            && t == s.(log := t.log, ibc := t.ibc)
            && t.ibc == s.ibc.(acks := if TriesAck(p, v) && v.ackAccepted
                                       then s.ibc.acks[SlotFor(p) := Acked(q.packet, v.ack == SuccessAck)]
                                       else s.ibc.acks)
            && t.log == s.log + [DeliveryOf(p, Accepted(p, v))] + (if ran then [HookRan(KeyOf(p))] else [])
  {
    hide KeyOf, FinalizeOnRecv, ValidOn;
    if p.ptype == OnRecv {
      RecvCallbackIs(env, s, p, v);
    } else {
      assert s.log + [DeliveryOf(p, v.callbackOk)] == s.log + [DeliveryOf(p, v.callbackOk)] + [];
    }
  }

  lemma MoveIs(s: State, f: RollappPacket)
    requires f.status == Pending && f.packet.data.Parses() && f.ptype != Undefined
    ensures var t, k, q := MoveToFinalized(s, f), KeyOf(f), f.(status := Finalized);
            && t.Some?
            && t.value == s.(packets := (s.packets - {k})[KeyOf(q) := q], index := s.index - {(PayeeOf(f), k)},
                             orders := if (Pending, k) !in s.orders then s.orders
                                       else (s.orders - {(Pending, k)})
                                            [(Finalized, k) := s.orders[(Pending, k)].(trackingKey := KeyOf(q))])
  {
    hide KeyOf;
  }

  /** The finalized record takes a key of its own, and the packet keeps its slot. */
  lemma FinalFacts(env: Env, s: State, key: bytes, v: Verdict)
    requires ValidEnv(env) && Inv(env, s) && IsPending(s.packets, key)
    ensures KeyOf(s.packets[key]) == key && PacketOk(env, s.packets[key]) && s.packets[key].error == []
    ensures OpenHook(s.orders, key) ==> s.packets[key].originalTarget == []
    ensures s.packets[key].ptype == OnRecv ==> SlotFor(s.packets[key]) !in s.ibc.acks
    ensures var f := FinalRecord(env, s, s.packets[key], key, v);
            && KeyOf(f.(status := Pending)) == key && KeyOf(f) !in s.packets
            && f.packet.data.Parses() && f.ptype != Undefined
  {
    hide Inv, KeyOf, FinalizeCallback, WentWell;
    StoredFacts(env, s, key);
    PendingOrigin(env, s, key);
    StoreParts(env, s);
    var p := s.packets[key];
    var f := FinalRecord(env, s, p, key, v);
    hide Keyed, AllOk, Alone, FromSent;
    FinalKeyIsFree(env, s.packets, key, f.(status := Pending));
    assert f == f.(status := Pending).(status := Finalized);
  }

  lemma FinalizeSettled(env: Env, s: State, key: bytes, v: Verdict)
    requires ValidEnv(env) && Inv(env, s) && IsPending(s.packets, key) && s.packets[key].packet.data.Parses()
    requires !Waits(s, Some(s.packets[key].rollappId), s.packets[key].proofHeight)
    ensures Settled(env, s, Apply(env, s, FinalizeStep(key, v)), key, v)
  {
    hide Inv, FinalizeCallback, MoveToFinalized, ValidOn, KeyOf, WentWell, FinalRecord, TriesAck, ReachesHook, Apply;
    var p := s.packets[key];
    FinalizeUnfolds(env, s, key, v);
    FinalFacts(env, s, key, v);
    CallbackIs(env, s, p, v);
    var (s1, q, ok) := FinalizeCallback(env, s, p, v);
    var f := if ok then q else q.(error := v.errorText);
    RecordParts(env, s, p, key, v);
    assert f.(status := Finalized) == FinalRecord(env, s, p, key, v);
    assert f == FinalRecord(env, s, p, key, v).(status := Pending);
    MoveIs(s1, f);
  }

  lemma FinalizeUnfolds(env: Env, s: State, key: bytes, v: Verdict)
    requires key in s.packets && s.packets[key].packet.data.Parses()
    requires !Waits(s, Some(s.packets[key].rollappId), s.packets[key].proofHeight)
    ensures var (s1, q, ok) := FinalizeCallback(env, s, s.packets[key], v);
            Apply(env, s, FinalizeStep(key, v)) ==
              Tx(s, MoveToFinalized(s1, if ok then q else q.(error := v.errorText)))
  {
    hide FinalizeCallback, MoveToFinalized;
  }

  lemma RecordParts(env: Env, s: State, p: RollappPacket, key: bytes, v: Verdict)
    requires p.packet.data.Parses() && p.ptype != Undefined
    ensures var f := FinalRecord(env, s, p, key, v);
            && f.status == Finalized && f.error == (if WentWell(env, s, p, key, v) then [] else v.errorText)
            && f.ptype == p.ptype && f.packet == p.packet.(data := f.packet.data)
            && f.packet.data.Parses() && PayeeOf(f) == Beneficiary(CallOf(f))
  {
  }

  /** Finalization changes nothing unless a pending packet of a final height is named; then it is settled. */
  lemma FinalizeExactly(env: Env, s: State, key: bytes, v: Verdict)
    requires ValidEnv(env) && Inv(env, s)
    ensures key in s.packets ==> !s.packets[key].packet.data.Malformed?
    ensures var t := Apply(env, s, FinalizeStep(key, v));
            if key in s.packets && s.packets[key].status == Pending
               && !Waits(s, Some(s.packets[key].rollappId), s.packets[key].proofHeight)
            then Settled(env, s, t, key, v) else t == s
  {
    hide Inv, FinalizeCallback, MoveToFinalized, Settled, KeyOf;
    if key in s.packets { StoredFacts(env, s, key); }
    if !IsPending(s.packets, key) {
      ReplayAborts(env, s, key, v);
    } else if !Waits(s, Some(s.packets[key].rollappId), s.packets[key].proofHeight) {
      FinalizeSettled(env, s, key, v);
    }
  }
}
