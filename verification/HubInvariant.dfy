/** What every committed step keeps, field by field, and how single changes of the state keep it. */
module HubInvariant {
  import opened Bytes
  import opened Packets
  import opened PacketKey
  import opened Hub

  type Store = map<bytes, RollappPacket>
  type Orders = map<(Status, bytes), Order>

  // ---------------------------------------------------------------- reading the log

  /** Hook runs for a key since a packet was last put on hold under it. */
  function HookRuns(log: seq<Event>, k: bytes): (n: nat) {
    if log == [] then 0 else
    var e := log[|log| - 1];
    if e.Saved? && e.key == k then 0
    else HookRuns(log[..|log| - 1], k) + (if e == HookRan(k) then 1 else 0)
  }

  /** The callback that the packet last put on hold under a key waits for. */
  function LastSaved(log: seq<Event>, k: bytes): (c: Option<Call>) {
    if log == [] then None else
    var e := log[|log| - 1];
    if e.Saved? && e.key == k then Some(e.call) else LastSaved(log[..|log| - 1], k)
  }

  lemma Snoc(log: seq<Event>, e: Event, k: bytes)
    ensures HookRuns(log + [e], k) == if e.Saved? && e.key == k then 0
                                      else HookRuns(log, k) + if e == HookRan(k) then 1 else 0
    ensures LastSaved(log + [e], k) == if e.Saved? && e.key == k then Some(e.call) else LastSaved(log, k)
  {
    assert (log + [e])[..|log|] == log;
  }

  predicate Touches(e: Event, side: Side, slot: Slot) { e.Delivered? && e.side == side && e.slot == slot }

  /** No callback was made for this packet yet. */
  ghost predicate Untouched(log: seq<Event>, side: Side, slot: Slot) {
    forall i :: 0 <= i < |log| ==> !Touches(log[i], side, slot)
  }

  // ---------------------------------------------------------------- the invariant

  ghost predicate IsPending(m: Store, k: bytes) { k in m && m[k].status == Pending }

  function SlotFor(p: RollappPacket): Slot { SlotOf(p.ptype, p.packet) }

  /** ICS-04 no longer admits this packet: received already, or sent and its outcome consumed. */
  predicate Closed(ibc: Ibc, side: Side, slot: Slot) {
    match side
    case In => slot in ibc.receipts
    case Out => slot in ibc.sent && slot !in ibc.commitments
  }

  predicate PacketOk(env: Env, p: RollappPacket) {
    var at := HubEnd(p.ptype, p.packet);
    && p.ptype != Undefined
    && p.packet.data.Parses()
    && PayeeOf(p) != []
    && Routed(env, at, if IsSent(p.ptype) then DstEnd(p.packet) else SrcEnd(p.packet))
    && env.channels[at].rollapp == Some(p.rollappId)
    && p.rollappId in env.canonical && env.canonical[p.rollappId] == at.chan
  }

  predicate SameSlot(p: RollappPacket, q: RollappPacket) {
    SideOf(p.ptype) == SideOf(q.ptype) && SlotFor(p) == SlotFor(q)
  }

  /** Each stored packet sits under the key recomputed from its own fields. */
  ghost predicate Keyed(m: Store) { forall k :: k in m ==> KeyOf(m[k]) == k }

  ghost predicate AllOk(env: Env, m: Store) { forall k :: k in m ==> PacketOk(env, m[k]) }

  /** A pending packet is the only one for its channel slot. */
  ghost predicate Alone(m: Store) {
    forall k, l :: IsPending(m, k) && l in m && SameSlot(m[k], m[l]) ==> k == l
  }

  /** ICS-04 does not admit a stored packet again. */
  ghost predicate Guarded(m: Store, ibc: Ibc) {
    forall k :: k in m ==> Closed(ibc, SideOf(m[k].ptype), SlotFor(m[k]))
  }

  /** A pending packet is not delivered yet. */
  ghost predicate Waiting(m: Store, log: seq<Event>) {
    forall k :: IsPending(m, k) ==> Untouched(log, SideOf(m[k].ptype), SlotFor(m[k]))
  }

  /** ICS-04 does not admit a delivered packet again. */
  ghost predicate Consumed(log: seq<Event>, ibc: Ibc) {
    forall i :: 0 <= i < |log| && log[i].Delivered? ==> Closed(ibc, log[i].side, log[i].slot)
  }

  /** A callback is made at most once per packet. */
  ghost predicate Once(log: seq<Event>) {
    forall i, j :: 0 <= i < j < |log| && log[i].Delivered? ==> !Touches(log[j], log[i].side, log[i].slot)
  }

  /** No callback of a rollapp is made above its finalized height ... */
  ghost predicate DeliveredLate(log: seq<Event>, heights: map<Text, u64>) {
    forall i :: 0 <= i < |log| && log[i].Delivered? && log[i].rollapp.Some? ==>
      Finalizable(heights, log[i].rollapp.value, log[i].height)
  }

  /** ... and no packet is finalized above it. */
  ghost predicate FinalizedLate(m: Store, heights: map<Text, u64>) {
    forall k :: k in m && m[k].status == Finalized ==> Finalizable(heights, m[k].rollappId, m[k].proofHeight)
  }

  /** Commitments are the ones first made, of canonical data. */
  ghost predicate Committed(ibc: Ibc) {
    && (forall c :: c in ibc.sent ==> ibc.sent[c].data.Canonical?)
    && (forall c :: c in ibc.commitments ==> c in ibc.sent && ibc.commitments[c] == ibc.sent[c])
  }

  predicate SameUpToSpelling(a: Packet, b: Packet) {
    a.data.Parses() && b.data.Parses() && a.data.transfer == b.data.transfer && a == b.(data := a.data)
  }

  /** A packet without an error, that calls back with the acknowledgement and relayer it was put on hold with, and that
      can be brought back to what the hub first received ... */
  predicate FromReceived(p: RollappPacket, first: Option<Call>) {
    && p.packet.data.Parses()
    && first.Some?
    && CallOf(p) == first.value.(packet := p.packet) && p.error == []
    && SameUpToSpelling(Restore(p).packet, first.value.packet)
    && (p.originalTarget == [] ==> p.packet == first.value.packet)
    && (IsSent(p.ptype) ==> first.value.packet.data.Canonical?)
  }

  /** ... or first sent. */
  predicate FromSent(p: RollappPacket, ibc: Ibc) {
    IsSent(p.ptype) ==>
      && p.packet.data.Canonical?
      && SlotFor(p) in ibc.sent
      && CommitPacket(Restore(p).packet) == ibc.sent[SlotFor(p)]
  }

  ghost predicate Received(m: Store, log: seq<Event>) {
    forall k :: IsPending(m, k) ==> FromReceived(m[k], LastSaved(log, k))
  }

  ghost predicate Sent(m: Store, ibc: Ibc) { forall k :: IsPending(m, k) ==> FromSent(m[k], ibc) }

  /** Pending orders track pending packets ... */
  ghost predicate Tracking(m: Store, orders: Orders) {
    forall k :: (Pending, k) in orders ==> IsPending(m, k) && orders[(Pending, k)].trackingKey == k
  }

  /** ... and a packet was redirected exactly if its order is fulfilled. */
  ghost predicate Redirected(m: Store, orders: Orders) {
    forall k :: IsPending(m, k) ==>
      (m[k].originalTarget != [] <==> (Pending, k) in orders && orders[(Pending, k)].IsFulfilled())
  }

  /** A completion hook ran at most once for the packet on hold, and not at all while its order is open. */
  ghost predicate HooksOnce(orders: Orders, log: seq<Event>) {
    && (forall k :: HookRuns(log, k) <= 1)
    && (forall k :: (Pending, k) in orders && !orders[(Pending, k)].IsFulfilled() ==> HookRuns(log, k) == 0)
  }

  /** Acknowledgements belong to received packets, and none is written while the packet waits. */
  ghost predicate Unacked(m: Store, ibc: Ibc) {
    && (forall c :: c in ibc.acks ==> c in ibc.receipts)
    && (forall k :: IsPending(m, k) && SideOf(m[k].ptype) == In ==> SlotFor(m[k]) !in ibc.acks)
  }

  /** Each pending packet is listed under the address it currently pays. */
  ghost predicate Indexed(m: Store, index: set<(Text, bytes)>) {
    forall k :: IsPending(m, k) ==> m[k].packet.data.Parses() && (PayeeOf(m[k]), k) in index
  }

  ghost predicate Inv(env: Env, s: State) {
    && Keyed(s.packets) && AllOk(env, s.packets) && Alone(s.packets)
    && Guarded(s.packets, s.ibc) && Waiting(s.packets, s.log) && Consumed(s.log, s.ibc) && Once(s.log)
    && DeliveredLate(s.log, s.finalized) && FinalizedLate(s.packets, s.finalized)
    && Committed(s.ibc) && Received(s.packets, s.log) && Sent(s.packets, s.ibc)
    && Tracking(s.packets, s.orders) && Redirected(s.packets, s.orders)
    && HooksOnce(s.orders, s.log) && Indexed(s.packets, s.index) && Unacked(s.packets, s.ibc)
  }

  // ---------------------------------------------------------------- packets, keys and slots

  /** Equal key fields put two packets of the same rollapp into the same channel slot. */
  lemma SameFieldsSameSlot(env: Env, p: RollappPacket, q: RollappPacket)
    requires ValidEnv(env) && PacketOk(env, p) && PacketOk(env, q)
    requires p.rollappId == q.rollappId && p.ptype == q.ptype && p.packet.sequence == q.packet.sequence
    ensures SameSlot(p, q)
  {
  }

  /** A key is free if nothing stored shares its packet's slot. */
  lemma FreeKey(env: Env, m: Store, p: RollappPacket)
    requires ValidEnv(env) && Keyed(m) && AllOk(env, m) && PacketOk(env, p)
    requires forall l :: l in m ==> !SameSlot(p, m[l])
    ensures KeyOf(p) !in m
  {
    var k := KeyOf(p);
    if k in m {
      KeyOfInjective(p, m[k]);
      SameFieldsSameSlot(env, p, m[k]);
    }
  }

  // ---------------------------------------------------------------- putting a packet on hold

  /** Nothing in the state belongs to this slot. */
  ghost predicate Unseen(s: State, side: Side, slot: Slot) {
    && Untouched(s.log, side, slot)
    && (forall k :: k in s.packets ==> !(SideOf(s.packets[k].ptype) == side && SlotFor(s.packets[k]) == slot))
  }

  /** What an open ICS-04 guard implies. */
  lemma OpenIsUnseen(env: Env, s: State, side: Side, slot: Slot)
    requires Inv(env, s) && !Closed(s.ibc, side, slot)
    ensures Unseen(s, side, slot)
  {
  }

  ghost predicate Fresh(env: Env, s: State, p: RollappPacket) {
    && PacketOk(env, p) && p.status == Pending && p.originalTarget == [] && p.error == []
    && Closed(s.ibc, SideOf(p.ptype), SlotFor(p))
    && Unseen(s, SideOf(p.ptype), SlotFor(p))
    && (SideOf(p.ptype) == In ==> SlotFor(p) !in s.ibc.acks)
    && FromSent(p, s.ibc)
  }

  /** Adding a packet under a free key. */
  lemma InsertKeepsStore(env: Env, m: Store, k: bytes, p: RollappPacket)
    requires Keyed(m) && AllOk(env, m) && Alone(m)
    requires k == KeyOf(p) && PacketOk(env, p)
    requires forall l :: l in m ==> !SameSlot(p, m[l])
    ensures Keyed(m[k := p]) && AllOk(env, m[k := p]) && Alone(m[k := p])
  {
  }

  lemma InsertKeepsReceived(m: Store, log: seq<Event>, k: bytes, p: RollappPacket)
    requires Received(m, log) && p.originalTarget == [] && p.error == [] && p.packet.data.Parses()
    requires IsSent(p.ptype) ==> p.packet.data.Canonical?
    ensures Received(m[k := p], log + [Saved(k, CallOf(p))])
  {
    var log' := log + [Saved(k, CallOf(p))];
    forall l | IsPending(m[k := p], l) ensures FromReceived(m[k := p][l], LastSaved(log', l)) {
      Snoc(log, Saved(k, CallOf(p)), l);
      if l != k { assert IsPending(m, l); }
    }
  }

  lemma SavedResetsHooks(orders: Orders, log: seq<Event>, k: bytes, c: Call)
    requires HooksOnce(orders, log)
    ensures HooksOnce(orders, log + [Saved(k, c)]) && HookRuns(log + [Saved(k, c)], k) == 0
  {
    forall l ensures HookRuns(log + [Saved(k, c)], l) == if l == k then 0 else HookRuns(log, l) {
      Snoc(log, Saved(k, c), l);
    }
  }

  /** An event that delivers nothing. */
  lemma QuietEvent(m: Store, ibc: Ibc, heights: map<Text, u64>, log: seq<Event>, e: Event)
    requires !e.Delivered?
    requires Waiting(m, log) && Consumed(log, ibc) && Once(log) && DeliveredLate(log, heights)
    ensures Waiting(m, log + [e]) && Consumed(log + [e], ibc) && Once(log + [e]) && DeliveredLate(log + [e], heights)
  {
  }

  lemma InsertKeepsGuards(env: Env, s: State, k: bytes, p: RollappPacket)
    requires Guarded(s.packets, s.ibc) && Waiting(s.packets, s.log) && Unacked(s.packets, s.ibc) && Fresh(env, s, p)
    ensures Guarded(s.packets[k := p], s.ibc) && Waiting(s.packets[k := p], s.log) && Unacked(s.packets[k := p], s.ibc)
  {
  }

  lemma InsertKeepsRest(s: State, k: bytes, p: RollappPacket)
    requires FinalizedLate(s.packets, s.finalized) && Sent(s.packets, s.ibc) && Indexed(s.packets, s.index)
    requires p.status == Pending && p.packet.data.Parses() && FromSent(p, s.ibc)
    ensures FinalizedLate(s.packets[k := p], s.finalized) && Sent(s.packets[k := p], s.ibc)
    ensures Indexed(s.packets[k := p], s.index + {(PayeeOf(p), k)})
  {
  }

  lemma InsertKeepsOrders(m: Store, orders: Orders, k: bytes, p: RollappPacket)
    requires Tracking(m, orders) && Redirected(m, orders)
    requires k !in m && p.status == Pending && p.originalTarget == []
    ensures Tracking(m[k := p], orders) && Redirected(m[k := p], orders)
  {
  }

  lemma SaveKeepsInv(env: Env, s: State, p: RollappPacket)
    requires ValidEnv(env) && Inv(env, s) && Fresh(env, s, p)
    ensures Inv(env, Save(s, p))
    ensures IsPending(Save(s, p).packets, KeyOf(p)) && HookRuns(Save(s, p).log, KeyOf(p)) == 0
  {
    var k := KeyOf(p);
    FreeKey(env, s.packets, p);
    InsertKeepsStore(env, s.packets, k, p);
    InsertKeepsGuards(env, s, k, p);
    InsertKeepsRest(s, k, p);
    InsertKeepsOrders(s.packets, s.orders, k, p);
    InsertKeepsReceived(s.packets, s.log, k, p);
    SavedResetsHooks(s.orders, s.log, k, CallOf(p));
    QuietEvent(s.packets[k := p], s.ibc, s.finalized, s.log, Saved(k, CallOf(p)));
  }

  lemma OpenOrder(m: Store, orders: Orders, log: seq<Event>, k: bytes, o: Order)
    requires Tracking(m, orders) && Redirected(m, orders) && HooksOnce(orders, log)
    requires IsPending(m, k) && m[k].originalTarget == [] && HookRuns(log, k) == 0
    requires o.trackingKey == k && !o.IsFulfilled()
    ensures var orders' := orders[(Pending, k) := o];
            Tracking(m, orders') && Redirected(m, orders') && HooksOnce(orders', log)
  {
  }

  /** An order for a packet just saved. */
  lemma AddOrderKeepsInv(env: Env, s: State, p: RollappPacket, hasHook: bool)
    requires Inv(env, s) && p.packet.data.Parses()
    requires IsPending(s.packets, KeyOf(p)) && s.packets[KeyOf(p)] == p && p.originalTarget == []
    requires HookRuns(s.log, KeyOf(p)) == 0
    ensures Inv(env, AddOrder(s, p, hasHook))
  {
    OpenOrder(s.packets, s.orders, s.log, KeyOf(p), Order(KeyOf(p), PayeeOf(p), [], hasHook));
  }

  // ---------------------------------------------------------------- ICS-04 guards and callbacks

  /** Changes of the channel store that admit nothing new. */
  predicate Narrows(a: Ibc, b: Ibc) {
    && a.sent == b.sent
    && a.acks == b.acks
    && a.receipts <= b.receipts
    && (forall c :: c in b.commitments ==> c in a.commitments && a.commitments[c] == b.commitments[c])
  }

  lemma NarrowKeepsInv(env: Env, s: State, ibc: Ibc)
    requires Inv(env, s) && Narrows(s.ibc, ibc)
    ensures Inv(env, s.(ibc := ibc))
  {
    NarrowKeepsGuards(s.packets, s.log, s.ibc, ibc);
    assert Sent(s.packets, ibc) && Unacked(s.packets, ibc);
  }

  lemma NarrowKeepsGuards(m: Store, log: seq<Event>, a: Ibc, b: Ibc)
    requires Narrows(a, b) && Guarded(m, a) && Consumed(log, a) && Committed(a)
    ensures Guarded(m, b) && Consumed(log, b) && Committed(b)
  {
    assert forall side, slot :: Closed(a, side, slot) ==> Closed(b, side, slot);
  }

  /** No pending packet sits in this slot. */
  ghost predicate NonePending(m: Store, side: Side, slot: Slot) {
    forall k :: IsPending(m, k) ==> !(SideOf(m[k].ptype) == side && SlotFor(m[k]) == slot)
  }

  /** An acknowledgement for a received packet that is not waiting. */
  lemma AckKeepsInv(env: Env, s: State, slot: Slot, p: Packet, ok: bool)
    requires Inv(env, s) && slot in s.ibc.receipts && NonePending(s.packets, In, slot)
    ensures Inv(env, WriteAck(s, slot, p, ok))
  {
    AckKeepsGuards(s.packets, s.log, s.ibc, slot, Acked(p, ok));
  }

  lemma AckKeepsGuards(m: Store, log: seq<Event>, ibc: Ibc, slot: Slot, a: Acked)
    requires Guarded(m, ibc) && Consumed(log, ibc) && Committed(ibc) && Sent(m, ibc) && Unacked(m, ibc)
    requires slot in ibc.receipts && NonePending(m, In, slot)
    ensures var b := ibc.(acks := ibc.acks[slot := a]);
            Guarded(m, b) && Consumed(log, b) && Committed(b) && Sent(m, b) && Unacked(m, b)
  {
  }

  /** A callback for a packet that is consumed, not waiting and not delivered before. */
  lemma DeliverKeepsInv(env: Env, s: State, e: Event)
    requires Inv(env, s) && e.Delivered?
    requires Closed(s.ibc, e.side, e.slot) && Untouched(s.log, e.side, e.slot) && NonePending(s.packets, e.side, e.slot)
    requires e.rollapp.Some? ==> Finalizable(s.finalized, e.rollapp.value, e.height)
    ensures Inv(env, Log(s, e))
  {
    DeliveredEvent(s.packets, s.ibc, s.finalized, s.log, e);
    ForeignEvent(s.packets, s.orders, s.log, e);
  }

  lemma DeliveredEvent(m: Store, ibc: Ibc, heights: map<Text, u64>, log: seq<Event>, e: Event)
    requires e.Delivered? && Closed(ibc, e.side, e.slot) && Untouched(log, e.side, e.slot)
             && NonePending(m, e.side, e.slot)
    requires e.rollapp.Some? ==> Finalizable(heights, e.rollapp.value, e.height)
    requires Waiting(m, log) && Consumed(log, ibc) && Once(log) && DeliveredLate(log, heights)
    ensures Waiting(m, log + [e]) && Consumed(log + [e], ibc) && Once(log + [e]) && DeliveredLate(log + [e], heights)
  {
  }

  /** Callbacks concern neither hooks nor what was put on hold. */
  lemma ForeignEvent(m: Store, orders: Orders, log: seq<Event>, e: Event)
    requires e.Delivered? && Received(m, log) && HooksOnce(orders, log)
    ensures Received(m, log + [e]) && HooksOnce(orders, log + [e])
  {
    forall k ensures HookRuns(log + [e], k) == HookRuns(log, k) && LastSaved(log + [e], k) == LastSaved(log, k) {
      Snoc(log, e, k);
    }
  }

  /** A completion hook that runs for a packet whose order is not open any more. */
  lemma HookKeepsInv(env: Env, s: State, k: bytes)
    requires Inv(env, s) && HookRuns(s.log, k) == 0
    requires (Pending, k) in s.orders ==> s.orders[(Pending, k)].IsFulfilled()
    ensures Inv(env, Log(s, HookRan(k)))
  {
    QuietEvent(s.packets, s.ibc, s.finalized, s.log, HookRan(k));
    HookEvent(s.packets, s.orders, s.log, k);
  }

  lemma HookEvent(m: Store, orders: Orders, log: seq<Event>, k: bytes)
    requires Received(m, log) && HooksOnce(orders, log) && HookRuns(log, k) == 0
    requires (Pending, k) in orders ==> orders[(Pending, k)].IsFulfilled()
    ensures Received(m, log + [HookRan(k)]) && HooksOnce(orders, log + [HookRan(k)])
  {
    forall l ensures HookRuns(log + [HookRan(k)], l) == HookRuns(log, l) + (if l == k then 1 else 0)
             ensures LastSaved(log + [HookRan(k)], l) == LastSaved(log, l) {
      Snoc(log, HookRan(k), l);
    }
  }

  // ---------------------------------------------------------------- changing a stored packet

  /** Packets that agree on everything a key and a slot are made of. */
  predicate Alike(p: RollappPacket, q: RollappPacket) {
    && q == p.(packet := p.packet.(data := q.packet.data), originalTarget := q.originalTarget,
               error := q.error, status := q.status)
    && q.packet.data.Parses() && PayeeOf(q) != []
  }

  lemma AlikeSameSlot(env: Env, p: RollappPacket, q: RollappPacket)
    requires PacketOk(env, p) && Alike(p, q)
    ensures PacketOk(env, q) && SameSlot(p, q)
    ensures p.status == q.status ==> KeyOf(p) == KeyOf(q)
  {
  }

  lemma ReplaceKeepsStore(env: Env, m: Store, k: bytes, q: RollappPacket)
    requires Keyed(m) && AllOk(env, m) && Alone(m) && IsPending(m, k) && Alike(m[k], q) && q.status == Pending
    ensures Keyed(m[k := q]) && AllOk(env, m[k := q]) && Alone(m[k := q])
  {
    AlikeSameSlot(env, m[k], q);
  }

  lemma ReplaceKeepsGuards(env: Env, s: State, k: bytes, q: RollappPacket)
    requires AllOk(env, s.packets) && IsPending(s.packets, k) && Alike(s.packets[k], q) && q.status == Pending
    requires Guarded(s.packets, s.ibc) && Waiting(s.packets, s.log) && FinalizedLate(s.packets, s.finalized)
             && Unacked(s.packets, s.ibc)
    ensures var m := s.packets[k := q];
            Guarded(m, s.ibc) && Waiting(m, s.log) && FinalizedLate(m, s.finalized) && Unacked(m, s.ibc)
  {
    AlikeSameSlot(env, s.packets[k], q);
  }

  // ---------------------------------------------------------------- fulfilment

  lemma RedirectKeepsOrigin(p: RollappPacket, to: Text, first: Option<Call>, ibc: Ibc)
    requires p.ptype != Undefined && p.originalTarget == [] && p.packet.data.Parses() && PayeeOf(p) != []
    requires FromReceived(p, first) && FromSent(p, ibc)
    ensures FromReceived(Redirect(p, to), first) && FromSent(Redirect(p, to), ibc)
  {
    RedirectThenRestoreTransfer(p, to);
    RedirectThenRestoreBytes(p, to);
  }

  lemma RedirectKeepsOrigins(m: Store, log: seq<Event>, ibc: Ibc, k: bytes, to: Text)
    requires IsPending(m, k) && m[k].packet.data.Parses() && m[k].ptype != Undefined
    requires m[k].originalTarget == [] && PayeeOf(m[k]) != []
    requires Received(m, log) && Sent(m, ibc)
    ensures Received(m[k := Redirect(m[k], to)], log) && Sent(m[k := Redirect(m[k], to)], ibc)
  {
    RedirectKeepsOrigin(m[k], to, LastSaved(log, k), ibc);
  }

  lemma RedirectKeepsOrders(m: Store, orders: Orders, index: set<(Text, bytes)>, log: seq<Event>, k: bytes, to: Text,
                            o: Order)
    requires IsPending(m, k) && m[k].packet.data.Parses() && m[k].ptype != Undefined && PayeeOf(m[k]) != []
    requires Tracking(m, orders) && Redirected(m, orders) && HooksOnce(orders, log) && Indexed(m, index)
    requires o.trackingKey == k && o.IsFulfilled()
    ensures var m', orders' := m[k := Redirect(m[k], to)], orders[(Pending, k) := o];
            && Tracking(m', orders') && Redirected(m', orders') && HooksOnce(orders', log)
            && Indexed(m', index - {(PayeeOf(m[k]), k)} + {(to, k)})
  {
    RedirectThenRestoreTransfer(m[k], to);
  }

  /** The order is marked fulfilled and its packet redirected. */
  lemma RedirectKeepsInv(env: Env, s: State, k: bytes, to: Text, o: Order)
    requires Inv(env, s) && IsPending(s.packets, k) && s.packets[k].originalTarget == [] && to != []
    requires o.trackingKey == k && o.IsFulfilled()
    ensures Retarget(s.(orders := s.orders[(Pending, k) := o]), k, to).Some?
    ensures Inv(env, Retarget(s.(orders := s.orders[(Pending, k) := o]), k, to).value)
  {
    var p := s.packets[k];
    var q := Redirect(p, to);
    RedirectThenRestoreTransfer(p, to);
    AlikeSameSlot(env, p, q);
    ReplaceKeepsStore(env, s.packets, k, q);
    ReplaceKeepsGuards(env, s, k, q);
    RedirectKeepsOrigins(s.packets, s.log, s.ibc, k, to);
    RedirectKeepsOrders(s.packets, s.orders, s.index, s.log, k, to, o);
  }

  lemma FulfillKeepsInv(env: Env, s: State, id: bytes, src: Text, who: Text, hookOk: bool)
    requires Inv(env, s)
    ensures Inv(env, Tx(s, Fulfill(s, id, src, who, hookOk)))
  {
    if Fulfill(s, id, src, who, hookOk).Some? {
      var o := s.orders[(Pending, id)];
      var o' := o.(fulfiller := who);
      RedirectKeepsInv(env, s, id, src, o');
      var t := Retarget(s.(orders := s.orders[(Pending, id) := o']), id, src).value;
      if o.hasHook { HookKeepsInv(env, t, id); }
    }
  }
}
