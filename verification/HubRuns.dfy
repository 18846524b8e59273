/** Every step keeps the invariant, so it holds along every run. */
module HubRuns {
  import opened Bytes
  import opened SortedStore
  import opened Packets
  import opened PacketKey
  import opened Hub
  import opened HubInvariant

  // ---------------------------------------------------------------- receive, acknowledge, time out, send

  lemma RecvKeepsInv(env: Env, s: State, p: Packet, h: u64, relayer: bytes, o: Outcome)
    requires ValidEnv(env) && Inv(env, s)
    ensures Inv(env, RecvTx(env, s, p, h, relayer, o))
  {
    hide Inv, OnRecvPacket;
    var slot := SlotOf(OnRecv, p);
    if Routed(env, DstEnd(p), SrcEnd(p)) && slot !in s.ibc.receipts {
      OpenIsUnseen(env, s, In, slot);
      AckFacts(env, s, slot);
      var s1 := s.(ibc := s.ibc.(receipts := s.ibc.receipts + {slot}));
      NarrowKeepsInv(env, s, s1.ibc);
      OnRecvKeepsInv(env, s1, p, h, relayer, o);
      var (s2, ack) := OnRecvPacket(env, s1, p, h, relayer, o);
      var s3 := if ack == ErrorAck then s1 else s2;
      if ack != NoAck { AckKeepsInv(env, s3, slot, p, ack == SuccessAck); }
    }
  }

  lemma AckFacts(env: Env, s: State, slot: Slot)
    requires Inv(env, s)
    ensures slot in s.ibc.acks ==> slot in s.ibc.receipts
  {
  }

  /** ICS-04 has just admitted a packet. */
  ghost predicate Admitted(env: Env, s: State, t: PacketType, p: Packet) {
    && t != Undefined
    && Routed(env, HubEnd(t, p), if IsSent(t) then DstEnd(p) else SrcEnd(p))
    && Closed(s.ibc, SideOf(t), SlotOf(t, p)) && Unseen(s, SideOf(t), SlotOf(t, p))
    && (IsSent(t) ==> CommitPacket(p) == s.ibc.sent[SlotOf(t, p)])
    && (!IsSent(t) ==> SlotOf(t, p) !in s.ibc.acks)
  }

  lemma PassKeepsInv(env: Env, s: State, c: Call, h: u64, r: Option<Text>, accepted: bool)
    requires Inv(env, s) && Admitted(env, s, c.ptype, c.packet) && (r.Some? ==> HeightFinalized(s, r.value, h))
    ensures Inv(env, DeliverNow(s, r, h, c, accepted))
  {
    DeliverKeepsInv(env, s, Delivered(SideOf(c.ptype), SlotOf(c.ptype, c.packet), r, h, c, accepted));
  }

  lemma HoldKeepsInv(env: Env, s: State, t: PacketType, p: Packet, r: Text, q: RollappPacket, hook: bool)
    requires ValidEnv(env) && Inv(env, s) && Admitted(env, s, t, p)
    requires GetValidTransfer(env, p.data, HubEnd(t, p)) == OfRollapp(r)
    requires q == NewPacket(r, p, q.acknowledgement, q.proofHeight, q.relayer, t)
    ensures Inv(env, Save(s, q)) && Inv(env, AddOrder(Save(s, q), q, hook))
  {
    NewPacketIsFresh(env, s, t, p, q, r);
    SaveKeepsInv(env, s, q);
    AddOrderKeepsInv(env, Save(s, q), q, hook);
  }

  lemma OnRecvKeepsInv(env: Env, s: State, p: Packet, h: u64, relayer: bytes, o: Outcome)
    requires ValidEnv(env) && Inv(env, s) && Admitted(env, s, OnRecv, p)
    ensures OnRecvPacket(env, s, p, h, relayer, o).1 != ErrorAck ==> Inv(env, OnRecvPacket(env, s, p, h, relayer, o).0)
    ensures OnRecvPacket(env, s, p, h, relayer, o).1 == SuccessAck ==>
              OnRecvPacket(env, s, p, h, relayer, o).0 == s.(log := OnRecvPacket(env, s, p, h, relayer, o).0.log)
  {
    hide Inv, Admitted;
    var (s2, ack) := OnRecvPacket(env, s, p, h, relayer, o);
    if ack != ErrorAck {
      match GetValidTransfer(env, p.data, DstEnd(p))
      case Plain => PassKeepsInv(env, s, Call(OnRecv, p, [], relayer), h, None, o.ack != ErrorAck);
      case OfRollapp(r) =>
        if HeightFinalized(s, r, h) {
          PassKeepsInv(env, s, Call(OnRecv, p, [], relayer), h, Some(r), o.ack != ErrorAck);
        } else {
          var q := NewPacket(r, p, [], h, relayer, OnRecv);
          var hook := o.market.NewOrder? && o.market.hasHook;
          HoldKeepsInv(env, s, OnRecv, p, r, q, hook);
          assert s2 == Save(s, q) || s2 == AddOrder(Save(s, q), q, hook);
        }
    }
  }

  lemma OnOutcomeKeepsInv(env: Env, s: State, t: PacketType, p: Packet, ack: bytes, h: u64, relayer: bytes, o: Outcome)
    requires ValidEnv(env) && Inv(env, s) && IsSent(t) && Admitted(env, s, t, p)
    ensures OnOutcomePacket(env, s, t, p, ack, h, relayer, o).Some? ==>
              Inv(env, OnOutcomePacket(env, s, t, p, ack, h, relayer, o).value)
  {
    hide Inv, Admitted;
    var res := OnOutcomePacket(env, s, t, p, ack, h, relayer, o);
    if res.Some? {
      match GetValidTransfer(env, p.data, SrcEnd(p))
      case Plain => PassKeepsInv(env, s, Call(t, p, if t == OnAck then ack else [], relayer), h, None, true);
      case OfRollapp(r) =>
        if HeightFinalized(s, r, h) {
          PassKeepsInv(env, s, Call(t, p, if t == OnAck then ack else [], relayer), h, Some(r), true);
        } else {
          var q := NewPacket(r, p, if t == OnAck then ack else [], h, relayer, t);
          HoldKeepsInv(env, s, t, p, r, q, false);
          assert res.value == Save(s, q) || res.value == AddOrder(Save(s, q), q, false);
        }
    }
  }

  lemma NewPacketIsFresh(env: Env, s: State, t: PacketType, p: Packet, q: RollappPacket, r: Text)
    requires GetValidTransfer(env, p.data, HubEnd(t, p)) == OfRollapp(r)
    requires Admitted(env, s, t, p) && Committed(s.ibc)
    requires q.rollappId == r && q.packet == p && q.ptype == t && q.status == Pending
    requires q.originalTarget == [] && q.error == []
    ensures Fresh(env, s, q)
  {
    assert Payee(t, p.data.transfer) != [];
    assert Restore(q) == q;
    assert SlotFor(q) == SlotOf(t, p);
    if IsSent(t) { assert s.ibc.sent[SlotOf(t, p)].data == p.data; }
  }

  lemma CommitmentFacts(env: Env, s: State, slot: Slot)
    requires Inv(env, s)
    ensures slot in s.ibc.commitments ==> slot in s.ibc.sent && s.ibc.sent[slot] == s.ibc.commitments[slot]
  {
  }

  lemma OutcomeKeepsInv(env: Env, s: State, t: PacketType, p: Packet, ack: bytes, h: u64, relayer: bytes, o: Outcome)
    requires ValidEnv(env) && Inv(env, s) && IsSent(t)
    ensures Inv(env, OutcomeTx(env, s, t, p, ack, h, relayer, o))
  {
    var slot := SlotOf(t, p);
    hide Inv, OnOutcomePacket;
    CommitmentFacts(env, s, slot);
    if Routed(env, SrcEnd(p), DstEnd(p)) && slot in s.ibc.commitments && s.ibc.commitments[slot] == CommitPacket(p) {
      OpenIsUnseen(env, s, Out, slot);
      var s1 := s.(ibc := s.ibc.(commitments := s.ibc.commitments - {slot}));
      NarrowKeepsInv(env, s, s1.ibc);
      OnOutcomeKeepsInv(env, s1, t, p, ack, h, relayer, o);
    }
  }

  lemma SendKeepsInv(env: Env, s: State, p: Packet)
    requires Inv(env, s)
    ensures Inv(env, SendTx(env, s, p))
  {
    var t := SendTx(env, s, p);
    SendKeepsGuards(s, t.ibc, SlotOf(OnAck, p), CommitPacket(p));
  }

  lemma SendKeepsGuards(s: State, ibc: Ibc, slot: Slot, c: Commitment)
    requires Guarded(s.packets, s.ibc) && Consumed(s.log, s.ibc) && Committed(s.ibc) && Sent(s.packets, s.ibc)
             && Unacked(s.packets, s.ibc)
    requires ibc == s.ibc || (slot !in s.ibc.sent && c.data.Canonical? &&
             ibc == s.ibc.(sent := s.ibc.sent[slot := c], commitments := s.ibc.commitments[slot := c]))
    ensures Guarded(s.packets, ibc) && Consumed(s.log, ibc) && Committed(ibc) && Sent(s.packets, ibc)
            && Unacked(s.packets, ibc)
  {
    assert forall side, l :: Closed(s.ibc, side, l) ==> Closed(ibc, side, l);
  }

  lemma RaiseKeepsInv(env: Env, s: State, r: Text, h: u64)
    requires Inv(env, s)
    ensures Inv(env, RaiseHeight(s, r, h))
  {
    hide Keyed, AllOk, Alone, Guarded, Waiting, Consumed, Once, DeliveredLate, FinalizedLate, Committed, Received, Sent,
      Tracking, Redirected, HooksOnce, Indexed, Unacked;
    HigherKeepsLate(s.packets, s.log, s.finalized, RaiseHeight(s, r, h).finalized);
  }

  lemma HigherKeepsLate(m: Store, log: seq<Event>, a: map<Text, u64>, b: map<Text, u64>)
    requires DeliveredLate(log, a) && FinalizedLate(m, a)
    requires forall r :: r in a ==> r in b && a[r] <= b[r]
    ensures DeliveredLate(log, b) && FinalizedLate(m, b)
  {
  }

  // ---------------------------------------------------------------- finalization

  lemma MoveKeepsStore(env: Env, m: Store, k: bytes, q: RollappPacket)
    requires ValidEnv(env) && Keyed(m) && AllOk(env, m) && Alone(m) && IsPending(m, k)
    requires Alike(m[k], q) && q.status == Finalized
    ensures var m' := (m - {k})[KeyOf(q) := q];
            Keyed(m') && AllOk(env, m') && Alone(m') && NonePending(m', SideOf(q.ptype), SlotFor(q))
            && (forall l :: IsPending(m', l) <==> l != k && IsPending(m, l))
            && (forall l :: IsPending(m', l) ==> l in m && m'[l] == m[l])
  {
    AlikeSameSlot(env, m[k], q);
    DropKeepsStore(env, m, k);
    FreeKey(env, m - {k}, q);
    SettleKeepsStore(env, m - {k}, KeyOf(q), q);
  }

  lemma DropKeepsStore(env: Env, m: Store, k: bytes)
    requires Keyed(m) && AllOk(env, m) && Alone(m)
    ensures Keyed(m - {k}) && AllOk(env, m - {k}) && Alone(m - {k})
  {
  }

  /** Adding a finalized packet whose slot nothing is waiting in. */
  lemma SettleKeepsStore(env: Env, m: Store, k: bytes, q: RollappPacket)
    requires Keyed(m) && AllOk(env, m) && Alone(m) && k !in m
    requires k == KeyOf(q) && PacketOk(env, q) && q.status == Finalized && NonePending(m, SideOf(q.ptype), SlotFor(q))
    ensures Keyed(m[k := q]) && AllOk(env, m[k := q]) && Alone(m[k := q])
            && NonePending(m[k := q], SideOf(q.ptype), SlotFor(q))
    ensures forall l :: IsPending(m[k := q], l) <==> IsPending(m, l)
    ensures forall l :: IsPending(m[k := q], l) ==> l in m && m[k := q][l] == m[l]
  {
  }

  lemma MoveKeepsGuards(env: Env, s: State, k: bytes, q: RollappPacket)
    requires AllOk(env, s.packets) && IsPending(s.packets, k) && Alike(s.packets[k], q) && q.status == Finalized
    requires Guarded(s.packets, s.ibc) && Waiting(s.packets, s.log) && FinalizedLate(s.packets, s.finalized)
             && Unacked(s.packets, s.ibc)
    requires Finalizable(s.finalized, q.rollappId, q.proofHeight)
    ensures var m' := (s.packets - {k})[KeyOf(q) := q];
            Guarded(m', s.ibc) && Waiting(m', s.log) && FinalizedLate(m', s.finalized) && Unacked(m', s.ibc)
  {
    AlikeSameSlot(env, s.packets[k], q);
  }

  /** Among the pending orders only the one for k is gone. */
  ghost predicate OnlyDropped(orders: Orders, orders': Orders, k: bytes) {
    && (forall l :: (Pending, l) in orders' <==> l != k && (Pending, l) in orders)
    && (forall l :: l != k && (Pending, l) in orders ==> orders'[(Pending, l)] == orders[(Pending, l)])
  }

  lemma FinalizeOrderDrops(s: State, k: bytes, k2: bytes)
    ensures OnlyDropped(s.orders, FinalizeOrder(s, k, k2).orders, k)
    ensures FinalizeOrder(s, k, k2) == s.(orders := FinalizeOrder(s, k, k2).orders)
  {
  }

  /** Fewer pending packets leave less to track. */
  lemma FewerPending(s: State, m': Store, index': set<(Text, bytes)>, orders': Orders, k: bytes, a: Text)
    requires forall l :: IsPending(m', l) <==> l != k && IsPending(s.packets, l)
    requires forall l :: IsPending(m', l) ==> l in s.packets && m'[l] == s.packets[l]
    requires OnlyDropped(s.orders, orders', k)
    requires s.index - {(a, k)} <= index'
    requires Received(s.packets, s.log) && Sent(s.packets, s.ibc) && Tracking(s.packets, s.orders)
    requires Redirected(s.packets, s.orders) && HooksOnce(s.orders, s.log) && Indexed(s.packets, s.index)
    ensures Received(m', s.log) && Sent(m', s.ibc) && Tracking(m', orders')
    ensures Redirected(m', orders') && HooksOnce(orders', s.log) && Indexed(m', index')
  {
  }

  /** The packet as finalization hands it over keeps its place in key and slot. */
  lemma MoveKeepsInv(env: Env, s: State, k: bytes, q: RollappPacket)
    requires ValidEnv(env) && Inv(env, s) && IsPending(s.packets, k)
    requires Alike(s.packets[k], q) && q.status == Pending
    requires Finalizable(s.finalized, q.rollappId, q.proofHeight)
    ensures MoveToFinalized(s, q).Some?
    ensures var t := MoveToFinalized(s, q).value;
            Inv(env, t) && NonePending(t.packets, SideOf(q.ptype), SlotFor(q)) && (Pending, k) !in t.orders
            && t.log == s.log && t.ibc == s.ibc && t.finalized == s.finalized
  {
    AlikeSameSlot(env, s.packets[k], q);
    var f := q.(status := Finalized);
    var m := (s.packets - {k})[KeyOf(f) := f];
    var index := s.index - {(PayeeOf(q), k)};
    MoveKeepsStore(env, s.packets, k, f);
    MoveKeepsGuards(env, s, k, f);
    var s2 := s.(packets := m, index := index);
    FinalizeOrderDrops(s2, k, KeyOf(f));
    var t := FinalizeOrder(s2, k, KeyOf(f));
    FewerPending(s, m, index, t.orders, k, PayeeOf(q));
    assert MoveToFinalized(s, q) == Some(t);
  }

  /** What the callback part of finalization adds to the state around the packet. */
  lemma CallbackShape(env: Env, s: State, p: RollappPacket, o: Verdict)
    requires p.packet.data.Parses() && p.ptype != Undefined && PayeeOf(p) != []
    ensures var (t, q, ok) := FinalizeCallback(env, s, p, o);
            && Alike(p, q) && q.status == p.status && q.error == p.error
            && t == s.(ibc := t.ibc, log := t.log)
            && (t.ibc == s.ibc
                || (p.ptype == OnRecv && t.ibc == WriteAck(s, SlotFor(p), q.packet, o.ack == SuccessAck).ibc))
            && LogGrows(s.log, t.log, DeliveryOf(p, Accepted(p, o)), KeyOf(p), OpenHook(s.orders, KeyOf(p)))
  {
    if p.ptype == OnRecv {
      var q := Restore(p);
      var s1 := DeliverNow(s, Some(p.rollappId), p.proofHeight, CallOf(p), o.ack != ErrorAck);
      HookShape(env, s1, p, o);
      HookShape(env, WriteAck(s1, SlotOf(OnRecv, q.packet), q.packet, o.ack == SuccessAck), q, o);
      assert KeyOf(q) == KeyOf(p);
    }
  }

  lemma HookShape(env: Env, s: State, p: RollappPacket, o: Verdict)
    ensures var t := FinalizeHook(env, s, p, o).0;
            t == s || (OpenHook(s.orders, KeyOf(p)) && t == Log(s, HookRan(KeyOf(p))))
  {
  }

  /** Whether the module below takes the packet when it is finalized; an error of its own is its refusal. */
  predicate Accepted(p: RollappPacket, o: Verdict) { if p.ptype == OnRecv then o.ack != ErrorAck else o.callbackOk }

  function DeliveryOf(p: RollappPacket, accepted: bool): Event {
    Delivered(SideOf(p.ptype), SlotFor(p), Some(p.rollappId), p.proofHeight, CallOf(p), accepted)
  }

  /** One callback, and after it at most one hook, the latter only for an open order. */
  predicate LogGrows(log: seq<Event>, log': seq<Event>, e: Event, k: bytes, open: bool) {
    log' == log + [e] || (open && log' == log + [e] + [HookRan(k)])
  }

  predicate OpenHook(orders: Orders, k: bytes) {
    (Pending, k) in orders && !orders[(Pending, k)].IsFulfilled() && orders[(Pending, k)].hasHook
  }

  lemma StoredFacts(env: Env, s: State, k: bytes)
    requires Inv(env, s) && k in s.packets
    ensures KeyOf(s.packets[k]) == k && PacketOk(env, s.packets[k])
    ensures Closed(s.ibc, SideOf(s.packets[k].ptype), SlotFor(s.packets[k]))
    ensures IsPending(s.packets, k) ==> Untouched(s.log, SideOf(s.packets[k].ptype), SlotFor(s.packets[k]))
    ensures OpenHook(s.orders, k) ==> HookRuns(s.log, k) == 0
  {
  }

  lemma MoveIgnoresEvents(s: State, s1: State, f: RollappPacket)
    requires s1 == s.(ibc := s1.ibc, log := s1.log)
    ensures MoveToFinalized(s1, f).Some? <==> MoveToFinalized(s, f).Some?
    ensures MoveToFinalized(s, f).Some? ==> f.status == Pending
    ensures MoveToFinalized(s, f).Some? ==>
              MoveToFinalized(s1, f).value == MoveToFinalized(s, f).value.(ibc := s1.ibc, log := s1.log)
  {
    hide KeyOf;
  }

  lemma FinalizeKeepsInv(env: Env, s: State, key: bytes, o: Verdict)
    requires ValidEnv(env) && Inv(env, s)
    ensures Inv(env, Tx(s, Finalize(env, s, key, o)))
  {
    hide Inv, FinalizeCallback, KeyOf, MoveToFinalized;
    if key in s.packets { StoredFacts(env, s, key); }
    if Finalize(env, s, key, o).Some? {
      var p := s.packets[key];
      var (s1, q, ok) := FinalizeCallback(env, s, p, o);
      var f := if ok then q else q.(error := o.errorText);
      CallbackShape(env, s, p, o);
      MoveIgnoresEvents(s, s1, f);
      MoveKeepsInv(env, s, key, f);
      var t := MoveToFinalized(s, f).value;
      var u := MoveToFinalized(s1, f).value;
      assert SlotFor(p) == SlotFor(f);
      EventsKeepInv(env, t, s1.log, p, Accepted(p, o), OpenHook(s.orders, key));
      if s1.ibc != s.ibc { AckKeepsInv(env, t.(log := s1.log), SlotFor(p), q.packet, o.ack == SuccessAck); }
    }
  }

  lemma EventsKeepInv(env: Env, t: State, log: seq<Event>, p: RollappPacket, accepted: bool, open: bool)
    requires Inv(env, t) && NonePending(t.packets, SideOf(p.ptype), SlotFor(p)) && (Pending, KeyOf(p)) !in t.orders
    requires Closed(t.ibc, SideOf(p.ptype), SlotFor(p)) && Untouched(t.log, SideOf(p.ptype), SlotFor(p))
    requires Finalizable(t.finalized, p.rollappId, p.proofHeight)
    requires open ==> HookRuns(t.log, KeyOf(p)) == 0
    requires LogGrows(t.log, log, DeliveryOf(p, accepted), KeyOf(p), open)
    ensures Inv(env, t.(log := log))
  {
    var e := DeliveryOf(p, accepted);
    DeliverKeepsInv(env, t, e);
    if log != t.log + [e] {
      Snoc(t.log, e, KeyOf(p));
      HookKeepsInv(env, Log(t, e), KeyOf(p));
    }
  }

  // ---------------------------------------------------------------- hard fork

  /** Opening the guard of a packet that is waiting, and of no other. */
  function Reopen(ibc: Ibc, p: RollappPacket): Ibc
    requires p.packet.data.Parses()
  {
    if IsSent(p.ptype) then ibc.(commitments := ibc.commitments[SlotFor(p) := CommitPacket(Restore(p).packet)])
    else ibc.(receipts := ibc.receipts - {SlotFor(p)})
  }

  lemma ReopenKeepsGuards(env: Env, s: State, k: bytes)
    requires AllOk(env, s.packets) && Alone(s.packets) && IsPending(s.packets, k)
    requires Guarded(s.packets, s.ibc) && Consumed(s.log, s.ibc) && Waiting(s.packets, s.log)
    ensures Guarded(s.packets - {k}, Reopen(s.ibc, s.packets[k])) && Consumed(s.log, Reopen(s.ibc, s.packets[k]))
    ensures Waiting(s.packets - {k}, s.log)
  {
    var p := s.packets[k];
    assert forall side, slot :: !(side == SideOf(p.ptype) && slot == SlotFor(p)) && Closed(s.ibc, side, slot) ==>
        Closed(Reopen(s.ibc, p), side, slot);
  }

  lemma ReopenKeepsCommitments(s: State, k: bytes)
    requires IsPending(s.packets, k) && s.packets[k].packet.data.Parses()
    requires Committed(s.ibc) && Sent(s.packets, s.ibc) && Unacked(s.packets, s.ibc)
    ensures Unacked(s.packets - {k}, Reopen(s.ibc, s.packets[k]))
    ensures Committed(Reopen(s.ibc, s.packets[k])) && Reopen(s.ibc, s.packets[k]).sent == s.ibc.sent
    ensures Sent(s.packets - {k}, Reopen(s.ibc, s.packets[k]))
  {
    assert FromSent(s.packets[k], s.ibc);
  }

  /** Everything a round of the fork loop does, in terms of the state before it. */
  lemma RevertEffect(env: Env, s: State, k: bytes)
    requires Inv(env, s) && IsPending(s.packets, k)
    ensures s.packets[k].packet.data.Parses()
    ensures var p := s.packets[k]; var t := Revert(s, p);
            && t == s.(packets := s.packets - {k}, ibc := Reopen(s.ibc, p),
                       index := s.index - {(PayeeOf(if IsSent(p.ptype) then Restore(p) else p), k)},
                       orders := s.orders - {(Pending, k), (Finalized, k)})
  {
    var p := s.packets[k];
    assert KeyOf(p.(status := Pending)) == k;
    assert KeyOf(Restore(p)) == k && KeyOf(Restore(p).(status := Pending)) == k;
  }

  lemma DropPending(m: Store, orders: Orders, k: bytes)
    ensures forall l :: IsPending(m - {k}, l) <==> l != k && IsPending(m, l)
    ensures forall l :: IsPending(m - {k}, l) ==> l in m && (m - {k})[l] == m[l]
    ensures OnlyDropped(orders, orders - {(Pending, k), (Finalized, k)}, k)
  {
  }

  lemma RevertKeepsInv(env: Env, s: State, k: bytes)
    requires Inv(env, s) && IsPending(s.packets, k)
    ensures Inv(env, Revert(s, s.packets[k]))
  {
    hide Revert, KeyOf;
    var p := s.packets[k];
    var t := Revert(s, p);
    RevertEffect(env, s, k);
    DropKeepsStore(env, s.packets, k);
    ReopenKeepsGuards(env, s, k);
    ReopenKeepsCommitments(s, k);
    DropPending(s.packets, s.orders, k);
    FewerPending(s, t.packets, t.index, t.orders, k, PayeeOf(if IsSent(p.ptype) then Restore(p) else p));
    DropKeepsGuards(s, k);
  }

  lemma {:induction false} RevertAllKeepsInv(env: Env, s: State, ks: seq<bytes>)
    requires Inv(env, s) && Ascending(ks) && forall i :: 0 <= i < |ks| ==> IsPending(s.packets, ks[i])
    ensures AllParse(Lookup(s.packets, ks)) && Inv(env, RevertAll(s, Lookup(s.packets, ks)))
    decreases |ks|
  {
    hide Inv, Revert;
    if ks != [] {
      var p := s.packets[ks[0]];
      RevertEffect(env, s, ks[0]);
      RevertKeepsInv(env, s, ks[0]);
      var t := Revert(s, p);
      TailStays(s.packets, ks);
      RevertAllKeepsInv(env, t, ks[1..]);
    }
  }

  lemma {:induction false} LookupSame(m: Store, m': Store, ks: seq<bytes>)
    requires forall k :: k in ks ==> k in m && k in m' && m[k] == m'[k]
    ensures Lookup(m, ks) == Lookup(m', ks)
  {
    if ks != [] { LookupSame(m, m', ks[1..]); }
  }

  /** Dropping the first key leaves the others in place. */
  lemma TailStays(m: Store, ks: seq<bytes>)
    requires ks != [] && Ascending(ks) && forall k :: k in ks ==> k in m
    ensures forall i :: 0 <= i < |ks[1..]| ==> ks[1..][i] in m - {ks[0]} && (m - {ks[0]})[ks[1..][i]] == m[ks[1..][i]]
    ensures Lookup(m - {ks[0]}, ks[1..]) == Lookup(m, ks[1..])
  {
    TailExcludesHead(ks);
    LookupSame(m - {ks[0]}, m, ks[1..]);
  }

  /** The status prefix of a stored key tells the packet's status. */
  lemma KeyTellsStatus(p: RollappPacket, st: Status)
    ensures StatusPrefix(st) <= KeyOf(p) <==> p.status == st
  {
    var rest := p.rollappId + [SLASH] + Uint64ToBigEndian(p.proofHeight)
      + Suffix(TypeName(p.ptype), p.packet.srcChan, p.packet.sequence);
    assert KeyOf(p) == StatusPrefix(p.status) + rest;
    StatusPrefixIsExact(st, p.status, rest);
  }

  lemma ForkKeysArePending(env: Env, s: State, r: Text, lastValid: u64)
    requires Inv(env, s)
    ensures forall k :: k in ForkKeys(s, r, lastValid) ==> IsPending(s.packets, k)
  {
    hide KeyOf, Inv;
    forall k | k in ForkKeys(s, r, lastValid) ensures IsPending(s.packets, k) {
      StoredFacts(env, s, k);
      RangeSharesPrefix(RollappPrefix(Pending, r), Uint64ToBigEndian(ForkFrom(lastValid)),
        Uint64ToBigEndian(MAX_U64), k);
      assert StatusPrefix(Pending) <= RollappPrefix(Pending, r);
      KeyTellsStatus(s.packets[k], Pending);
    }
  }

  lemma ForkKeepsInv(env: Env, s: State, r: Text, lastValid: u64)
    requires Inv(env, s)
    ensures HardFork(s, r, lastValid).Some? && Inv(env, HardFork(s, r, lastValid).value)
  {
    hide Inv;
    ForkKeysArePending(env, s, r, lastValid);
    RevertAllKeepsInv(env, s, ForkKeys(s, r, lastValid));
  }

  // ---------------------------------------------------------------- epoch end

  /** The id of a packet's order, made of its key while it is pending. */
  function IdOf(p: RollappPacket): bytes { KeyOf(p.(status := Pending)) }

  /** No pending packet shares its fields with a finalized one, so no open order is lost with the latter. */
  lemma PendingTwinAbsent(env: Env, s: State, k: bytes)
    requires ValidEnv(env) && Keyed(s.packets) && AllOk(env, s.packets) && Alone(s.packets)
             && Tracking(s.packets, s.orders)
    requires k in s.packets && s.packets[k].status == Finalized
    ensures (Pending, KeyOf(s.packets[k].(status := Pending))) !in s.orders
  {
    var p := s.packets[k];
    var id := KeyOf(p.(status := Pending));
    if (Pending, id) in s.orders {
      var q := s.packets[id];
      KeyOfInjective(p.(status := Pending), q);
      SameFieldsSameSlot(env, p, q);
    }
  }

  lemma DeleteFacts(env: Env, s: State, k: bytes)
    requires ValidEnv(env) && Inv(env, s) && k in s.packets && s.packets[k].status == Finalized
    ensures KeyOf(s.packets[k]) == k && s.packets[k].packet.data.Parses() && (Pending, k) !in s.orders
    ensures (Pending, KeyOf(s.packets[k].(status := Pending))) !in s.orders
  {
    PendingTwinAbsent(env, s, k);
  }

  lemma DeleteEffect(env: Env, s: State, k: bytes)
    requires ValidEnv(env) && Inv(env, s) && k in s.packets && s.packets[k].status == Finalized
    ensures s.packets[k].packet.data.Parses()
    ensures var t := Delete(s, s.packets[k]);
            && t == s.(packets := s.packets - {k}, index := s.index - {(PayeeOf(s.packets[k]), k)},
                       orders := s.orders - {(Finalized, IdOf(s.packets[k]))})
            && OnlyDropped(s.orders, t.orders, k)
  {
    hide Inv, KeyOf;
    DeleteFacts(env, s, k);
    var id := IdOf(s.packets[k]);
    assert s.orders - {(Pending, id), (Finalized, id)} == s.orders - {(Finalized, id)};
  }

  lemma DeleteKeepsInv(env: Env, s: State, k: bytes)
    requires ValidEnv(env) && Inv(env, s) && k in s.packets && s.packets[k].status == Finalized
    ensures Inv(env, Delete(s, s.packets[k]))
  {
    hide Delete, KeyOf;
    var t := Delete(s, s.packets[k]);
    DeleteEffect(env, s, k);
    DropKeepsStore(env, s.packets, k);
    DropKeepsGuards(s, k);
    DropPending(s.packets, s.orders, k);
    FewerPending(s, t.packets, t.index, t.orders, k, PayeeOf(s.packets[k]));
  }

  lemma DropKeepsGuards(s: State, k: bytes)
    requires Guarded(s.packets, s.ibc) && Waiting(s.packets, s.log) && FinalizedLate(s.packets, s.finalized)
             && Unacked(s.packets, s.ibc)
    ensures var m := s.packets - {k};
            Guarded(m, s.ibc) && Waiting(m, s.log) && FinalizedLate(m, s.finalized) && Unacked(m, s.ibc)
  {
  }

  lemma {:induction false} DeleteAllKeepsInv(env: Env, s: State, ks: seq<bytes>)
    requires ValidEnv(env) && Inv(env, s) && Ascending(ks)
    requires forall i :: 0 <= i < |ks| ==> ks[i] in s.packets && s.packets[ks[i]].status == Finalized
    ensures AllParse(Lookup(s.packets, ks)) && Inv(env, DeleteAll(s, Lookup(s.packets, ks)))
    decreases |ks|
  {
    hide Inv, Delete;
    if ks != [] {
      DeleteEffect(env, s, ks[0]);
      DeleteKeepsInv(env, s, ks[0]);
      TailStays(s.packets, ks);
      DeleteAllKeepsInv(env, Delete(s, s.packets[ks[0]]), ks[1..]);
    }
  }

  lemma FinalizedKeysAreFinalized(s: State)
    requires Keyed(s.packets)
    ensures forall k :: k in FinalizedKeys(s) <==> k in s.packets && s.packets[k].status == Finalized
  {
    hide KeyOf, StatusPrefix, PrefixEnd;
    forall k | k in s.packets ensures k in FinalizedKeys(s) <==> s.packets[k].status == Finalized {
      PrefixEndIsExact(StatusPrefix(Finalized), k);
      KeyTellsStatus(s.packets[k], Finalized);
    }
  }

  lemma BatchKeepsInv(env: Env, s: State)
    requires ValidEnv(env) && Inv(env, s)
    ensures AllParse(FirstBatch(s)) && Inv(env, DeleteAll(s, FirstBatch(s)))
  {
    BatchKeys(s);
    hide Inv;
    DeleteAllKeepsInv(env, s, Take(FinalizedKeys(s), BATCH));
  }

  lemma BatchKeys(s: State)
    requires Keyed(s.packets)
    ensures var ks := Take(FinalizedKeys(s), BATCH);
            && |ks| <= BATCH && Ascending(ks)
            && forall i :: 0 <= i < |ks| ==> ks[i] in s.packets && s.packets[ks[i]].status == Finalized
  {
    hide KeyOf, StatusPrefix, PrefixEnd;
    FinalizedKeysAreFinalized(s);
    var ks := Take(FinalizedKeys(s), BATCH);
    assert forall i :: 0 <= i < |ks| ==> ks[i] == FinalizedKeys(s)[i];
    assert forall i :: 0 <= i < |ks| ==> ks[i] in FinalizedKeys(s);
  }

  lemma {:induction false} EpochKeepsInv(env: Env, s: State, n: nat)
    requires ValidEnv(env) && Inv(env, s)
    ensures EpochRounds(s, n).Some? && Inv(env, EpochRounds(s, n).value)
    decreases n
  {
    hide Inv, FirstBatch, DeleteAll, AllParse;
    BatchKeepsInv(env, s);
    if n > 0 && FirstBatch(s) != [] { EpochKeepsInv(env, DeleteAll(s, FirstBatch(s)), n - 1); }
  }

  // ---------------------------------------------------------------- runs

  lemma StepKeepsInv(env: Env, s: State, step: Step)
    requires ValidEnv(env) && Inv(env, s)
    ensures Inv(env, Apply(env, s, step))
  {
    hide Inv, SendTx, RecvTx, OutcomeTx, RaiseHeight;
    match step
    case SendStep(p) => SendKeepsInv(env, s, p);
    case RecvStep(p, h, relayer, o) => RecvKeepsInv(env, s, p, h, relayer, o);
    case AckStep(p, ack, h, relayer, o) => OutcomeKeepsInv(env, s, OnAck, p, ack, h, relayer, o);
    case TimeoutStep(p, h, relayer, o) => OutcomeKeepsInv(env, s, OnTimeout, p, [], h, relayer, o);
    case FulfillStep(id, src, who, ok) => FulfillKeepsInv(env, s, id, src, who, ok);
    case FinalizeStep(key, v) => FinalizeKeepsInv(env, s, key, v);
    case ForkStep(r, h) => ForkKeepsInv(env, s, r, h);
    case EpochStep(limit) => EpochKeepsInv(env, s, RoundsFor(limit));
    case HeightStep(r, h) => RaiseKeepsInv(env, s, r, h);
  }

  lemma GenesisInv(env: Env)
    ensures Inv(env, GENESIS)
  {
  }

  /** Along every run of every length. */
  lemma {:induction false} RunKeepsInv(env: Env, steps: seq<Step>)
    requires ValidEnv(env)
    ensures Inv(env, Run(env, steps))
  {
    GenesisInv(env);
    hide Inv, Apply;
    if steps != [] {
      RunKeepsInv(env, steps[..|steps| - 1]);
      StepKeepsInv(env, Run(env, steps[..|steps| - 1]), steps[|steps| - 1]);
    }
  }
}
