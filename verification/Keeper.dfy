/** The delayed-ack keeper and middleware as they run: a store that methods update, and rollapp packets in memory whose
    IBC packet is shared by every copy of the struct. Each method is tied to the value-level step it performs. */
module KeeperModel {
  import opened Bytes
  import opened SortedStore
  import opened Packets
  import opened PacketKey
  import opened Hub
  import opened HubInvariant
  import opened HubEpoch
  import opened HubIndex
  import opened Listing

  /** A heap-allocated IBC packet; struct copies share it. */
  class PacketCell {
    var v: Packet
    constructor (p: Packet)
      ensures v == p
    {
      v := p;
    }
  }

  /** A rollapp packet in memory. Copying the value copies every field but shares the cell. */
  datatype Ref = Ref(rollappId: Text, cell: PacketCell, acknowledgement: bytes, status: Status, proofHeight: u64,
                     relayer: bytes, ptype: PacketType, error: Text, originalTarget: Text)

  /** The value that marshalling the struct would store. */
  function Stored(r: Ref): RollappPacket
    reads r.cell
  {
    RollappPacket(r.rollappId, r.cell.v, r.acknowledgement, r.status, r.proofHeight, r.relayer, r.ptype, r.error,
      r.originalTarget)
  }

  /** Unmarshalling allocates a packet of its own. */
  method Unmarshal(p: RollappPacket) returns (r: Ref)
    ensures fresh(r.cell) && Stored(r) == p
  {
    var cell := new PacketCell(p.packet);
    r := Ref(p.rollappId, cell, p.acknowledgement, p.status, p.proofHeight, p.relayer, p.ptype, p.error,
      p.originalTarget);
  }

  /** RestoreOriginalTransferTarget: the receiver is a copy of the struct, but the write goes to the shared packet. */
  method RestoreOriginalTransferTarget(r: Ref) returns (q: Ref)
    requires Stored(r).packet.data.Parses()
    modifies r.cell
    ensures q == r
    ensures Stored(r) == Restore(old(Stored(r)))
  {
    var x := r.cell.v.data.transfer;
    if r.originalTarget != [] {
      match r.ptype {
        case OnRecv => x := x.(receiver := r.originalTarget);
        case OnAck => x := x.(sender := r.originalTarget);
        case OnTimeout => x := x.(sender := r.originalTarget);
        case Undefined =>
      }
      r.cell.v := r.cell.v.(data := Canonical(x));
    }
    q := r;
  }

  class Keeper {
    const env: Env
    var packets: map<bytes, RollappPacket>
    var index: set<(Text, bytes)>
    var orders: map<(Status, bytes), Order>
    var ibc: Ibc
    var finalized: map<Text, u64>
    var log: seq<Event>

    function View(): (s: State)
      reads this
    {
      State(packets, index, orders, ibc, finalized, log)
    }

    constructor (env: Env)
      ensures this.env == env && View() == GENESIS
    {
      this.env := env;
      packets, index, orders, ibc, finalized, log := map[], {}, map[], Ibc({}, map[], map[], map[]), map[], [];
    }

    /** Going back to a saved context: a failed transaction, or a cached context that is thrown away. */
    method Rollback(s: State)
      modifies this
      ensures View() == s
    {
      packets, index, orders, ibc, finalized, log := s.packets, s.index, s.orders, s.ibc, s.finalized, s.log;
    }

    // -------------------------------------------------------------- packet store

    method SetRollappPacket(r: Ref)
      modifies this`packets
      ensures View() == SetPacket(old(View()), old(Stored(r)))
    {
      packets := packets[KeyOf(Stored(r)) := Stored(r)];
    }

    method GetRollappPacket(key: bytes) returns (r: Option<Ref>)
      ensures r.Some? <==> key in packets
      ensures r.Some? ==> fresh(r.value.cell) && Stored(r.value) == packets[key]
    {
      if key !in packets { return None; }
      var p := Unmarshal(packets[key]);
      r := Some(p);
    }

    method UpdateRollappPacketTransferAddress(key: bytes, newRecipient: Text) returns (ok: bool)
      modifies this`packets, this`index
      ensures ok <==> Retarget(old(View()), key, newRecipient).Some?
      ensures View() == Tx(old(View()), Retarget(old(View()), key, newRecipient))
    {
      var got := GetRollappPacket(key);
      if got.None? { return false; }
      var p := got.value;
      if p.status != Pending || !p.cell.v.data.Parses() { return false; }
      var x := p.cell.v.data.transfer;
      var recipient, sender, original := x.receiver, x.sender, [];
      match p.ptype {
        case OnRecv => original, recipient := recipient, newRecipient;
        case OnAck => original, sender := sender, newRecipient;
        case OnTimeout => original, sender := sender, newRecipient;
        case Undefined =>
      }
      p.cell.v := p.cell.v.(data := Canonical(Transfer(x.denom, x.amount, sender, recipient, x.memo)));
      p := p.(originalTarget := original);
      assert Stored(p) == Redirect(packets[key], newRecipient);
      index := index - {(original, key)};
      index := index + {(newRecipient, KeyOf(Stored(p)))};
      SetRollappPacket(p);
      ok := true;
    }

    /** AfterPacketStatusUpdated of the eIBC hooks. */
    method AfterPacketStatusUpdated(oldKey: bytes, newKey: bytes)
      modifies this`orders
      ensures View() == FinalizeOrder(old(View()), oldKey, newKey)
    {
      if (Pending, oldKey) in orders {
        var o := orders[(Pending, oldKey)].(trackingKey := newKey);
        orders := orders - {(Pending, oldKey)};
        orders := orders[(Finalized, oldKey) := o];
      }
    }

    method UpdateRollappPacketAfterFinalization(r: Ref) returns (ok: bool)
      modifies this`packets, this`index, this`orders
      ensures ok <==> MoveToFinalized(old(View()), old(Stored(r))).Some?
      ensures View() == Tx(old(View()), MoveToFinalized(old(View()), old(Stored(r))))
    {
      if r.status != Pending || !r.cell.v.data.Parses() { return false; }
      var x := r.cell.v.data.transfer;
      var oldKey := KeyOf(Stored(r));
      match r.ptype {
        case OnRecv => index := index - {(x.receiver, oldKey)};
        case OnAck => index := index - {(x.sender, oldKey)};
        case OnTimeout => index := index - {(x.sender, oldKey)};
        case Undefined =>
      }
      packets := packets - {oldKey};
      var q := r.(status := Finalized);
      assert Stored(q) == Stored(r).(status := Finalized);
      SetRollappPacket(q);
      AfterPacketStatusUpdated(oldKey, KeyOf(Stored(q)));
      ok := true;
    }

    /** DeleteRollappPacket; MustGetTransferPacketData demands data that parses. */
    method DeleteRollappPacket(r: Ref)
      requires Stored(r).packet.data.Parses()
      modifies this`packets, this`index, this`orders
      ensures View() == Delete(old(View()), old(Stored(r)))
    {
      var key := KeyOf(Stored(r));
      packets := packets - {key};
      var x := r.cell.v.data.transfer;
      var pendingAddr := [];
      match r.ptype {
        case OnRecv => pendingAddr := x.receiver;
        case OnAck => pendingAddr := x.sender;
        case OnTimeout => pendingAddr := x.sender;
        case Undefined =>
      }
      index := index - {(pendingAddr, key)};
      var q := r.(status := Pending);
      assert Stored(q) == Stored(r).(status := Pending);
      var id := KeyOf(Stored(q));
      orders := orders - {(Pending, id)};
      orders := orders - {(Finalized, id)};
      assert orders == old(orders) - {(Pending, id), (Finalized, id)};
    }

    /** ListRollappPackets: ranges in turn, filtered, cut at the limit. Every packet of the list owns its IBC packet,
        so the list is one of values; a caller that goes on to change a packet unmarshals it first. */
    method ListRollappPackets(spans: seq<Span>, f: RollappPacket -> bool, limit: int) returns (list: seq<RollappPacket>)
      ensures list == Listing.List(packets, spans, f, limit)
    {
      hide SpanKeys, Filter, Matches, Listing.List, Lookup;
      list := [];
      var n := 0;
      NoMatches(packets, spans, f);
      while n < |spans|
        invariant 0 <= n <= |spans|
        invariant list == Matches(packets, spans[..n], f)
        invariant limit > 0 ==> |list| < limit
      {
        var ks := SpanKeys(packets, spans[n]);
        ghost var before := list;
        ghost var ps := Lookup(packets, ks);
        var i := 0;
        ScanStart(before, ps, f);
        while i < |ks|
          invariant 0 <= i <= |ks| == |ps|
          invariant list == before + Filter(ps[..i], f)
          invariant limit > 0 ==> |list| < limit
        {
          var val := packets[ks[i]];
          ScanStep(list, before, ps, i, f);
          if f(val) {
            list := list + [val];
            if limit > 0 && |list| == limit {
              ScanDone(packets, spans, n, i + 1, f, limit);
              return;
            }
          }
          i := i + 1;
        }
        assert ps[..|ps|] == ps;
        MatchesSnoc(packets, spans, n, f);
        n := n + 1;
      }
      ScanEnd(packets, spans, n, f, limit);
    }

    // -------------------------------------------------------------- middleware

    /** savePacket. */
    method SavePacket(p: Packet, r: Text, h: u64, relayer: bytes, t: PacketType, ack: bytes) returns (ref: Ref)
      requires p.data.Parses()
      modifies this`packets, this`index, this`log
      ensures fresh(ref.cell) && Stored(ref) == NewPacket(r, p, ack, h, relayer, t)
      ensures var q := Stored(ref);
              View() == if t == Undefined then Log(SetPacket(old(View()), q), Saved(KeyOf(q), CallOf(q)))
                        else Save(old(View()), q)
    {
      var cell := new PacketCell(p);
      ref := Ref(r, cell, ack, Pending, h, relayer, t, [], []);
      match t {
        case OnRecv => index := index + {(p.data.transfer.receiver, KeyOf(Stored(ref)))};
        case OnAck => index := index + {(p.data.transfer.sender, KeyOf(Stored(ref)))};
        case OnTimeout => index := index + {(p.data.transfer.sender, KeyOf(Stored(ref)))};
        case Undefined =>
      }
      SetRollappPacket(ref);
      log := log + [Saved(KeyOf(Stored(ref)), CallOf(Stored(ref)))];
    }

    /** The module below is called: its effect is the delivery it logs. */
    method Callback(r: Option<Text>, h: u64, c: Call, accepted: bool)
      modifies this`log
      ensures View() == DeliverNow(old(View()), r, h, c, accepted)
    {
      log := log + [Delivered(SideOf(c.ptype), SlotOf(c.ptype, c.packet), r, h, c, accepted)];
    }

    /** EIBCDemandOrderHandler: false is an error. */
    method DemandOrderHandler(ref: Ref, m: Market, hasHook: bool) returns (ok: bool)
      requires Stored(ref).packet.data.Parses()
      modifies this`orders
      ensures ok <==> !m.Rejected?
      ensures View() == if m.NewOrder? then AddOrder(old(View()), Stored(ref), hasHook) else old(View())
    {
      if m.Rejected? { return false; }
      if m.NewOrder? {
        var key := KeyOf(Stored(ref));
        orders := orders[(Pending, key) := Order(key, PayeeOf(Stored(ref)), [], hasHook)];
      }
      ok := true;
    }

    method OnRecvPacket(p: Packet, h: u64, relayer: bytes, o: Outcome) returns (ack: AckOut)
      modifies this
      ensures (View(), ack) == Hub.OnRecvPacket(env, old(View()), p, h, relayer, o)
    {
      var call := Call(OnRecv, p, [], relayer);
      match GetValidTransfer(env, p.data, DstEnd(p)) {
        case Invalid => return ErrorAck;
        case Plain =>
          Callback(None, h, call, o.ack != ErrorAck);
          return o.ack;
        case OfRollapp(r) =>
          if HeightFinalized(View(), r, h) {
            Callback(Some(r), h, call, o.ack != ErrorAck);
            return o.ack;
          }
          var outer := View();
          Callback(Some(r), h, call, o.ack != ErrorAck);  // on a cached context
          Rollback(outer);
          if o.ack != SuccessAck { return ErrorAck; }
          var ref := SavePacket(p, r, h, relayer, OnRecv, []);
          var ok := DemandOrderHandler(ref, o.market, o.market.NewOrder? && o.market.hasHook);
          return if ok then NoAck else ErrorAck;
      }
    }

    /** OnAcknowledgementPacket and OnTimeoutPacket; false is an error, after which the caller rolls back. */
    method OnOutcomePacket(t: PacketType, p: Packet, ack: bytes, h: u64, relayer: bytes, o: Outcome) returns (ok: bool)
      requires IsSent(t)
      modifies this
      ensures ok <==> Hub.OnOutcomePacket(env, old(View()), t, p, ack, h, relayer, o).Some?
      ensures ok ==> View() == Hub.OnOutcomePacket(env, old(View()), t, p, ack, h, relayer, o).value
    {
      if t == OnAck && o.ackForm == Unreadable { return false; }
      var sentAck := if t == OnAck then ack else [];
      var call := Call(t, p, sentAck, relayer);
      match GetValidTransfer(env, p.data, SrcEnd(p)) {
        case Invalid => return false;
        case Plain =>
          Callback(None, h, call, true);
          return o.callbackOk;
        case OfRollapp(r) =>
          if HeightFinalized(View(), r, h) {
            Callback(Some(r), h, call, true);
            return o.callbackOk;
          }
          var outer := View();
          Callback(Some(r), h, call, true);  // on a cached context
          Rollback(outer);
          if !o.callbackOk { return false; }
          var ref := SavePacket(p, r, h, relayer, t, sentAck);
          if t == OnAck && o.ackForm != AckForm.Error { return true; }
          ok := DemandOrderHandler(ref, o.market, false);
      }
    }

    // -------------------------------------------------------------- fulfilment

    /** AfterDemandOrderFulfilled: the completion hook first, then the new payee. */
    method AfterDemandOrderFulfilled(o: Order, receiver: Text, hookOk: bool) returns (ok: bool)
      modifies this`packets, this`index, this`log
      ensures var s := if o.hasHook then Log(old(View()), HookRan(o.trackingKey)) else old(View());
              && (ok <==> (o.hasHook ==> hookOk) && Retarget(s, o.trackingKey, receiver).Some?)
              && (ok ==> View() == Retarget(s, o.trackingKey, receiver).value)
    {
      if o.hasHook {
        log := log + [HookRan(o.trackingKey)];
        if !hookOk { return false; }
      }
      ok := UpdateRollappPacketTransferAddress(o.trackingKey, receiver);
    }

    /** FulfillOrder as a transaction. */
    method FulfillOrder(id: bytes, fundsSource: Text, fulfiller: Text, hookOk: bool)
      modifies this
      ensures View() == Apply(env, old(View()), FulfillStep(id, fundsSource, fulfiller, hookOk))
    {
      hide KeyOf;
      if (Pending, id) !in orders || fulfiller == [] || fundsSource == [] { return; }
      var o := orders[(Pending, id)];
      if o.IsFulfilled() { return; }
      var got := GetRollappPacket(o.trackingKey);
      if got.None? || HeightFinalized(View(), got.value.rollappId, got.value.proofHeight) { return; }
      var saved := View();
      o := o.(fulfiller := fulfiller);
      orders := orders[(Pending, id) := o];
      var ok := AfterDemandOrderFulfilled(o, fundsSource, hookOk);
      if !ok { Rollback(saved); }
    }

    // -------------------------------------------------------------- finalization

    /** finalizeCompletionHook. */
    method FinalizeCompletionHook(r: Ref, v: Verdict) returns (ok: bool)
      modifies this`log
      ensures (View(), ok) == FinalizeHook(env, old(View()), Stored(r), v)
    {
      var id := KeyOf(Stored(r));
      if (Pending, id) !in orders { return true; }
      var o := orders[(Pending, id)];
      if o.IsFulfilled() || !o.hasHook { return true; }
      if GetValidTransfer(env, r.cell.v.data, DstEnd(r.cell.v)).Invalid? { return false; }
      log := log + [HookRan(id)];
      return v.hookOk;
    }

    /** writeRecvAck under ApplyFuncIfNoError: a failure discards the store writes, not the write to the packet. */
    method WriteRecvAck(r: Ref, v: Verdict) returns (ok: bool)
      requires Stored(r).packet.data.Parses()
      modifies this`ibc, r.cell
      ensures Stored(r) == if v.channelFound then Restore(old(Stored(r))) else old(Stored(r))
      ensures var slot := SlotOf(OnRecv, Stored(r).packet);
              && (ok <==> v.channelFound && slot !in old(ibc.acks) && v.ackAccepted)
              && View() == if ok then WriteAck(old(View()), slot, Stored(r).packet, v.ack == SuccessAck)
                           else old(View())
    {
      if !v.channelFound { return false; }
      var q := RestoreOriginalTransferTarget(r);
      var slot := SlotOf(OnRecv, q.cell.v);
      if slot in ibc.acks || !v.ackAccepted { return false; }
      ibc := ibc.(acks := ibc.acks[slot := Acked(q.cell.v, v.ack == SuccessAck)]);
      ok := true;
    }

    /** finalizeOnRecv. */
    method FinalizeOnRecv(r: Ref, v: Verdict) returns (ok: bool)
      requires Stored(r).packet.data.Parses()
      modifies this`log, this`ibc, r.cell
      ensures (View(), Stored(r), ok) == Hub.FinalizeOnRecv(env, old(View()), old(Stored(r)), v)
    {
      hide KeyOf;
      Callback(Some(r.rollappId), r.proofHeight, CallOf(Stored(r)), v.ack != ErrorAck);
      if v.ack != NoAck {
        ok := WriteRecvAck(r, v);
        if !ok { return false; }
      }
      ok := FinalizeCompletionHook(r, v);
    }

    /** finalizeRollappPacket: works on its own copy of the struct, and on the shared IBC packet. */
    method FinalizePacket(r0: Ref, v: Verdict) returns (ok: bool)
      requires Stored(r0).packet.data.Parses()
      modifies this, r0.cell
      ensures var (s1, q, good) := FinalizeCallback(env, old(View()), old(Stored(r0)), v);
              var res := MoveToFinalized(s1, if good then q else q.(error := v.errorText));
              (ok <==> res.Some?) && (ok ==> View() == res.value)
    {
      hide KeyOf, FinalizeHook;
      var r := r0;
      var good := true;
      ghost var before := View();
      match r.ptype {
        case OnRecv => good := FinalizeOnRecv(r, v);
        case OnAck =>
          good := v.callbackOk;
          Callback(Some(r.rollappId), r.proofHeight, Call(OnAck, r.cell.v, r.acknowledgement, r.relayer), good);
        case OnTimeout =>
          good := v.callbackOk;
          Callback(Some(r.rollappId), r.proofHeight, Call(OnTimeout, r.cell.v, [], r.relayer), good);
        case Undefined =>
      }
      assert (View(), Stored(r), good) == FinalizeCallback(env, before, old(Stored(r0)), v);
      if !good { r := r.(error := v.errorText); }
      ok := UpdateRollappPacketAfterFinalization(r);
    }

    /** FinalizeRollappPacket as the transactions MsgFinalizePacket and MsgFinalizePacketByPacketKey run it: any error
        or panic takes the whole transaction back. */
    method FinalizeRollappPacket(key: bytes, v: Verdict)
      modifies this
      ensures View() == Apply(env, old(View()), FinalizeStep(key, v))
    {
      hide KeyOf, FinalizeCallback;
      var got := GetRollappPacket(key);
      if got.None? { return; }
      var p := got.value;
      if !HeightFinalized(View(), p.rollappId, p.proofHeight) { return; }
      if !p.cell.v.data.Parses() { return; }
      var saved := View();
      var ok := FinalizePacket(p, v);
      if !ok { Rollback(saved); }
    }

    // -------------------------------------------------------------- hard fork

    /** One round of OnHardFork; the packet is a copy of its own. */
    method RevertPacket(p: RollappPacket)
      requires p.packet.data.Parses()
      modifies this
      ensures View() == Revert(old(View()), p)
    {
      hide KeyOf;
      var rp := Unmarshal(p);
      if rp.ptype == OnAck || rp.ptype == OnTimeout {
        var q := RestoreOriginalTransferTarget(rp);
        var source := Slot(Endpoint(rp.cell.v.srcPort, rp.cell.v.srcChan), rp.cell.v.sequence);
        ibc := ibc.(commitments := ibc.commitments[source := CommitPacket(q.cell.v)]);
      } else {
        var target := Slot(Endpoint(rp.cell.v.dstPort, rp.cell.v.dstChan), rp.cell.v.sequence);
        ibc := ibc.(receipts := ibc.receipts - {target});
      }
      DeleteRollappPacket(rp);
    }

    /** OnHardFork: the list is taken before the loop. A packet whose data does not parse panics, and the block that
        forks the rollapp keeps nothing of it. */
    method OnHardFork(r: Text, lastValid: u64)
      modifies this
      ensures View() == Apply(env, old(View()), ForkStep(r, lastValid))
    {
      hide ForkKeys, KeyOf, Revert, RevertAll, Lookup, FromHeight, Bypass, Listing.List;
      var list := ListRollappPackets([FromHeight(r, (lastValid + 1) % U64_SIZE)], Bypass, 0);
      ForkList(View(), r, lastValid);
      var saved := View();
      RevertNone(saved);
      var i := 0;
      while i < |list|
        invariant 0 <= i <= |list| && AllParse(list[..i])
        invariant View() == RevertAll(saved, list[..i])
      {
        if !list[i].packet.data.Parses() {
          Rollback(saved);
          return;
        }
        assert list[..i + 1] == list[..i] + [list[i]];
        RevertSnoc(saved, list[..i], list[i]);
        RevertPacket(list[i]);
        i := i + 1;
      }
      assert list[..i] == list;
    }

    // -------------------------------------------------------------- epoch end

    /** The inner loop of AfterEpochEnd. */
    method DeletePackets(list: seq<RollappPacket>)
      requires AllParse(list)
      modifies this
      ensures View() == DeleteAll(old(View()), list)
    {
      hide Delete, KeyOf;
      ghost var s0 := View();
      var i := 0;
      while i < |list|
        invariant 0 <= i <= |list|
        invariant DeleteAll(View(), list[i..]) == DeleteAll(s0, list)
      {
        assert list[i..][1..] == list[i + 1..] && list[i..][0] == list[i];
        var packet := Unmarshal(list[i]);
        DeleteRollappPacket(packet);
        i := i + 1;
      }
    }

    /** AfterEpochEnd: batches of finalized packets, until none is left or the limit is reached. */
    method AfterEpochEnd(identifier: Text, paramIdentifier: Text, limit: int)
      requires ValidEnv(env) && Inv(env, View())
      modifies this
      ensures View() == if identifier == paramIdentifier then Apply(env, old(View()), EpochStep(limit)) else old(View())
    {
      hide Inv, KeyOf, FirstBatch, DeleteAll, FinalizedKeys, Progress, AllParse, EpochRounds, OfStatus, Bypass,
        Apply, RoundsFor, Listing.List, ValidEnv;
      if identifier != paramIdentifier { return; }
      var count: nat := 0;
      ghost var s0 := View();
      ghost var rounds: nat := 0;
      NoRounds(s0, limit);
      var toDelete := ListRollappPackets([OfStatus(Finalized)], Bypass, BATCH);
      BatchList(View());
      while |toDelete| > 0
        invariant toDelete == FirstBatch(View()) && Inv(env, View())
        invariant Progress(s0, View(), limit, rounds, count)
        decreases |FinalizedKeys(View())|
      {
        RoundProgress(env, s0, View(), limit, rounds, count);
        ghost var t := DeleteAll(View(), toDelete);
        count := count + |toDelete|;
        DeletePackets(toDelete);
        assert View() == t;
        if count >= limit { return; }
        rounds := rounds + 1;
        BatchList(View());
        toDelete := ListRollappPackets([OfStatus(Finalized)], Bypass, BATCH);
      }
      NoMoreRounds(env, s0, View(), limit, rounds, count);
    }

    // -------------------------------------------------------------- queries

    /** GetPendingPacketsByAddress: stops at the first entry without a packet. */
    method GetPendingPacketsByAddress(a: Text) returns (r: Option<seq<RollappPacket>>)
      ensures r == QueryByAddress(View(), a)
    {
      var ks := Keys(Listed(View(), a));
      var found := [];
      var i := 0;
      while i < |ks|
        invariant 0 <= i <= |ks|
        invariant forall k :: k in ks[..i] ==> k in packets
        invariant found == Lookup(packets, ks[..i])
      {
        if ks[i] !in packets {
          assert ks[i] in ks;
          return None;
        }
        found := found + [packets[ks[i]]];
        LookupSnoc(packets, ks, i);
        i := i + 1;
      }
      assert ks[..i] == ks;
      r := Some(found);
    }
  }

  lemma RevertNone(s: State)
    ensures RevertAll(s, []) == s
  {
  }

  lemma {:induction false} RevertSnoc(s: State, ps: seq<RollappPacket>, p: RollappPacket)
    requires AllParse(ps) && p.packet.data.Parses()
    ensures AllParse(ps + [p]) && RevertAll(s, ps + [p]) == Revert(RevertAll(s, ps), p)
    decreases |ps|
  {
    hide Revert;
    if ps == [] {
      assert ps + [p] == [p] && [p][1..] == [];
    } else {
      assert (ps + [p])[1..] == ps[1..] + [p];
      RevertSnoc(Revert(s, ps[0]), ps[1..], p);
    }
  }

  /** The list OnHardFork asks for. */
  lemma ForkList(s: State, r: Text, lastValid: u64)
    ensures Listing.List(s.packets, [FromHeight(r, (lastValid + 1) % U64_SIZE)], Bypass, 0) ==
            Lookup(s.packets, ForkKeys(s, r, lastValid))
  {
    hide Lookup, KeyOf;
    SingleSpan(s.packets, FromHeight(r, ForkFrom(lastValid)));
    ForkScan(s, r, lastValid);
  }

  /** The list AfterEpochEnd asks for. */
  lemma BatchList(s: State)
    ensures Listing.List(s.packets, [OfStatus(Finalized)], Bypass, BATCH) == FirstBatch(s)
  {
    hide Lookup, KeyOf, OfStatus, RangeKeys;
    FilterBypass(SpanPackets(s.packets, OfStatus(Finalized)));
    ForkScan(s, [], 0);
    assert Matches(s.packets, [OfStatus(Finalized)][1..], Bypass) == [];
    LookupTake(s.packets, FinalizedKeys(s), BATCH);
  }

  lemma LookupTake(m: Store, ks: seq<bytes>, n: nat)
    requires forall k :: k in ks ==> k in m
    ensures forall k :: k in Take(ks, n) ==> k in m
    ensures Lookup(m, Take(ks, n)) == Take(Lookup(m, ks), n)
  {
  }

  /** How far the epoch loop has come after some rounds: what is left to do, and what the count tells. */
  ghost predicate Progress(s0: State, s: State, limit: int, rounds: nat, count: nat) {
    && rounds <= RoundsFor(limit)
    && EpochRounds(s, RoundsFor(limit) - rounds) == EpochRounds(s0, RoundsFor(limit))
    && (FirstBatch(s) != [] ==> count == BATCH * rounds && rounds < RoundsFor(limit))
  }

  lemma NoRounds(s: State, limit: int)
    ensures Progress(s, s, limit, 0, 0)
  {
    RoundsMeetLimit(limit);
  }

  lemma NoMoreRounds(env: Env, s0: State, s: State, limit: int, rounds: nat, count: nat)
    requires Progress(s0, s, limit, rounds, count) && FirstBatch(s) == []
    ensures Apply(env, s0, EpochStep(limit)) == s
  {
  }

  lemma RoundProgress(env: Env, s0: State, s: State, limit: int, rounds: nat, count: nat)
    requires ValidEnv(env) && Inv(env, s) && Progress(s0, s, limit, rounds, count) && FirstBatch(s) != []
    ensures AllParse(FirstBatch(s))
    ensures var t, n := DeleteAll(s, FirstBatch(s)), count + |FirstBatch(s)|;
            && Inv(env, t) && |FinalizedKeys(t)| < |FinalizedKeys(s)|
            && (n >= limit ==> Apply(env, s0, EpochStep(limit)) == t)
            && (n < limit ==> Progress(s0, t, limit, rounds + 1, n))
  {
    hide Inv, FinalizedKeys, DeleteAll, AllParse, FirstBatch, KeyOf, RoundsFor;
    BatchClears(env, s);
    BatchIsPrefix(s);
    var t := DeleteAll(s, FirstBatch(s));
    RestKeys(env, s, t);
    BatchIsPrefix(t);
    RoundsMeetLimit(limit);
  }

  lemma LookupSnoc(m: Store, ks: seq<bytes>, i: nat)
    requires i < |ks| && (forall k :: k in ks[..i] ==> k in m) && ks[i] in m
    ensures forall k :: k in ks[..i + 1] ==> k in m
    ensures Lookup(m, ks[..i + 1]) == Lookup(m, ks[..i]) + [m[ks[i]]]
  {
    assert ks[..i + 1] == ks[..i] + [ks[i]];
  }

  lemma NoMatches(m: Store, spans: seq<Span>, f: RollappPacket -> bool)
    ensures Matches(m, spans[..0], f) == []
  {
  }

  lemma ScanStart(before: seq<RollappPacket>, ps: seq<RollappPacket>, f: RollappPacket -> bool)
    ensures before == before + Filter(ps[..0], f)
  {
  }

  lemma ScanStep(list: seq<RollappPacket>, before: seq<RollappPacket>, ps: seq<RollappPacket>, i: nat,
                 f: RollappPacket -> bool)
    requires i < |ps| && list == before + Filter(ps[..i], f)
    ensures (if f(ps[i]) then list + [ps[i]] else list) == before + Filter(ps[..i + 1], f)
  {
    hide Filter;
    FilterSnoc(ps, i, f);
  }

  lemma ScanDone(m: Store, spans: seq<Span>, n: nat, i: nat, f: RollappPacket -> bool, limit: int)
    requires n < |spans| && i <= |SpanPackets(m, spans[n])| && limit > 0
    requires |Matches(m, spans[..n], f) + Filter(SpanPackets(m, spans[n])[..i], f)| == limit
    ensures Matches(m, spans[..n], f) + Filter(SpanPackets(m, spans[n])[..i], f) == Listing.List(m, spans, f, limit)
  {
    hide SpanPackets, Filter, Matches;
    PrefixOfMatches(m, spans, n, i, f);
  }

  lemma ScanEnd(m: Store, spans: seq<Span>, n: nat, f: RollappPacket -> bool, limit: int)
    requires n == |spans| && (limit > 0 ==> |Matches(m, spans[..n], f)| < limit)
    ensures Matches(m, spans[..n], f) == Listing.List(m, spans, f, limit)
  {
    hide Matches;
    assert spans[..n] == spans;
  }

  lemma FilterSnoc(ps: seq<RollappPacket>, i: nat, f: RollappPacket -> bool)
    requires i < |ps|
    ensures Filter(ps[..i + 1], f) == Filter(ps[..i], f) + if f(ps[i]) then [ps[i]] else []
  {
    assert ps[..i + 1] == ps[..i] + [ps[i]];
    FilterAppend(ps[..i], [ps[i]], f);
    assert Filter([ps[i]], f) == if f(ps[i]) then [ps[i]] else [];
  }

  lemma MatchesSnoc(m: Store, spans: seq<Span>, n: nat, f: RollappPacket -> bool)
    requires n < |spans|
    ensures Matches(m, spans[..n + 1], f) == Matches(m, spans[..n], f) + Filter(SpanPackets(m, spans[n]), f)
  {
    hide SpanPackets;
    assert spans[..n + 1] == spans[..n] + [spans[n]];
    MatchesAppend(m, spans[..n], [spans[n]], f);
    assert Matches(m, [spans[n]][1..], f) == [];
  }

  /** What a scan has collected so far is how the whole listing starts. */
  lemma PrefixOfMatches(m: Store, spans: seq<Span>, n: nat, i: nat, f: RollappPacket -> bool)
    requires n < |spans| && i <= |SpanPackets(m, spans[n])|
    ensures Matches(m, spans[..n], f) + Filter(SpanPackets(m, spans[n])[..i], f) <= Matches(m, spans, f)
  {
    hide SpanPackets, Matches, Filter;
    var ps := SpanPackets(m, spans[n]);
    assert spans == spans[..n + 1] + spans[n + 1..];
    MatchesAppend(m, spans[..n + 1], spans[n + 1..], f);
    MatchesSnoc(m, spans, n, f);
    assert ps == ps[..i] + ps[i..];
    FilterAppend(ps[..i], ps[i..], f);
    IsPrefix(Matches(m, spans[..n], f), Filter(ps[..i], f), Filter(ps[i..], f), Matches(m, spans[n + 1..], f));
  }

  lemma IsPrefix<T>(a: seq<T>, b: seq<T>, c: seq<T>, d: seq<T>)
    ensures a + b <= a + (b + c) + d
  {
  }
}
