/** The hub's books: over every run each packet that ICS-04 has consumed is accounted for, exactly once. */
module HubBooks {
  import opened Bytes
  import opened Packets
  import opened PacketKey
  import opened Hub
  import opened HubInvariant
  import opened HubRuns
  import opened HubSafety
  import opened HubFork
  import opened HubEpoch
  import opened HubIndex
  import opened HubEffects

  // ---------------------------------------------------------------- the books

  /** A packet that is consumed was called back for, waits, or was received and acknowledged. */
  ghost predicate Accounted(m: Store, ibc: Ibc, log: seq<Event>) {
    forall side, slot :: Closed(ibc, side, slot) ==>
      !Untouched(log, side, slot) || !NonePending(m, side, slot) || (side == In && slot in ibc.acks)
  }

  ghost predicate WasAccepted(log: seq<Event>, slot: Slot) {
    exists i :: 0 <= i < |log| && Touches(log[i], In, slot) && log[i].accepted
  }

  /** An acknowledgement is one of success exactly if the module below accepted the packet. */
  ghost predicate AcksTell(ibc: Ibc, log: seq<Event>) {
    forall slot :: slot in ibc.acks ==> (ibc.acks[slot].ok <==> WasAccepted(log, slot))
  }

  /** A finalized order tracks the finalized packet it was made for. */
  ghost predicate Followed(m: Store, orders: Orders) {
    forall id :: (Finalized, id) in orders ==>
      var k := orders[(Finalized, id)].trackingKey;
      k in m && m[k].status == Finalized && IdOf(m[k]) == id
  }

  ghost predicate Books(s: State) {
    Accounted(s.packets, s.ibc, s.log) && AcksTell(s.ibc, s.log) && Followed(s.packets, s.orders)
  }

  // ---------------------------------------------------------------- packet messages

  lemma AppendTouches(log: seq<Event>, e: Event, side: Side, slot: Slot)
    ensures Untouched(log + [e], side, slot) <==> Untouched(log, side, slot) && !Touches(e, side, slot)
    ensures WasAccepted(log + [e], slot) <==> WasAccepted(log, slot) || (Touches(e, In, slot) && e.accepted)
  {
    assert (log + [e])[|log|] == e;
    assert forall i :: 0 <= i < |log| ==> (log + [e])[i] == log[i];
  }

  /** Nothing was called back by this event. */
  lemma Quiet(log: seq<Event>, e: Event)
    requires !e.Delivered?
    ensures forall side, slot :: Untouched(log + [e], side, slot) <==> Untouched(log, side, slot)
    ensures forall slot :: WasAccepted(log + [e], slot) <==> WasAccepted(log, slot)
  {
    forall side, slot ensures Untouched(log + [e], side, slot) <==> Untouched(log, side, slot) {
      AppendTouches(log, e, side, slot);
    }
    forall slot ensures WasAccepted(log + [e], slot) <==> WasAccepted(log, slot) {
      AppendTouches(log, e, In, slot);
    }
  }

  /** What waited goes on waiting, but for these slots. */
  lemma StillWaits(m: Store, m': Store, but: iset<(Side, Slot)>)
    requires forall l :: IsPending(m, l) ==>
               var p := m[l];
               || (SideOf(p.ptype), SlotFor(p)) in but
               || (IsPending(m', l) && SideOf(m'[l].ptype) == SideOf(p.ptype) && SlotFor(m'[l]) == SlotFor(p))
    ensures forall side, slot :: !NonePending(m, side, slot) && (side, slot) !in but ==> !NonePending(m', side, slot)
  {
    forall side, slot | !NonePending(m, side, slot) && (side, slot) !in but ensures !NonePending(m', side, slot) {
      var l :| IsPending(m, l) && SideOf(m[l].ptype) == side && SlotFor(m[l]) == slot;
      assert IsPending(m', l);
    }
  }

  lemma TurnedAwayKeeps(env: Env, s: State, t: State, c: Call)
    requires Inv(env, s) && Books(s) && c.ptype == OnRecv && Admits(env, s.ibc, c) && TurnedAway(s, t, c)
    ensures Books(t)
  {
    OpenIsUnseen(env, s, In, ConsumedSlot(c));
  }

  /** One more callback on the log. */
  lemma Called(log: seq<Event>, e: Event)
    ensures forall side, slot ::
              Untouched(log + [e], side, slot) <==> Untouched(log, side, slot) && !Touches(e, side, slot)
    ensures forall slot ::
              WasAccepted(log + [e], slot) <==> WasAccepted(log, slot) || (Touches(e, In, slot) && e.accepted)
  {
    forall side, slot
      ensures Untouched(log + [e], side, slot) <==> Untouched(log, side, slot) && !Touches(e, side, slot) {
      AppendTouches(log, e, side, slot);
    }
    forall slot
      ensures WasAccepted(log + [e], slot) <==> WasAccepted(log, slot) || (Touches(e, In, slot) && e.accepted) {
      AppendTouches(log, e, In, slot);
    }
  }

  lemma PassedOnKeeps(env: Env, s: State, t: State, c: Call, r: Option<Text>, h: u64, ack: Option<Acked>)
    requires Inv(env, s) && Books(s) && c.ptype != Undefined && Admits(env, s.ibc, c) && PassedOn(s, t, c, r, h, ack)
    requires ack.Some? ==> c.ptype == OnRecv && ack.value.ok
    ensures Books(t)
  {
    hide Inv, Untouched, WasAccepted, NonePending, Followed;
    Called(s.log, t.log[|s.log|]);
    AckFacts(env, s, ConsumedSlot(c));
  }

  lemma PutOnHoldKeeps(env: Env, s: State, t: State, c: Call, r: Text, h: u64, order: Market)
    requires ValidEnv(env) && Inv(env, s) && Books(s) && c.ptype != Undefined && !c.packet.data.Malformed?
    requires Admits(env, s.ibc, c) && PutOnHold(s, t, c, r, h, order)
    ensures Books(t)
  {
    hide Inv, KeyOf, IdOf;
    var k := KeyOf(HeldRecord(c, r, h));
    Quiet(s.log, Saved(k, c));
    hide Untouched, WasAccepted;
    assert IsPending(t.packets, k) && SideOf(t.packets[k].ptype) == SideOf(c.ptype);
    assert SlotFor(t.packets[k]) == ConsumedSlot(c) && !NonePending(t.packets, SideOf(c.ptype), ConsumedSlot(c));
    StillWaits(s.packets, t.packets, iset{});
  }

  lemma PacketStepKeeps(env: Env, s: State, step: Step)
    requires ValidEnv(env) && Inv(env, s) && Books(s) && (step.RecvStep? || step.AckStep? || step.TimeoutStep?)
    ensures Books(Apply(env, s, step))
  {
    hide Inv, Books, Apply, Admits, TurnedAway, PassedOn, PutOnHold, ValidOn, Waits;
    var t := Apply(env, s, step);
    if step.RecvStep? {
      var c, h, o := Call(OnRecv, step.p, [], step.relayer), step.height, step.outcome;
      var at := DstEnd(step.p);
      ReceiveExactly(env, s, c, h, o);
      ValidParses(env, step.p.data, at);
      if t != s {
        if TurnedAway(s, t, c) {
          TurnedAwayKeeps(env, s, t, c);
        } else if !Waits(s, env.channels[at].rollapp, h) {
          var ack := if o.ack == SuccessAck then Some(Acked(c.packet, true)) else None;
          PassedOnKeeps(env, s, t, c, env.channels[at].rollapp, h, ack);
        } else {
          WaitsForRollapp(s, env.channels[at].rollapp, h);
          PutOnHoldKeeps(env, s, t, c, env.channels[at].rollapp.value, h, o.market);
        }
      }
    } else {
      var c := if step.AckStep? then Call(OnAck, step.p, step.ack, step.relayer)
               else Call(OnTimeout, step.p, [], step.relayer);
      var h, o := step.height, step.outcome;
      var at := SrcEnd(step.p);
      OutcomeExactly(env, s, c, h, o);
      ValidParses(env, step.p.data, at);
      if t != s {
        if !Waits(s, env.channels[at].rollapp, h) {
          PassedOnKeeps(env, s, t, c, env.channels[at].rollapp, h, None);
        } else {
          var made := if AsksMarket(c, o) && o.market.NewOrder? then NewOrder(false) else NoOrder;
          WaitsForRollapp(s, env.channels[at].rollapp, h);
          PutOnHoldKeeps(env, s, t, c, env.channels[at].rollapp.value, h, made);
        }
      }
    }
  }

  // ---------------------------------------------------------------- the other steps

  lemma BoughtKeeps(s: State, t: State, id: bytes, src: Text, who: Text)
    requires Books(s) && IsPending(s.packets, id) && !s.packets[id].packet.data.Malformed?
    requires (Pending, id) in s.orders && Bought(s, t, id, src, who)
    ensures Books(t)
  {
    hide KeyOf, IdOf, Untouched, WasAccepted;
    Quiet(s.log, HookRan(id));
    StillWaits(s.packets, t.packets, iset{});
    hide NonePending;
  }

  /** Finalization calls back for the packet that waited, and nothing else stops waiting. */
  lemma SettledKeeps(env: Env, s: State, t: State, key: bytes, v: Verdict)
    requires Inv(env, s) && Books(s) && IsPending(s.packets, key) && !s.packets[key].packet.data.Malformed?
    requires Settled(env, s, t, key, v)
    ensures Books(t)
  {
    hide Inv, KeyOf, IdOf, Untouched, WasAccepted, WentWell, ValidOn, FromReceived, FromSent, NonePending, Followed;
    var e := t.log[|s.log|];
    StoredFacts(env, s, key);
    PendingOrigin(env, s, key);
    SettledLog(env, s, t, key, v);
    SettledStillWaits(env, s, t, key, v);
    SettledFollows(env, s, t, key, v);
    SettledAccounts(env, s, t, key, v, e);
  }

  lemma SettledAccounts(env: Env, s: State, t: State, key: bytes, v: Verdict, e: Event)
    requires Books(s) && IsPending(s.packets, key) && !s.packets[key].packet.data.Malformed?
    requires Settled(env, s, t, key, v) && e == t.log[|s.log|] && Followed(t.packets, t.orders)
    requires s.packets[key].ptype == OnRecv ==> SlotFor(s.packets[key]) !in s.ibc.acks
    requires s.packets[key].ptype != Undefined
    requires Untouched(s.log, SideOf(s.packets[key].ptype), SlotFor(s.packets[key]))
    requires forall side, slot ::
               Untouched(t.log, side, slot) <==> Untouched(s.log, side, slot) && !Touches(e, side, slot)
    requires forall slot :: WasAccepted(t.log, slot) <==>
                              WasAccepted(s.log, slot) || (Touches(e, In, slot) && e.accepted)
    requires forall side, slot :: !NonePending(s.packets, side, slot) && !Touches(e, side, slot) ==>
                                    !NonePending(t.packets, side, slot)
    ensures Books(t)
  {
    hide KeyOf, IdOf, Untouched, WasAccepted, WentWell, ValidOn, NonePending, Followed;
    NotAccepted(s.log, SlotFor(s.packets[key]));
  }

  lemma NotAccepted(log: seq<Event>, slot: Slot)
    ensures Untouched(log, In, slot) ==> !WasAccepted(log, slot)
  {
  }

  lemma SettledStillWaits(env: Env, s: State, t: State, key: bytes, v: Verdict)
    requires key in s.packets && !s.packets[key].packet.data.Malformed? && s.packets[key].ptype != Undefined
    requires Settled(env, s, t, key, v)
    ensures |t.log| > |s.log|
    ensures forall side, slot :: !NonePending(s.packets, side, slot) && !Touches(t.log[|s.log|], side, slot) ==>
                                   !NonePending(t.packets, side, slot)
  {
    hide KeyOf, WentWell, ValidOn;
    var p := s.packets[key];
    StillWaits(s.packets, t.packets, iset{(SideOf(p.ptype), SlotFor(p))});
  }

  lemma SettledFollows(env: Env, s: State, t: State, key: bytes, v: Verdict)
    requires Followed(s.packets, s.orders) && IsPending(s.packets, key) && !s.packets[key].packet.data.Malformed?
    requires KeyOf(s.packets[key]) == key && Settled(env, s, t, key, v)
    ensures Followed(t.packets, t.orders)
  {
    hide WentWell, ValidOn, TriesAck, ReachesHook;
    var q := FinalRecord(env, s, s.packets[key], key, v);
    assert IdOf(q) == key;
    hide KeyOf, IdOf;
  }

  lemma SettledLog(env: Env, s: State, t: State, key: bytes, v: Verdict)
    requires key in s.packets && !s.packets[key].packet.data.Malformed? && Settled(env, s, t, key, v)
    ensures |t.log| > |s.log|
    ensures var e := t.log[|s.log|];
            && (forall side, slot ::
                  Untouched(t.log, side, slot) <==> Untouched(s.log, side, slot) && !Touches(e, side, slot))
            && (forall slot :: WasAccepted(t.log, slot) <==>
                                 WasAccepted(s.log, slot) || (Touches(e, In, slot) && e.accepted))
  {
    hide KeyOf, WentWell, ValidOn;
    var e := t.log[|s.log|];
    Quiet(s.log + [e], HookRan(key));
    assert s.log + [e] + [] == s.log + [e];
    Called(s.log, e);
  }

  /** What a fork no longer holds is open again. */
  lemma ForkedKeeps(s: State, ks: seq<bytes>, t: State)
    requires Books(s) && Committed(s.ibc) && Within(ks, s.packets) && ForkedBy(s, ks, t)
    requires forall k :: k in ks ==> IsPending(s.packets, k)
    ensures Books(t)
  {
    hide KeyOf, IdOf, Untouched, WasAccepted, Unlisted, Committed;
    var but := iset side, slot | AmongSlots(s.packets, ks, side, slot) :: (side, slot);
    forall l | IsPending(s.packets, l) && l in ks
      ensures (SideOf(s.packets[l].ptype), SlotFor(s.packets[l])) in but {
      assert AmongSlots(s.packets, ks, SideOf(s.packets[l].ptype), SlotFor(s.packets[l]));
    }
    StillWaits(s.packets, t.packets, but);
    hide NonePending, AmongSlots;
  }

  lemma ClearedKeeps(s: State, ks: seq<bytes>, t: State)
    requires Books(s) && Cleared(s, ks, t)
    requires forall k :: k in ks ==> k in s.packets && s.packets[k].status == Finalized
    ensures Books(t)
  {
    hide KeyOf, IdOf, Untouched, WasAccepted, EntriesOf;
    StillWaits(s.packets, t.packets, iset{});
    hide NonePending;
    forall id | (Finalized, id) in t.orders ensures s.orders[(Finalized, id)].trackingKey !in ks {
      var k := s.orders[(Finalized, id)].trackingKey;
      assert k in s.packets && IdOf(s.packets[k]) == id;
    }
  }

  lemma StepKeepsBooks(env: Env, s: State, step: Step)
    requires ValidEnv(env) && Inv(env, s) && Books(s)
    ensures Books(Apply(env, s, step))
  {
    hide Inv, Books, Apply, Bought, Settled, ForkedBy, Cleared, KeyOf, ForkKeys, FinalizedKeys, RoundsFor;
    var t := Apply(env, s, step);
    match step
    case SendStep(p) => SendKeepsBooks(env, s, p);
    case RecvStep(p, h, relayer, o) => PacketStepKeeps(env, s, step);
    case AckStep(p, ack, h, relayer, o) => PacketStepKeeps(env, s, step);
    case TimeoutStep(p, h, relayer, o) => PacketStepKeeps(env, s, step);
    case FulfillStep(id, src, who, ok) =>
      FulfillExactly(env, s, id, src, who, ok);
      if t != s {
        StoredFacts(env, s, id);
        OrderFacts(env, s, id);
        BoughtKeeps(s, t, id, src, who);
      }
    case FinalizeStep(key, v) =>
      FinalizeExactly(env, s, key, v);
      if t != s { SettledKeeps(env, s, t, key, v); }
    case ForkStep(r, h) =>
      ForkEffect(env, s, r, h);
      ForkKeysArePending(env, s, r, h);
      InvCommitted(env, s);
      ForkedKeeps(s, ForkKeys(s, r, h), t);
    case EpochStep(limit) =>
      EpochDeletesExactly(env, s, limit);
      KeyedOf(env, s);
      FinalizedKeysAreFinalized(s);
      ClearedKeeps(s, FinalizedKeys(s)[..Min(|FinalizedKeys(s)|, BATCH * RoundsFor(limit))], t);
    case HeightStep(r, h) => HeightKeepsBooks(env, s, r, h);
  }

  lemma SendKeepsBooks(env: Env, s: State, p: Packet)
    requires Books(s)
    ensures Books(Apply(env, s, SendStep(p)))
  {
  }

  lemma HeightKeepsBooks(env: Env, s: State, r: Text, h: u64)
    requires Books(s)
    ensures Books(Apply(env, s, HeightStep(r, h)))
  {
  }

  lemma {:induction false} RunKeepsBooks(env: Env, steps: seq<Step>)
    requires ValidEnv(env)
    ensures Books(Run(env, steps))
  {
    if steps != [] {
      hide Inv, Apply, Books;
      RunKeepsInv(env, steps[..|steps| - 1]);
      RunKeepsBooks(env, steps[..|steps| - 1]);
      StepKeepsBooks(env, Run(env, steps[..|steps| - 1]), steps[|steps| - 1]);
    }
  }

  // ---------------------------------------------------------------- what the books say

  lemma {:induction false} TouchedCounts(log: seq<Event>, side: Side, slot: Slot)
    ensures Deliveries(log, side, slot) == 0 ==> Untouched(log, side, slot)
  {
    if log != [] {
      var front, e := log[..|log| - 1], log[|log| - 1];
      TouchedCounts(front, side, slot);
      AppendTouches(front, e, side, slot);
      assert front + [e] == log;
    }
  }

  /** On every run, ICS-04 has consumed a packet if and only if one of three things holds: its callback was made, once;
      it is on hold; or it was received and refused with an error acknowledgement. No two of them hold together. */
  lemma AccountedOnce(env: Env, steps: seq<Step>, side: Side, slot: Slot)
    requires ValidEnv(env)
    ensures var s := Run(env, steps);
            var called, waits := Deliveries(s.log, side, slot) == 1, !NonePending(s.packets, side, slot);
            var refused := side == In && slot in s.ibc.acks && Deliveries(s.log, side, slot) == 0;
            && (Closed(s.ibc, side, slot) <==> called || waits || refused)
            && !(called && waits) && !(called && refused) && !(waits && refused)
            && (refused ==> !s.ibc.acks[slot].ok)
  {
    hide Run, Untouched;
    var s := Run(env, steps);
    RunKeepsInv(env, steps);
    RunKeepsBooks(env, steps);
    OnceCounts(s.log, side, slot);
    TouchedCounts(s.log, side, slot);
    NotAccepted(s.log, slot);
    TouchedIsClosed(s.log, s.ibc, side, slot);
    hide Inv;
    if !NonePending(s.packets, side, slot) {
      var k :| IsPending(s.packets, k) && SideOf(s.packets[k].ptype) == side && SlotFor(s.packets[k]) == slot;
      StoredFacts(env, s, k);
      PendingOrigin(env, s, k);
    }
    AckFacts(env, s, slot);
  }

  lemma TouchedIsClosed(log: seq<Event>, ibc: Ibc, side: Side, slot: Slot)
    requires Consumed(log, ibc)
    ensures !Untouched(log, side, slot) ==> Closed(ibc, side, slot)
  {
  }

  /** On every run, the acknowledgement written for a packet is one of success if and only if the module below accepted
      the packet. */
  lemma SuccessIsAcceptance(env: Env, steps: seq<Step>, slot: Slot)
    requires ValidEnv(env) && slot in Run(env, steps).ibc.acks
    ensures Run(env, steps).ibc.acks[slot].ok <==> WasAccepted(Run(env, steps).log, slot)
  {
    hide Run;
    RunKeepsBooks(env, steps);
  }

  /** On every run, an order tracks a stored packet of its own status, the one it was made for. */
  lemma OrdersTrack(env: Env, steps: seq<Step>, st: Status, id: bytes)
    requires ValidEnv(env) && (st, id) in Run(env, steps).orders
    ensures var s := Run(env, steps);
            var k := s.orders[(st, id)].trackingKey;
            k in s.packets && s.packets[k].status == st && IdOf(s.packets[k]) == id
  {
    hide Run;
    var s := Run(env, steps);
    RunKeepsInv(env, steps);
    RunKeepsBooks(env, steps);
    if st == Pending {
      OrderFacts(env, s, id);
      assert s.packets[id].(status := Pending) == s.packets[id];
    }
  }
}
