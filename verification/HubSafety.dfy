/** What the invariant means for every run: delivery, heights, hooks, acknowledgements. */
module HubSafety {
  import opened Bytes
  import opened Packets
  import opened PacketKey
  import opened Hub
  import opened HubInvariant
  import opened HubRuns

  /** How often a callback was made for a packet, over the whole log. */
  function Deliveries(log: seq<Event>, side: Side, slot: Slot): (n: nat) {
    if log == [] then 0
    else Deliveries(log[..|log| - 1], side, slot) + if Touches(log[|log| - 1], side, slot) then 1 else 0
  }

  lemma {:induction false} OnceCounts(log: seq<Event>, side: Side, slot: Slot)
    requires Once(log)
    ensures Deliveries(log, side, slot) <= 1
    ensures Untouched(log, side, slot) ==> Deliveries(log, side, slot) == 0
  {
    if log != [] {
      var front, e := log[..|log| - 1], log[|log| - 1];
      OnceCounts(front, side, slot);
      if Touches(e, side, slot) {
        forall i | 0 <= i < |front| ensures !Touches(front[i], side, slot) {
          assert front[i] == log[i];
        }
      }
      if Untouched(log, side, slot) { assert forall i :: 0 <= i < |front| ==> front[i] == log[i]; }
    }
  }

  /** Over every run, hard forks included, a packet's real callback is made at most once, and not at all
      while the packet is on hold. */
  lemma DeliveredAtMostOnce(env: Env, steps: seq<Step>, side: Side, slot: Slot)
    requires ValidEnv(env)
    ensures var s := Run(env, steps);
            && Deliveries(s.log, side, slot) <= 1
            && (!NonePending(s.packets, side, slot) ==> Deliveries(s.log, side, slot) == 0)
  {
    RunKeepsInv(env, steps);
    var s := Run(env, steps);
    OnceCounts(s.log, side, slot);
    if !NonePending(s.packets, side, slot) {
      var k :| IsPending(s.packets, k) && SideOf(s.packets[k].ptype) == side && SlotFor(s.packets[k]) == slot;
      StoredFacts(env, s, k);
    }
  }

  /** At every point of a run, every callback made for a rollapp was handled at a height finalized by then. Whether
      that is the height its message was proved at, the transaction decides. */
  lemma NothingBeforeFinality(env: Env, steps: seq<Step>, i: nat)
    requires ValidEnv(env)
    requires i < |Run(env, steps).log| && Run(env, steps).log[i].Delivered? && Run(env, steps).log[i].rollapp.Some?
    ensures var s := Run(env, steps);
            HeightFinalized(s, s.log[i].rollapp.value, s.log[i].height)
  {
    RunKeepsInv(env, steps);
    assert Finalizable(Run(env, steps).finalized, Run(env, steps).log[i].rollapp.value, Run(env, steps).log[i].height);
  }

  /** The module's registered invariant: no packet is finalized ahead of its proof height. */
  lemma ProofHeightInvariant(env: Env, steps: seq<Step>, k: bytes)
    requires ValidEnv(env) && k in Run(env, steps).packets
    ensures var p := Run(env, steps).packets[k];
            p.status == Finalized ==> HeightFinalized(Run(env, steps), p.rollappId, p.proofHeight)
  {
    RunKeepsInv(env, steps);
  }

  /** A finalized key, or one that is not stored, cannot be finalized: the transaction aborts and leaves no trace. */
  lemma ReplayAborts(env: Env, s: State, key: bytes, v: Verdict)
    requires !IsPending(s.packets, key)
    ensures Apply(env, s, FinalizeStep(key, v)) == s
  {
    if key in s.packets && s.packets[key].packet.data.Parses() {
      CallbackKeepsStatus(env, s, s.packets[key], v);
    }
  }

  lemma CallbackKeepsStatus(env: Env, s: State, p: RollappPacket, v: Verdict)
    requires p.packet.data.Parses()
    ensures FinalizeCallback(env, s, p, v).1.status == p.status
  {
  }

  /** The completion hook runs at most once for each time a packet is put on hold, over every run. */
  lemma HookAtMostOnce(env: Env, steps: seq<Step>, k: bytes)
    requires ValidEnv(env)
    ensures HookRuns(Run(env, steps).log, k) <= 1
  {
    RunKeepsInv(env, steps);
    hide Run;
  }

  /** At finalization the hook runs only for an order nobody fulfilled. */
  lemma FulfilledHookDoesNotRerun(env: Env, s: State, key: bytes, v: Verdict)
    requires Inv(env, s) && key in s.packets && (Pending, key) in s.orders && s.orders[(Pending, key)].IsFulfilled()
    ensures HookRuns(Apply(env, s, FinalizeStep(key, v)).log, key) == HookRuns(s.log, key)
  {
    hide Inv, FinalizeCallback, KeyOf;
    StoredFacts(env, s, key);
    var p := s.packets[key];
    CallbackShape(env, s, p, v);
    Snoc(s.log, DeliveryOf(p, Accepted(p, v)), key);
  }

  /** How a held incoming packet is finalized when its acknowledgement goes through. */
  lemma FinalizeRecvShape(env: Env, s: State, p: RollappPacket, v: Verdict)
    requires p.packet.data.Parses() && p.ptype == OnRecv && SlotFor(p) !in s.ibc.acks
    requires v.ack != NoAck && v.channelFound && v.ackAccepted
    ensures var (t, q, ok) := FinalizeCallback(env, s, p, v);
            && q == Restore(p)
            && s.log < t.log && t.log[|s.log|] == DeliveryOf(p, Accepted(p, v))
            && t == s.(log := t.log, ibc := WriteAck(s, SlotFor(p), q.packet, v.ack == SuccessAck).ibc)
  {
    var q := Restore(p);
    var s1 := DeliverNow(s, Some(p.rollappId), p.proofHeight, CallOf(p), v.ack != ErrorAck);
    HookShape(env, WriteAck(s1, SlotFor(p), q.packet, v.ack == SuccessAck), q, v);
    hide FinalizeHook;
  }

  /** Finalizing a held incoming packet calls back with its current payee and acknowledges the packet first received, up
      to the spelling of its JSON. */
  lemma FinalizeSettles(env: Env, s: State, key: bytes, v: Verdict, t: State)
    requires Inv(env, s) && IsPending(s.packets, key) && s.packets[key].ptype == OnRecv
    requires HeightFinalized(s, s.packets[key].rollappId, s.packets[key].proofHeight)
    requires v.ack != NoAck && v.channelFound && v.ackAccepted
    requires t == Apply(env, s, FinalizeStep(key, v))
    ensures s.log < t.log && t.log[|s.log|] == DeliveryOf(s.packets[key], v.ack != ErrorAck)
    ensures SlotFor(s.packets[key]) in t.ibc.acks && LastSaved(s.log, key).Some? && s.packets[key].packet.data.Parses()
    ensures t.ibc.acks[SlotFor(s.packets[key])] == Acked(Restore(s.packets[key]).packet, v.ack == SuccessAck)
    ensures SameUpToSpelling(t.ibc.acks[SlotFor(s.packets[key])].packet, LastSaved(s.log, key).value.packet)
    ensures s.packets[key].originalTarget == [] ==>
              t.ibc.acks[SlotFor(s.packets[key])].packet == LastSaved(s.log, key).value.packet
    ensures key !in t.packets && KeyOf(s.packets[key].(status := Finalized)) in t.packets
  {
    hide Inv, FinalizeCallback, KeyOf, FromReceived, FromSent, SameUpToSpelling, Restore, MoveToFinalized;
    var p := s.packets[key];
    StoredFacts(env, s, key);
    PendingOrigin(env, s, key);
    RestoredIsFirst(p, LastSaved(s.log, key));
    FinalKeyDiffers(p);
    FinalizeRecvShape(env, s, p, v);
    var (s1, q, ok) := FinalizeCallback(env, s, p, v);
    var f := if ok then q else q.(error := v.errorText);
    KeyIgnoresData(p, f);
    Moved(s1, f);
  }

  /** If the module below takes the packet, it is paid to the current payee — the fulfiller, if there was one — while
      the packet acknowledged to the rollapp is the one first received. */
  lemma FinalizePaysCurrentAcksOriginal(env: Env, s: State, key: bytes, v: Verdict, t: State)
    requires Inv(env, s) && IsPending(s.packets, key) && s.packets[key].ptype == OnRecv
    requires HeightFinalized(s, s.packets[key].rollappId, s.packets[key].proofHeight)
    requires v.ack == SuccessAck && v.channelFound && v.ackAccepted
    requires t == Apply(env, s, FinalizeStep(key, v))
    ensures PaidLast(s, t, SlotFor(s.packets[key]), PayeeOf(s.packets[key]))
    ensures AckedFirst(s, t, key, true)
  {
    hide Inv, Apply, KeyOf, SameUpToSpelling;
    FinalizeSettles(env, s, key, v, t);
    StoredFacts(env, s, key);
  }

  /** If it refuses, nothing is paid: the error is acknowledged for the packet first received, and the callback is
      spent all the same. */
  lemma RefusedIsNotPaid(env: Env, s: State, key: bytes, v: Verdict, t: State)
    requires Inv(env, s) && IsPending(s.packets, key) && s.packets[key].ptype == OnRecv
    requires HeightFinalized(s, s.packets[key].rollappId, s.packets[key].proofHeight)
    requires v.ack == ErrorAck && v.channelFound && v.ackAccepted
    requires t == Apply(env, s, FinalizeStep(key, v))
    ensures s.log <= t.log && forall i :: |s.log| <= i < |t.log| && t.log[i].Delivered? ==> !t.log[i].accepted
    ensures !Untouched(t.log, In, SlotFor(s.packets[key]))
    ensures AckedFirst(s, t, key, false)
  {
    hide Inv, KeyOf, SameUpToSpelling, FinalizeCallback, Apply;
    FinalizeSettles(env, s, key, v, t);
    StoredFacts(env, s, key);
    CallbackShape(env, s, s.packets[key], v);
    FinalizeLog(env, s, key, v);
    assert Touches(t.log[|s.log|], In, SlotFor(s.packets[key]));
  }

  /** The packet acknowledged has the very bytes first received if and only if nobody fulfilled it or those bytes were
      the canonical text of their transfer. */
  lemma AckedBytesExactly(env: Env, s: State, key: bytes, v: Verdict, t: State)
    requires Inv(env, s) && IsPending(s.packets, key) && s.packets[key].ptype == OnRecv
    requires HeightFinalized(s, s.packets[key].rollappId, s.packets[key].proofHeight)
    requires v.ack != NoAck && v.channelFound && v.ackAccepted
    requires t == Apply(env, s, FinalizeStep(key, v))
    ensures var slot := SlotFor(s.packets[key]);
            && slot in t.ibc.acks && LastSaved(s.log, key).Some?
            && (t.ibc.acks[slot].packet == LastSaved(s.log, key).value.packet <==>
                  s.packets[key].originalTarget == [] || LastSaved(s.log, key).value.packet.data.Canonical?)
  {
    hide Inv, Apply, KeyOf;
    FinalizeSettles(env, s, key, v, t);
  }

  /** The next thing on the log is an accepted delivery to this address. */
  ghost predicate PaidLast(s: State, t: State, slot: Slot, payee: Text) {
    && s.log < t.log && Touches(t.log[|s.log|], In, slot) && t.log[|s.log|].accepted
    && t.log[|s.log|].call.packet.data.Parses() && t.log[|s.log|].call.packet.data.transfer.receiver == payee
  }

  /** An acknowledgement, of success or not, is written for the packet as it was put on hold. */
  ghost predicate AckedFirst(s: State, t: State, key: bytes, ok: bool)
    requires key in s.packets
  {
    var p := s.packets[key];
    && SlotFor(p) in t.ibc.acks && LastSaved(s.log, key).Some?
    && t.ibc.acks[SlotFor(p)].ok == ok
    && SameUpToSpelling(t.ibc.acks[SlotFor(p)].packet, LastSaved(s.log, key).value.packet)
    && (p.originalTarget == [] ==> t.ibc.acks[SlotFor(p)].packet == LastSaved(s.log, key).value.packet)
  }

  // ---------------------------------------------------------------- when finalization runs the hook

  /** The acknowledgement, if there is one, goes out. */
  predicate AckGoesOut(v: Verdict) { v.ack == NoAck || (v.channelFound && v.ackAccepted) }

  lemma HookRunsExactly(env: Env, s: State, p: RollappPacket, v: Verdict)
    requires p.packet.data.Parses()
    ensures FinalizeHook(env, s, p, v).0.log ==
              if OpenHook(s.orders, KeyOf(p)) && !GetValidTransfer(env, p.packet.data, DstEnd(p.packet)).Invalid?
              then s.log + [HookRan(KeyOf(p))] else s.log
  {
    hide KeyOf, GetValidTransfer;
  }

  lemma RecvLog(env: Env, s: State, p: RollappPacket, v: Verdict)
    requires p.packet.data.Parses() && p.ptype == OnRecv && SlotFor(p) !in s.ibc.acks
    requires OpenHook(s.orders, KeyOf(p)) ==> p.originalTarget == []
    ensures var log := s.log + [DeliveryOf(p, v.ack != ErrorAck)];
            FinalizeCallback(env, s, p, v).0.log ==
              if AckGoesOut(v) && OpenHook(s.orders, KeyOf(p)) && ValidHeld(env, p)
              then log + [HookRan(KeyOf(p))] else log
  {
    var q := Restore(p);
    var s1 := DeliverNow(s, Some(p.rollappId), p.proofHeight, CallOf(p), v.ack != ErrorAck);
    HookRunsExactly(env, s1, p, v);
    HookRunsExactly(env, WriteAck(s1, SlotFor(p), q.packet, v.ack == SuccessAck), q, v);
    assert KeyOf(q) == KeyOf(p);
    hide FinalizeHook, KeyOf, GetValidTransfer;
  }

  /** The held packet still passes the transfer checks. */
  predicate ValidHeld(env: Env, p: RollappPacket) { !GetValidTransfer(env, p.packet.data, DstEnd(p.packet)).Invalid? }

  /** Finalizing a held packet runs its hook if and only if it is an incoming one with an open order that has a hook,
      its transfer is valid, and its acknowledgement goes out: whether the module below took the packet does not
      matter. */
  lemma FinalizeRunsHook(env: Env, s: State, key: bytes, v: Verdict)
    requires Inv(env, s) && IsPending(s.packets, key)
    requires HeightFinalized(s, s.packets[key].rollappId, s.packets[key].proofHeight)
    ensures var p, t := s.packets[key], Apply(env, s, FinalizeStep(key, v));
            && s.log <= t.log
            && (HookRan(key) in t.log[|s.log|..] <==>
                  p.ptype == OnRecv && OpenHook(s.orders, key) && ValidHeld(env, p) && AckGoesOut(v))
  {
    hide Inv, KeyOf, FinalizeCallback, GetValidTransfer, Apply, OpenHook, AckGoesOut, ValidHeld, FromReceived, FromSent;
    var p := s.packets[key];
    OpenIsUnfulfilled(s.orders, key);
    StoredFacts(env, s, key);
    PendingOrigin(env, s, key);
    FinalizeLog(env, s, key, v);
    if p.ptype == OnRecv { RecvLog(env, s, p, v); } else { SentLog(env, s, p, v); }
    LogTail(s.log, DeliveryOf(p, v.ack != ErrorAck), key);
    LogTail(s.log, DeliveryOf(p, v.callbackOk), key);
  }

  lemma LogTail(log: seq<Event>, e: Event, k: bytes)
    requires e.Delivered?
    ensures log <= log && HookRan(k) !in log[|log|..]
    ensures log <= log + [e] && HookRan(k) !in (log + [e])[|log|..]
    ensures log <= log + [e] + [HookRan(k)] && HookRan(k) in (log + [e] + [HookRan(k)])[|log|..]
  {
    assert (log + [e])[|log|..] == [e] && (log + [e] + [HookRan(k)])[|log|..] == [e, HookRan(k)];
  }

  lemma FinalizeLog(env: Env, s: State, key: bytes, v: Verdict)
    requires key in s.packets && s.packets[key].status == Pending && s.packets[key].packet.data.Parses()
    requires HeightFinalized(s, s.packets[key].rollappId, s.packets[key].proofHeight)
    ensures Apply(env, s, FinalizeStep(key, v)).log == FinalizeCallback(env, s, s.packets[key], v).0.log
  {
    hide KeyOf, FinalizeCallback;
    var (s1, q, ok) := FinalizeCallback(env, s, s.packets[key], v);
    CallbackKeepsStatus(env, s, s.packets[key], v);
    Moved(s1, if ok then q else q.(error := v.errorText));
    hide MoveToFinalized;
  }

  lemma OpenIsUnfulfilled(orders: Orders, k: bytes)
    ensures OpenHook(orders, k) ==> (Pending, k) in orders && !orders[(Pending, k)].IsFulfilled()
  {
  }

  lemma SentLog(env: Env, s: State, p: RollappPacket, v: Verdict)
    requires IsSent(p.ptype) && p.packet.data.Parses()
    ensures FinalizeCallback(env, s, p, v).0.log == s.log + [DeliveryOf(p, v.callbackOk)]
  {
  }

  lemma Moved(s: State, f: RollappPacket)
    ensures MoveToFinalized(s, f).Some? <==> f.status == Pending && f.packet.data.Parses()
    ensures MoveToFinalized(s, f).Some? ==>
              var t, k, fk := MoveToFinalized(s, f).value, KeyOf(f), KeyOf(f.(status := Finalized));
              t.log == s.log && t.ibc == s.ibc && fk in t.packets && (k != fk ==> k !in t.packets)
  {
    hide KeyOf;
  }

  lemma RestoredIsFirst(p: RollappPacket, last: Option<Call>)
    requires p.packet.data.Parses() && FromReceived(p, last)
    ensures last.Some? && SameUpToSpelling(Restore(p).packet, last.value.packet)
    ensures p.originalTarget == [] ==> Restore(p).packet == last.value.packet
  {
  }

  lemma KeyIgnoresData(p: RollappPacket, q: RollappPacket)
    requires q == p.(packet := p.packet.(data := q.packet.data), error := q.error)
    ensures KeyOf(p) == KeyOf(q) && KeyOf(p.(status := Finalized)) == KeyOf(q.(status := Finalized))
  {
  }

  lemma PendingOrigin(env: Env, s: State, k: bytes)
    requires Inv(env, s) && IsPending(s.packets, k)
    ensures FromReceived(s.packets[k], LastSaved(s.log, k)) && FromSent(s.packets[k], s.ibc)
    ensures SideOf(s.packets[k].ptype) == In ==> SlotFor(s.packets[k]) !in s.ibc.acks
    ensures s.packets[k].originalTarget != [] ==> (Pending, k) in s.orders && s.orders[(Pending, k)].IsFulfilled()
  {
  }

  lemma FinalKeyDiffers(p: RollappPacket)
    requires p.status == Pending
    ensures KeyOf(p) != KeyOf(p.(status := Finalized))
  {
    assert KeyOf(p)[1] == StatusBytes(Pending)[1];
    assert KeyOf(p.(status := Finalized))[1] == StatusBytes(Finalized)[1];
  }
}
