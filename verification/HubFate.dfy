/** What can become of a packet on hold. */
module HubFate {
  import opened Bytes
  import opened Packets
  import opened PacketKey
  import opened Hub
  import opened HubInvariant
  import opened HubFork
  import opened HubEpoch
  import opened HubIndex

  ghost predicate Kept(s: State, t: State, k: bytes)
    requires k in s.packets
  {
    k in t.packets && t.packets[k] == s.packets[k]
  }

  /** Its payee was replaced, once, before its height was finalized. */
  ghost predicate WasRedirected(s: State, t: State, step: Step, k: bytes)
    requires k in s.packets
  {
    var p := s.packets[k];
    && step.FulfillStep? && step.id == k && p.originalTarget == [] && p.packet.data.Parses()
    && !HeightFinalized(s, p.rollappId, p.proofHeight)
    && k in t.packets && t.packets[k] == Redirect(p, step.fundsSource)
  }

  /** Its finalization was asked for by its key, once its height was finalized. */
  ghost predicate WasFinalized(s: State, t: State, step: Step, k: bytes)
    requires k in s.packets
  {
    var p := s.packets[k];
    var fk := KeyOf(p.(status := Finalized));
    && step.FinalizeStep? && step.key == k && HeightFinalized(s, p.rollappId, p.proofHeight)
    && k !in t.packets && fk in t.packets && t.packets[fk].status == Finalized
  }

  /** A fork reached it: one of its rollapp, below its height, for rollapp ids as they are. */
  ghost predicate WasReverted(s: State, t: State, step: Step, k: bytes)
    requires k in s.packets
  {
    var p := s.packets[k];
    && step.ForkStep? && k in ForkKeys(s, step.rollapp, step.lastValid) && k !in t.packets
    && (SlashFree(step.rollapp) ==> p.rollappId == step.rollapp && ForkFrom(step.lastValid) <= p.proofHeight < MAX_U64)
  }

  /** Whatever happens on the hub, a packet on hold stays as it is unless its own order is fulfilled, it is finalized
      by name after its height is final, or a fork of its rollapp takes it back. */
  lemma HeldPacketFate(env: Env, s: State, step: Step, k: bytes)
    requires ValidEnv(env) && Inv(env, s) && IsPending(s.packets, k)
    ensures var t := Apply(env, s, step);
            Kept(s, t, k) || WasRedirected(s, t, step, k) || WasFinalized(s, t, step, k) || WasReverted(s, t, step, k)
  {
    hide Inv, HeldOrSame, RecvTx, OutcomeTx, Fulfill, Finalize, HardFork, EpochRounds, KeyOf, ForkKeys, Redirect;
    match step
    case SendStep(p) =>
    case RecvStep(p, h, relayer, o) =>
      RecvHolds(env, s, p, h, relayer, o);
      HoldingKeeps(s, Apply(env, s, step), k);
    case AckStep(p, ack, h, relayer, o) =>
      OutcomeHolds(env, s, OnAck, p, ack, h, relayer, o);
      HoldingKeeps(s, Apply(env, s, step), k);
    case TimeoutStep(p, h, relayer, o) =>
      OutcomeHolds(env, s, OnTimeout, p, [], h, relayer, o);
      HoldingKeeps(s, Apply(env, s, step), k);
    case FulfillStep(id, src, who, ok) => FulfillFate(env, s, step, k);
    case FinalizeStep(key, v) => FinalizeFate(env, s, step, k);
    case ForkStep(r, h) =>
      ForkEffect(env, s, r, h);
      if SlashFree(r) { ForkKeysAre(env, s, r, h, k); }
    case EpochStep(limit) => EpochDeletesExactly(env, s, limit);
    case HeightStep(r, h) =>
  }

  lemma HoldingKeeps(s: State, t: State, k: bytes)
    requires HeldOrSame(s, t) && k in s.packets
    ensures Kept(s, t, k)
  {
    hide KeyOf;
  }

  lemma FulfillFate(env: Env, s: State, step: Step, k: bytes)
    requires Inv(env, s) && IsPending(s.packets, k) && step.FulfillStep?
    ensures Kept(s, Apply(env, s, step), k) || WasRedirected(s, Apply(env, s, step), step, k)
  {
    hide Inv, KeyOf, Redirect;
    if Fulfill(s, step.id, step.fundsSource, step.fulfiller, step.hookOk).Some? {
      FulfillEffect(env, s, step.id, step.fundsSource, step.fulfiller, step.hookOk);
      OrderFacts(env, s, step.id);
    }
  }

  lemma FinalizeFate(env: Env, s: State, step: Step, k: bytes)
    requires ValidEnv(env) && Inv(env, s) && IsPending(s.packets, k) && step.FinalizeStep?
    ensures Kept(s, Apply(env, s, step), k) || WasFinalized(s, Apply(env, s, step), step, k)
  {
    hide Inv, KeyOf, FinalizeCallback, MoveToFinalized;
    if Finalize(env, s, step.key, step.verdict).Some? {
      FinalizeEffect(env, s, step.key, step.verdict);
    }
  }

  /** A fulfilment makes its source of funds the payee, for good: the order cannot be fulfilled again. */
  lemma FulfillPays(env: Env, s: State, id: bytes, src: Text, who: Text, hookOk: bool)
    requires Inv(env, s) && Fulfill(s, id, src, who, hookOk).Some?
    ensures var t := Apply(env, s, FulfillStep(id, src, who, hookOk));
            && IsPending(t.packets, id) && t.packets[id].packet.data.Parses() && PayeeOf(t.packets[id]) == src
            && forall src2, who2, ok2 :: Apply(env, t, FulfillStep(id, src2, who2, ok2)) == t
  {
    hide Inv, KeyOf, Redirect, Fulfill;
    FulfillEffect(env, s, id, src, who, hookOk);
    var t := Apply(env, s, FulfillStep(id, src, who, hookOk));
    FulfillMarks(s, id, src, who, hookOk);
    forall src2, who2, ok2 ensures Apply(env, t, FulfillStep(id, src2, who2, ok2)) == t {
      FulfilledOnce(t, id, src2, who2, ok2);
    }
  }

  /** The order remembers its fulfiller, and nothing else of it changes. */
  lemma FulfillMarks(s: State, id: bytes, src: Text, who: Text, hookOk: bool)
    requires Fulfill(s, id, src, who, hookOk).Some?
    ensures var t := Fulfill(s, id, src, who, hookOk).value;
            && (Pending, id) in s.orders && (Pending, id) in t.orders && who != []
            && t.orders[(Pending, id)] == s.orders[(Pending, id)].(fulfiller := who)
  {
    hide KeyOf;
  }

  lemma FulfilledOnce(s: State, id: bytes, src: Text, who: Text, hookOk: bool)
    ensures (Pending, id) in s.orders && s.orders[(Pending, id)].IsFulfilled() ==>
            Fulfill(s, id, src, who, hookOk).None?
  {
  }
}
