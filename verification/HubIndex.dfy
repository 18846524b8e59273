/** The address index: which entries are sound, which steps leave a stale one, and what queries then answer. */
module HubIndex {
  import opened Bytes
  import opened SortedStore
  import opened Packets
  import opened PacketKey
  import opened Hub
  import opened HubInvariant
  import opened HubRuns
  import opened HubFork
  import opened HubEpoch

  type Entry = (Text, bytes)

  /** An index entry that names a pending packet under the address it pays. */
  predicate Good(m: Store, e: Entry) {
    e.1 in m && m[e.1].status == Pending && m[e.1].packet.data.Parses() && PayeeOf(m[e.1]) == e.0
  }

  function Stale(s: State): (r: set<Entry>) {
    set e | e in s.index && !Good(s.packets, e)
  }

  // ---------------------------------------------------------------- what single steps do to store and index

  /** A new packet is on hold, under a free key, and listed. */
  ghost predicate Held(s: State, t: State, q: RollappPacket) {
    && q.status == Pending && q.packet.data.Parses() && KeyOf(q) !in s.packets
    && t.packets == s.packets[KeyOf(q) := q] && t.index == s.index + {(PayeeOf(q), KeyOf(q))}
  }

  ghost predicate HeldOrSame(s: State, t: State) {
    (t.packets == s.packets && t.index == s.index) || exists q :: Held(s, t, q)
  }

  lemma SaveHolds(env: Env, s: State, q: RollappPacket, hook: bool)
    requires ValidEnv(env) && Inv(env, s) && Fresh(env, s, q)
    ensures HeldOrSame(s, Save(s, q)) && HeldOrSame(s, AddOrder(Save(s, q), q, hook))
  {
    FreeKey(env, s.packets, q);
    hide KeyOf, Inv;
    assert Held(s, Save(s, q), q) && Held(s, AddOrder(Save(s, q), q, hook), q);
  }

  lemma OnRecvHolds(env: Env, s: State, p: Packet, h: u64, relayer: bytes, o: Outcome)
    requires ValidEnv(env) && Inv(env, s) && Admitted(env, s, OnRecv, p)
    ensures HeldOrSame(s, OnRecvPacket(env, s, p, h, relayer, o).0)
  {
    hide Admitted, HeldOrSame, Inv;
    var v := GetValidTransfer(env, p.data, DstEnd(p));
    SameIsHeldOrSame(s, OnRecvPacket(env, s, p, h, relayer, o).0);
    if v.OfRollapp? && !HeightFinalized(s, v.rollapp, h) && o.ack == SuccessAck {
      var q := NewPacket(v.rollapp, p, [], h, relayer, OnRecv);
      InvCommitted(env, s);
      NewPacketIsFresh(env, s, OnRecv, p, q, v.rollapp);
      SaveHolds(env, s, q, o.market.NewOrder? && o.market.hasHook);
    }
  }

  lemma OnOutcomeHolds(env: Env, s: State, t: PacketType, p: Packet, ack: bytes, h: u64, relayer: bytes, o: Outcome)
    requires ValidEnv(env) && Inv(env, s) && IsSent(t) && Admitted(env, s, t, p)
    ensures OnOutcomePacket(env, s, t, p, ack, h, relayer, o).Some? ==>
              HeldOrSame(s, OnOutcomePacket(env, s, t, p, ack, h, relayer, o).value)
  {
    hide Admitted, HeldOrSame, Inv;
    var v := GetValidTransfer(env, p.data, SrcEnd(p));
    var res := OnOutcomePacket(env, s, t, p, ack, h, relayer, o);
    if res.Some? {
      SameIsHeldOrSame(s, res.value);
      if v.OfRollapp? && !HeightFinalized(s, v.rollapp, h) {
        var q := NewPacket(v.rollapp, p, if t == OnAck then ack else [], h, relayer, t);
        InvCommitted(env, s);
        NewPacketIsFresh(env, s, t, p, q, v.rollapp);
        SaveHolds(env, s, q, false);
        assert res.value == Save(s, q) || res.value == AddOrder(Save(s, q), q, false);
      }
    }
  }

  lemma InvCommitted(env: Env, s: State)
    requires Inv(env, s)
    ensures Committed(s.ibc)
  {
  }

  lemma SameIsHeldOrSame(s: State, t: State)
    ensures t.packets == s.packets && t.index == s.index ==> HeldOrSame(s, t)
  {
  }

  lemma HeldOrSameUpTo(s: State, s1: State, t: State)
    requires HeldOrSame(s1, t) && s1.packets == s.packets && s1.index == s.index
    ensures HeldOrSame(s, t)
  {
    hide KeyOf;
    if !(t.packets == s.packets && t.index == s.index) {
      var q :| Held(s1, t, q);
      assert Held(s, t, q);
    }
  }

  lemma RecvHolds(env: Env, s: State, p: Packet, h: u64, relayer: bytes, o: Outcome)
    requires ValidEnv(env) && Inv(env, s)
    ensures HeldOrSame(s, RecvTx(env, s, p, h, relayer, o))
  {
    hide Inv, HeldOrSame, OnRecvPacket;
    var t := RecvTx(env, s, p, h, relayer, o);
    SameIsHeldOrSame(s, t);
    var slot := SlotOf(OnRecv, p);
    if Routed(env, DstEnd(p), SrcEnd(p)) && slot !in s.ibc.receipts {
      OpenIsUnseen(env, s, In, slot);
      AckFacts(env, s, slot);
      var s1 := s.(ibc := s.ibc.(receipts := s.ibc.receipts + {slot}));
      NarrowKeepsInv(env, s, s1.ibc);
      OnRecvHolds(env, s1, p, h, relayer, o);
      var (s2, ack) := OnRecvPacket(env, s1, p, h, relayer, o);
      HeldOrSameUpTo(s, s1, s2);
      HeldOrSameThrough(s, s2, t);
    }
  }

  lemma HeldOrSameThrough(s: State, s2: State, t: State)
    requires HeldOrSame(s, s2)
    ensures t.packets == s2.packets && t.index == s2.index ==> HeldOrSame(s, t)
  {
    hide KeyOf;
    if t.packets == s2.packets && t.index == s2.index && !(s2.packets == s.packets && s2.index == s.index) {
      var q :| Held(s, s2, q);
      assert Held(s, t, q);
    }
  }

  lemma OutcomeHolds(env: Env, s: State, t: PacketType, p: Packet, ack: bytes, h: u64, relayer: bytes, o: Outcome)
    requires ValidEnv(env) && Inv(env, s) && IsSent(t)
    ensures HeldOrSame(s, OutcomeTx(env, s, t, p, ack, h, relayer, o))
  {
    hide Inv, HeldOrSame, OnOutcomePacket;
    SameIsHeldOrSame(s, s);
    var slot := SlotOf(t, p);
    CommitmentFacts(env, s, slot);
    if Routed(env, SrcEnd(p), DstEnd(p)) && slot in s.ibc.commitments && s.ibc.commitments[slot] == CommitPacket(p) {
      OpenIsUnseen(env, s, Out, slot);
      var s1 := s.(ibc := s.ibc.(commitments := s.ibc.commitments - {slot}));
      NarrowKeepsInv(env, s, s1.ibc);
      OnOutcomeHolds(env, s1, t, p, ack, h, relayer, o);
      var res := OnOutcomePacket(env, s1, t, p, ack, h, relayer, o);
      if res.Some? { HeldOrSameUpTo(s, s1, res.value); }
    }
  }

  // ---------------------------------------------------------------- stale entries

  /** A fulfilment pays somebody other than the original payee. */
  predicate MovedPayee(p: RollappPacket)
    requires p.packet.data.Parses()
  {
    p.originalTarget != [] && p.originalTarget != PayeeOf(p)
  }

  /** Finalization restores the packet before it looks up which entry to drop. */
  predicate LeaksOnFinalize(p: RollappPacket, v: Verdict)
    requires p.packet.data.Parses()
  {
    p.ptype == OnRecv && MovedPayee(p) && v.ack != NoAck && v.channelFound
  }

  predicate LeaksOnFork(p: RollappPacket)
    requires p.packet.data.Parses()
  {
    IsSent(p.ptype) && MovedPayee(p)
  }

  /** The entries a step leaves behind without their packet: (fulfiller, old key) of each packet whose shared data
      was restored before the entry to drop was computed. */
  function Leak(env: Env, s: State, step: Step): (r: set<Entry>) {
    match step
    case FinalizeStep(key, v) =>
      if Finalize(env, s, key, v).Some? && LeaksOnFinalize(s.packets[key], v)
      then {(PayeeOf(s.packets[key]), key)} else {}
    case ForkStep(r, h) =>
      set k | k in ForkKeys(s, r, h) && s.packets[k].packet.data.Parses()
        && LeaksOnFork(s.packets[k]) :: (PayeeOf(s.packets[k]), k)
    case _ => {}
  }

  /** The step adds to the stale entries exactly its leak, and may at most revive others. */
  ghost predicate LeaksExactly(s: State, t: State, leak: set<Entry>) {
    Stale(t) <= Stale(s) + leak && leak <= Stale(t)
  }

  lemma HoldingLeaksNothing(s: State, t: State)
    requires HeldOrSame(s, t)
    ensures LeaksExactly(s, t, {})
  {
    hide KeyOf, PayeeOf;
    if !(t.packets == s.packets && t.index == s.index) {
      var q :| Held(s, t, q);
      assert forall e :: Good(s.packets, e) ==> Good(t.packets, e);
    }
  }

  lemma FulfillEffect(env: Env, s: State, id: bytes, src: Text, who: Text, hookOk: bool)
    requires Inv(env, s) && Fulfill(s, id, src, who, hookOk).Some?
    ensures IsPending(s.packets, id) && PacketOk(env, s.packets[id]) && s.packets[id].originalTarget == []
    ensures var p, t := s.packets[id], Fulfill(s, id, src, who, hookOk).value;
            && t.packets == s.packets[id := Redirect(p, src)]
            && t.index == s.index - {(PayeeOf(p), id)} + {(src, id)}
            && Redirect(p, src).status == Pending && Redirect(p, src).packet.data.Parses()
              && PayeeOf(Redirect(p, src)) == src
            && LastSaved(t.log, id) == LastSaved(s.log, id)
  {
    hide Inv;
    OrderFacts(env, s, id);
    var p := s.packets[id];
    RedirectThenRestoreTransfer(p, src);
    assert KeyOf(Redirect(p, src)) == id;
    Snoc(s.log, HookRan(id), id);
  }

  lemma OrderFacts(env: Env, s: State, id: bytes)
    requires Inv(env, s) && (Pending, id) in s.orders
    ensures IsPending(s.packets, id) && s.orders[(Pending, id)].trackingKey == id && KeyOf(s.packets[id]) == id
    ensures PacketOk(env, s.packets[id])
    ensures !s.orders[(Pending, id)].IsFulfilled() ==> s.packets[id].originalTarget == []
  {
  }

  lemma FulfillLeaksNothing(env: Env, s: State, id: bytes, src: Text, who: Text, hookOk: bool)
    requires Inv(env, s)
    ensures LeaksExactly(s, Tx(s, Fulfill(s, id, src, who, hookOk)), {})
  {
    hide Inv, Fulfill, KeyOf, Redirect, PayeeOf;
    if Fulfill(s, id, src, who, hookOk).Some? { FulfillEffect(env, s, id, src, who, hookOk); }
  }

  /** The payee finalization finds in the packet once the callback is done. */
  function PayeeAfter(p: RollappPacket, v: Verdict): Text
    requires p.packet.data.Parses()
  {
    if p.ptype == OnRecv && v.ack != NoAck && v.channelFound then PayeeOf(Restore(p)) else PayeeOf(p)
  }

  lemma FinalizeEffect(env: Env, s: State, key: bytes, v: Verdict)
    requires ValidEnv(env) && Inv(env, s) && Finalize(env, s, key, v).Some?
    ensures IsPending(s.packets, key) && PacketOk(env, s.packets[key])
    ensures var p, t := s.packets[key], Finalize(env, s, key, v).value;
            var fk := KeyOf(p.(status := Finalized));
            && fk !in s.packets && fk != key && fk in t.packets && t.packets[fk].status == Finalized
            && t.packets[fk].packet.data.Parses()
            && PayeeOf(t.packets[fk]) == PayeeAfter(p, v)
            && t.packets == (s.packets - {key})[fk := t.packets[fk]]
            && t.index == s.index - {(PayeeAfter(p, v), key)}
  {
    hide Inv, FinalizeCallback, KeyOf;
    var p := s.packets[key];
    StoredFacts(env, s, key);
    FinalPayee(env, s, p, v);
    CallbackShape(env, s, p, v);
    var (s1, q, ok) := FinalizeCallback(env, s, p, v);
    var f := if ok then q else q.(error := v.errorText);
    StoreParts(env, s);
    hide Keyed, AllOk, Alone, Restore;
    FinalKeyIsFree(env, s.packets, key, f);
    MoveEffect(s, s1, f);
  }

  lemma StoreParts(env: Env, s: State)
    requires Inv(env, s)
    ensures Keyed(s.packets) && AllOk(env, s.packets) && Alone(s.packets)
  {
  }

  lemma MoveEffect(s: State, s1: State, f: RollappPacket)
    requires f.status == Pending && f.packet.data.Parses() && f.ptype != Undefined
    requires s1 == s.(ibc := s1.ibc, log := s1.log)
    ensures var t := MoveToFinalized(s1, f).value;
            && t.packets == (s.packets - {KeyOf(f)})[KeyOf(f.(status := Finalized)) := f.(status := Finalized)]
            && t.index == s.index - {(PayeeOf(f), KeyOf(f))}
  {
    hide KeyOf;
  }

  lemma FinalPayee(env: Env, s: State, p: RollappPacket, v: Verdict)
    requires p.packet.data.Parses()
    ensures PayeeOf(FinalizeCallback(env, s, p, v).1) == PayeeAfter(p, v)
  {
  }

  /** The finalized form of a pending packet takes a key of its own. */
  lemma FinalKeyIsFree(env: Env, m: Store, k: bytes, f: RollappPacket)
    requires ValidEnv(env) && Keyed(m) && AllOk(env, m) && Alone(m)
    requires IsPending(m, k) && Alike(m[k], f) && f.status == Pending
    ensures KeyOf(f) == k && KeyOf(f.(status := Finalized)) == KeyOf(m[k].(status := Finalized))
    ensures KeyOf(f.(status := Finalized)) !in m && KeyOf(f.(status := Finalized)) != k
  {
    var g := f.(status := Finalized);
    AlikeSameSlot(env, m[k], f);
    AlikeSameSlot(env, m[k], g);
    AlikeSameSlot(env, m[k].(status := Finalized), g);
    DropKeepsStore(env, m, k);
    FreeKey(env, m - {k}, g);
    hide KeyOf;
    KeyTellsStatus(g, Finalized);
    KeyTellsStatus(f, Finalized);
  }

  lemma FinalizeLeaks(env: Env, s: State, key: bytes, v: Verdict)
    requires ValidEnv(env) && Inv(env, s)
    ensures LeaksExactly(s, Apply(env, s, FinalizeStep(key, v)), Leak(env, s, FinalizeStep(key, v)))
  {
    hide Inv, Finalize, KeyOf, Restore, PayeeOf;
    if Finalize(env, s, key, v).Some? {
      FinalizeEffect(env, s, key, v);
      IndexFacts(env, s, key);
      RestoredPayee(s.packets[key]);
      DropLeaks(s, Finalize(env, s, key, v).value, key, KeyOf(s.packets[key].(status := Finalized)),
                if s.packets[key].ptype == OnRecv && v.ack != NoAck && v.channelFound
                then PayeeOf(Restore(s.packets[key])) else PayeeOf(s.packets[key]));
    }
  }

  /** Moving a listed packet away while dropping the entry for address a. */
  lemma DropLeaks(s: State, t: State, k: bytes, fk: bytes, a: Text)
    requires IsPending(s.packets, k) && s.packets[k].packet.data.Parses() && (PayeeOf(s.packets[k]), k) in s.index
    requires fk !in s.packets && fk != k && fk in t.packets && t.packets[fk].status == Finalized
    requires t.packets == (s.packets - {k})[fk := t.packets[fk]] && t.index == s.index - {(a, k)}
    ensures LeaksExactly(s, t, if a == PayeeOf(s.packets[k]) then {} else {(PayeeOf(s.packets[k]), k)})
  {
    hide PayeeOf;
  }

  lemma RestoredPayee(p: RollappPacket)
    requires p.packet.data.Parses() && p.ptype != Undefined
    ensures PayeeOf(Restore(p)) != PayeeOf(p) <==> MovedPayee(p)
  {
  }

  lemma IndexFacts(env: Env, s: State, k: bytes)
    requires Inv(env, s) && IsPending(s.packets, k)
    ensures s.packets[k].packet.data.Parses() && (PayeeOf(s.packets[k]), k) in s.index
  {
  }

  lemma ForkLeaks(env: Env, s: State, r: Text, h: u64)
    requires Inv(env, s)
    ensures LeaksExactly(s, Apply(env, s, ForkStep(r, h)), Leak(env, s, ForkStep(r, h)))
  {
    hide Inv, ForkKeys, Apply, Reopened, PayeeOf, Restore, KeyOf;
    ForkEffect(env, s, r, h);
    ForkKeysArePending(env, s, r, h);
    var ks := ForkKeys(s, r, h);
    forall k | k in ks
      ensures (PayeeOf(s.packets[k]), k) in s.index
      ensures PayeeOf(Dropped(s.packets[k])) != PayeeOf(s.packets[k]) <==> LeaksOnFork(s.packets[k]) {
      IndexFacts(env, s, k);
      StoredFacts(env, s, k);
      RestoredPayee(s.packets[k]);
    }
    ForkStale(s, ks, Apply(env, s, ForkStep(r, h)));
  }

  lemma ForkStale(s: State, ks: seq<bytes>, t: State)
    requires Within(ks, s.packets) && ForkedBy(s, ks, t)
    requires forall k :: k in ks ==> IsPending(s.packets, k) && (PayeeOf(s.packets[k]), k) in s.index
    requires forall k :: k in ks ==>
               (PayeeOf(Dropped(s.packets[k])) != PayeeOf(s.packets[k]) <==> LeaksOnFork(s.packets[k]))
    ensures LeaksExactly(s, t, set k | k in ks && s.packets[k].packet.data.Parses()
            && LeaksOnFork(s.packets[k]) :: (PayeeOf(s.packets[k]), k))
  {
    hide PayeeOf, Reopened, LeaksOnFork, Dropped;
    var leak := set k | k in ks && s.packets[k].packet.data.Parses()
      && LeaksOnFork(s.packets[k]) :: (PayeeOf(s.packets[k]), k);
    forall e | e in Stale(t) ensures e in Stale(s) + leak {
      if e.1 in ks && Good(s.packets, e) {
        assert e == (PayeeOf(s.packets[e.1]), e.1);
      }
    }
  }

  lemma EpochLeaksNothing(env: Env, s: State, limit: int)
    requires ValidEnv(env) && Inv(env, s)
    ensures LeaksExactly(s, Apply(env, s, EpochStep(limit)), {})
  {
    hide Inv, Apply, FinalizedKeys, RoundsFor, PayeeOf;
    EpochDeletesExactly(env, s, limit);
  }

  /** Every step but two keeps the index sound; finalizing a redirected incoming packet whose acknowledgement was
      attempted, and reverting a redirected sent one, leave exactly the entry (fulfiller, old key). */
  lemma StepLeaksExactly(env: Env, s: State, step: Step)
    requires ValidEnv(env) && Inv(env, s)
    ensures LeaksExactly(s, Apply(env, s, step), Leak(env, s, step))
  {
    hide Inv, HeldOrSame, LeaksExactly, RecvTx, OutcomeTx;
    match step
    case SendStep(p) => SameLeaksNothing(s, SendTx(env, s, p));
    case RecvStep(p, h, relayer, o) =>
      RecvHolds(env, s, p, h, relayer, o);
      HoldingLeaksNothing(s, Apply(env, s, step));
    case AckStep(p, ack, h, relayer, o) =>
      OutcomeHolds(env, s, OnAck, p, ack, h, relayer, o);
      HoldingLeaksNothing(s, Apply(env, s, step));
    case TimeoutStep(p, h, relayer, o) =>
      OutcomeHolds(env, s, OnTimeout, p, [], h, relayer, o);
      HoldingLeaksNothing(s, Apply(env, s, step));
    case FulfillStep(id, src, who, ok) => FulfillLeaksNothing(env, s, id, src, who, ok);
    case FinalizeStep(key, v) => FinalizeLeaks(env, s, key, v);
    case ForkStep(r, h) => ForkLeaks(env, s, r, h);
    case EpochStep(limit) => EpochLeaksNothing(env, s, limit);
    case HeightStep(r, h) => SameLeaksNothing(s, RaiseHeight(s, r, h));
  }

  lemma SameLeaksNothing(s: State, t: State)
    requires t.packets == s.packets && t.index == s.index
    ensures LeaksExactly(s, t, {})
  {
  }

  /** All that leaked along a run. */
  function Leaked(env: Env, steps: seq<Step>): (r: set<Entry>) {
    if steps == [] then {} else
    var front, last := steps[..|steps| - 1], steps[|steps| - 1];
    Leaked(env, front) + Leak(env, Run(env, front), last)
  }

  /** Along every run the stale entries are among those leaked; without a leak the index is exact. */
  lemma {:induction false} RunLeaks(env: Env, steps: seq<Step>)
    requires ValidEnv(env)
    ensures Stale(Run(env, steps)) <= Leaked(env, steps)
  {
    hide Inv, Apply, Leak, Stale;
    if steps == [] {
      GenesisSound();
    } else {
      var front, last := steps[..|steps| - 1], steps[|steps| - 1];
      RunLeaks(env, front);
      RunKeepsInv(env, front);
      StepLeaksExactly(env, Run(env, front), last);
    }
  }

  lemma GenesisSound()
    ensures Stale(GENESIS) == {}
  {
  }

  // ---------------------------------------------------------------- queries by address

  /** Keys the index lists under an address. */
  function Listed(s: State, a: Text): set<bytes> { set e | e in s.index && e.0 == a :: e.1 }

  /** GetPendingPacketsByAddress: walk the entries in key order; a missing packet is an error. */
  function QueryByAddress(s: State, a: Text): (r: Option<seq<RollappPacket>>) {
    var ks := Keys(Listed(s, a));
    if forall k :: k in ks ==> k in s.packets then Some(Lookup(s.packets, ks)) else None
  }

  function PaysTo(s: State, a: Text): set<bytes> { set k | k in s.packets && Good(s.packets, (a, k)) }

  /** The packets an address is waiting for, in key order, found without the index. */
  function PendingFor(s: State, a: Text): (r: seq<RollappPacket>) {
    PaysToStored(s, a);
    Lookup(s.packets, Keys(PaysTo(s, a)))
  }

  predicate NoStaleFor(s: State, a: Text) { forall e :: e in Stale(s) ==> e.0 != a }

  lemma {:induction false} LookupInjective(m: Store, a: seq<bytes>, b: seq<bytes>)
    requires Keyed(m) && (forall k :: k in a ==> k in m) && (forall k :: k in b ==> k in m)
    requires Lookup(m, a) == Lookup(m, b)
    ensures a == b
  {
    assert |a| == |Lookup(m, a)| == |Lookup(m, b)| == |b|;
    forall i | 0 <= i < |a| ensures a[i] == b[i] {
      assert m[a[i]] == Lookup(m, a)[i] == Lookup(m, b)[i] == m[b[i]];
      assert KeyOf(m[a[i]]) == a[i] && KeyOf(m[b[i]]) == b[i];
    }
  }

  lemma ListedIsExact(s: State, a: Text)
    requires Indexed(s.packets, s.index)
    ensures Listed(s, a) == PaysTo(s, a) <==> NoStaleFor(s, a)
  {
    hide PayeeOf;
    forall k | k in PaysTo(s, a) ensures k in Listed(s, a) {
      assert IsPending(s.packets, k);
      assert (a, k) in s.index;
    }
    if NoStaleFor(s, a) {
      forall k | k in Listed(s, a) ensures k in PaysTo(s, a) {
        assert (a, k) in s.index;
        assert (a, k) !in Stale(s);
      }
    }
    if Listed(s, a) == PaysTo(s, a) {
      forall e | e in Stale(s) ensures e.0 != a {
        assert e == (e.0, e.1);
        assert e.0 == a ==> e.1 in Listed(s, a);
      }
    }
  }

  /** A query by address answers with exactly the pending packets that pay it, in key order, if and only if the index
      holds no stale entry for that address. */
  lemma QueryIsExact(env: Env, s: State, a: Text)
    requires Inv(env, s)
    ensures QueryByAddress(s, a) == Some(PendingFor(s, a)) <==> NoStaleFor(s, a)
  {
    hide Inv, KeyOf, Indexed, NoStaleFor, Keyed, AllOk, Alone, Listed, PaysTo;
    StoreParts(env, s);
    InvIndexed(env, s);
    ListedIsExact(s, a);
    PaysToStored(s, a);
    if QueryByAddress(s, a) == Some(PendingFor(s, a)) {
      LookupInjective(s.packets, Keys(Listed(s, a)), Keys(PaysTo(s, a)));
      assert forall k :: k in Listed(s, a) <==> k in PaysTo(s, a);
    }
  }

  lemma PaysToStored(s: State, a: Text)
    ensures forall k :: k in PaysTo(s, a) ==> k in s.packets
  {
  }

  lemma InvIndexed(env: Env, s: State)
    requires Inv(env, s)
    ensures Indexed(s.packets, s.index)
  {
  }

  /** Finalizing a fulfilled incoming packet makes every later query by its fulfiller fail, until something revives
      the entry. */
  lemma FulfilledFinalizeBreaksQuery(env: Env, s: State, key: bytes, v: Verdict)
    requires ValidEnv(env) && Inv(env, s) && Finalize(env, s, key, v).Some? && s.packets[key].packet.data.Parses()
    requires LeaksOnFinalize(s.packets[key], v)
    ensures QueryByAddress(Apply(env, s, FinalizeStep(key, v)), PayeeOf(s.packets[key])).None?
  {
    hide Inv, Finalize, KeyOf, PayeeOf, Restore;
    var t := Apply(env, s, FinalizeStep(key, v));
    StepLeaksExactly(env, s, FinalizeStep(key, v));
    FinalizeEffect(env, s, key, v);
    var a := PayeeOf(s.packets[key]);
    assert (a, key) in Stale(t);
    assert key in Listed(t, a);
    assert key in Keys(Listed(t, a)) && key !in t.packets;
  }
}
