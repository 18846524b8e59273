/** What a hard fork removes, reopens and leaves alone. */
module HubFork {
  import opened Bytes
  import opened SortedStore
  import opened Packets
  import opened PacketKey
  import opened Hub
  import opened HubInvariant
  import opened HubRuns

  /** The packet in whose place the index entry is dropped: a sent packet has been restored by then. */
  function Dropped(p: RollappPacket): (q: RollappPacket)
    requires p.packet.data.Parses()
    ensures q.packet.data.Parses()
  {
    if IsSent(p.ptype) then Restore(p) else p
  }

  ghost predicate Within(ks: seq<bytes>, m: Store) {
    forall k :: k in ks ==> k in m && m[k].packet.data.Parses()
  }

  ghost predicate AmongSlots(m: Store, ks: seq<bytes>, side: Side, slot: Slot)
    requires Within(ks, m)
  {
    exists k :: k in ks && SideOf(m[k].ptype) == side && SlotFor(m[k]) == slot
  }

  /** The guards of exactly these packets are open again. */
  ghost predicate Reopened(m: Store, ks: seq<bytes>, a: Ibc, b: Ibc)
    requires Within(ks, m)
  {
    && b.sent == a.sent && b.acks == a.acks
    && (forall c :: c in b.receipts <==> c in a.receipts && !AmongSlots(m, ks, In, c))
    && (forall c :: c in b.commitments <==> c in a.commitments || AmongSlots(m, ks, Out, c))
  }

  /** Of each of these packets one index entry is gone. */
  ghost predicate Unlisted(m: Store, ks: seq<bytes>, a: set<(Text, bytes)>, b: set<(Text, bytes)>)
    requires Within(ks, m)
  {
    forall e :: e in b <==> e in a && !(e.1 in ks && e.0 == PayeeOf(Dropped(m[e.1])))
  }

  /** The orders made for these packets, under either status. */
  function OrdersFor(ks: seq<bytes>): set<(Status, bytes)> {
    (set k | k in ks :: (Pending, k)) + (set k | k in ks :: (Finalized, k))
  }

  ghost predicate ForkedBy(s: State, ks: seq<bytes>, t: State)
    requires Within(ks, s.packets)
  {
    && t.packets == s.packets - (set k | k in ks) && t.orders == s.orders - OrdersFor(ks)
    && t.log == s.log && t.finalized == s.finalized
    && Reopened(s.packets, ks, s.ibc, t.ibc) && Unlisted(s.packets, ks, s.index, t.index)
  }

  lemma SlotsStep(m: Store, ks: seq<bytes>, side: Side, slot: Slot)
    requires ks != [] && Within(ks, m) && Within(ks[1..], m - {ks[0]})
    ensures AmongSlots(m, ks, side, slot) <==>
              (SideOf(m[ks[0]].ptype) == side && SlotFor(m[ks[0]]) == slot)
                || AmongSlots(m - {ks[0]}, ks[1..], side, slot)
  {
    assert ks == [ks[0]] + ks[1..];
    assert ks[0] in ks;
  }

  lemma ReopenStep(m: Store, ks: seq<bytes>, a: Ibc, b: Ibc)
    requires ks != [] && Within(ks, m) && Within(ks[1..], m - {ks[0]})
    requires Reopened(m - {ks[0]}, ks[1..], Reopen(a, m[ks[0]]), b)
    ensures Reopened(m, ks, a, b)
  {
    forall side, slot ensures AmongSlots(m, ks, side, slot) <==>
        (SideOf(m[ks[0]].ptype) == side && SlotFor(m[ks[0]]) == slot) || AmongSlots(m - {ks[0]}, ks[1..], side, slot) {
      SlotsStep(m, ks, side, slot);
    }
    hide Restore, AmongSlots;
  }

  lemma UnlistStep(m: Store, ks: seq<bytes>, a: set<(Text, bytes)>, b: set<(Text, bytes)>)
    requires ks != [] && Ascending(ks) && Within(ks, m) && Within(ks[1..], m - {ks[0]})
    requires Unlisted(m - {ks[0]}, ks[1..], a - {(PayeeOf(Dropped(m[ks[0]])), ks[0])}, b)
    ensures Unlisted(m, ks, a, b)
  {
    hide Dropped, PayeeOf;
    TailExcludesHead(ks);
    assert forall k :: k in ks <==> k == ks[0] || k in ks[1..] by { assert ks == [ks[0]] + ks[1..]; }
  }

  lemma OrdersStep(orders: Orders, ks: seq<bytes>)
    requires ks != []
    ensures orders - OrdersFor(ks) == orders - {(Pending, ks[0]), (Finalized, ks[0])} - OrdersFor(ks[1..])
  {
    assert ks == [ks[0]] + ks[1..];
    assert OrdersFor(ks) == {(Pending, ks[0]), (Finalized, ks[0])} + OrdersFor(ks[1..]);
  }

  lemma RevertStep(s: State, ks: seq<bytes>, t: State, u: State)
    requires ks != [] && Ascending(ks) && Within(ks, s.packets) && Within(ks[1..], t.packets)
    requires t == s.(packets := s.packets - {ks[0]}, ibc := Reopen(s.ibc, s.packets[ks[0]]),
                     orders := s.orders - {(Pending, ks[0]), (Finalized, ks[0])},
                     index := s.index - {(PayeeOf(Dropped(s.packets[ks[0]])), ks[0])})
    requires ForkedBy(t, ks[1..], u)
    ensures ForkedBy(s, ks, u)
  {
    hide Dropped, PayeeOf, Reopen, Reopened, Unlisted, OrdersFor;
    assert forall k :: k in ks <==> k == ks[0] || k in ks[1..] by { assert ks == [ks[0]] + ks[1..]; }
    assert s.packets - (set k | k in ks) == t.packets - (set k | k in ks[1..]);
    OrdersStep(s.orders, ks);
    ReopenStep(s.packets, ks, s.ibc, u.ibc);
    UnlistStep(s.packets, ks, s.index, u.index);
  }

  lemma {:induction false} RevertAllEffect(env: Env, s: State, ks: seq<bytes>)
    requires Inv(env, s) && Ascending(ks) && forall i :: 0 <= i < |ks| ==> IsPending(s.packets, ks[i])
    ensures Within(ks, s.packets) && AllParse(Lookup(s.packets, ks))
    ensures ForkedBy(s, ks, RevertAll(s, Lookup(s.packets, ks)))
    decreases |ks|
  {
    hide Inv, Revert, Reopen;
    forall k | k in ks ensures k in s.packets && s.packets[k].packet.data.Parses() { StoredFacts(env, s, k); }
    if ks != [] {
      RevertEffect(env, s, ks[0]);
      RevertKeepsInv(env, s, ks[0]);
      var t := Revert(s, s.packets[ks[0]]);
      TailStays(s.packets, ks);
      RevertAllEffect(env, t, ks[1..]);
      RevertStep(s, ks, t, RevertAll(t, Lookup(t.packets, ks[1..])));
    }
  }

  // ---------------------------------------------------------------- the fork as a whole

  /** Which packets the scan of OnHardFork meets. */
  lemma ForkKeysAre(env: Env, s: State, r: Text, lastValid: u64, k: bytes)
    requires ValidEnv(env) && Inv(env, s) && SlashFree(r) && k in s.packets
    ensures k in ForkKeys(s, r, lastValid) <==>
              var p := s.packets[k];
              p.status == Pending && p.rollappId == r && ForkFrom(lastValid) <= p.proofHeight < MAX_U64
  {
    hide Inv, HeightPrefix, KeyOf;
    StoredFacts(env, s, k);
    HeightRangeIsExact(Pending, r, ForkFrom(lastValid), MAX_U64, s.packets[k]);
  }

  /** Everything a fork does, on every state that a run can reach. */
  lemma ForkEffect(env: Env, s: State, r: Text, lastValid: u64)
    requires Inv(env, s)
    ensures Within(ForkKeys(s, r, lastValid), s.packets)
    ensures ForkedBy(s, ForkKeys(s, r, lastValid), Apply(env, s, ForkStep(r, lastValid)))
  {
    hide Inv, ForkedBy, RevertAll;
    ForkKeysArePending(env, s, r, lastValid);
    RevertAllEffect(env, s, ForkKeys(s, r, lastValid));
  }

  /** The packets that a fork back to lastValid is meant to revert. */
  predicate ToRevert(p: RollappPacket, r: Text, lastValid: u64) {
    p.status == Pending && p.rollappId == r && p.proofHeight > lastValid
  }

  /** The scan wraps at the largest height and stops short of it; this is when that does not show. */
  ghost predicate ScanFits(m: Store, r: Text, lastValid: u64) {
    forall k :: k in m && m[k].status == Pending && m[k].rollappId == r ==>
      if lastValid == MAX_U64 then m[k].proofHeight == MAX_U64 else m[k].proofHeight < MAX_U64
  }

  /** A fork removes exactly the packets it is meant to if and only if the scan fits the heights in the store. */
  lemma ForkRemovesExactly(env: Env, s: State, r: Text, lastValid: u64)
    requires ValidEnv(env) && Inv(env, s) && SlashFree(r)
    ensures var t := Apply(env, s, ForkStep(r, lastValid));
            (forall k :: k in s.packets ==> (k !in t.packets <==> ToRevert(s.packets[k], r, lastValid)))
            <==> ScanFits(s.packets, r, lastValid)
    ensures var t := Apply(env, s, ForkStep(r, lastValid));
            forall k :: k in t.packets ==> k in s.packets && t.packets[k] == s.packets[k]
  {
    hide Inv, Apply, ForkKeys, KeyOf, Reopened, Unlisted;
    var t := Apply(env, s, ForkStep(r, lastValid));
    ForkEffect(env, s, r, lastValid);
    forall k | k in s.packets
      ensures k !in t.packets <==>
              (var p := s.packets[k];
               p.status == Pending && p.rollappId == r && ForkFrom(lastValid) <= p.proofHeight < MAX_U64) {
      ForkKeysAre(env, s, r, lastValid, k);
    }
  }

  /** A store in which the fork misses a packet: one proved at the largest height. */
  lemma ForkMissesLargestHeight(env: Env, s: State, r: Text, lastValid: u64, k: bytes)
    requires ValidEnv(env) && Inv(env, s) && SlashFree(r) && lastValid < MAX_U64
    requires IsPending(s.packets, k) && s.packets[k].rollappId == r && s.packets[k].proofHeight == MAX_U64
    ensures k in Apply(env, s, ForkStep(r, lastValid)).packets
  {
    hide Inv, Apply, ForkKeys, KeyOf;
    ForkEffect(env, s, r, lastValid);
    ForkKeysAre(env, s, r, lastValid, k);
  }

  /** Every reverted packet is admitted by ICS-04 again: an incoming one has no receipt, and a sent one has the
      commitment of the packet as it was first sent, even if a fulfilment had changed its payee. */
  lemma RevertedIsAdmittedAgain(env: Env, s: State, r: Text, lastValid: u64, k: bytes)
    requires ValidEnv(env) && Inv(env, s) && k in ForkKeys(s, r, lastValid)
    ensures var p, t := s.packets[k], Apply(env, s, ForkStep(r, lastValid));
            && !Closed(t.ibc, SideOf(p.ptype), SlotFor(p))
            && (IsSent(p.ptype) ==> SlotFor(p) in s.ibc.sent && SlotFor(p) in t.ibc.commitments
                                    && t.ibc.commitments[SlotFor(p)] == s.ibc.sent[SlotFor(p)])
  {
    hide Inv, Apply, KeyOf, ForkKeys, Unlisted;
    var t := Apply(env, s, ForkStep(r, lastValid));
    ForkEffect(env, s, r, lastValid);
    StepKeepsInv(env, s, ForkStep(r, lastValid));
    StoredFacts(env, s, k);
    CommitmentFacts(env, t, SlotFor(s.packets[k]));
    assert AmongSlots(s.packets, ForkKeys(s, r, lastValid), SideOf(s.packets[k].ptype), SlotFor(s.packets[k]));
  }

  /** ... so the next delivery of an incoming one is accepted, whatever the modules below then answer. */
  lemma RevertedCanBeReceived(env: Env, s: State, r: Text, lastValid: u64, k: bytes, p: Packet, h: u64,
                              relayer: bytes, o: Outcome)
    requires ValidEnv(env) && Inv(env, s) && k in ForkKeys(s, r, lastValid)
    requires !IsSent(s.packets[k].ptype) && SlotOf(OnRecv, p) == SlotFor(s.packets[k])
             && Routed(env, DstEnd(p), SrcEnd(p))
    ensures var t := Apply(env, s, ForkStep(r, lastValid));
            SlotOf(OnRecv, p) in Apply(env, t, RecvStep(p, h, relayer, o)).ibc.receipts
  {
    var t := Apply(env, s, ForkStep(r, lastValid));
    hide Inv, ForkKeys, Apply, KeyOf;
    RevertedIsAdmittedAgain(env, s, r, lastValid, k);
    StepKeepsInv(env, s, ForkStep(r, lastValid));
    OpenIsReceived(env, t, p, h, relayer, o);
  }

  lemma OpenIsReceived(env: Env, s: State, p: Packet, h: u64, relayer: bytes, o: Outcome)
    requires Inv(env, s) && SlotOf(OnRecv, p) !in s.ibc.receipts && Routed(env, DstEnd(p), SrcEnd(p))
    ensures SlotOf(OnRecv, p) in Apply(env, s, RecvStep(p, h, relayer, o)).ibc.receipts
  {
    hide Inv, KeyOf, OnRecvPacket;
    AckFacts(env, s, SlotOf(OnRecv, p));
    var s1 := s.(ibc := s.ibc.(receipts := s.ibc.receipts + {SlotOf(OnRecv, p)}));
    OnRecvKeepsIbc(env, s1, p, h, relayer, o);
  }

  lemma OnRecvKeepsIbc(env: Env, s: State, p: Packet, h: u64, relayer: bytes, o: Outcome)
    ensures OnRecvPacket(env, s, p, h, relayer, o).0.ibc == s.ibc
  {
    hide KeyOf, GetValidTransfer;
  }

  /** ... and the next outcome of a sent one, reported for the packet first sent, passes the commitment check and
      reaches the middleware again. */
  lemma RevertedCanBeSettled(env: Env, s: State, r: Text, lastValid: u64, k: bytes, p: Packet, t: PacketType,
                             ack: bytes, h: u64, relayer: bytes, o: Outcome)
    requires ValidEnv(env) && Inv(env, s) && k in ForkKeys(s, r, lastValid)
    requires IsSent(s.packets[k].ptype) && IsSent(t)
    requires LastSaved(s.log, k).Some? && LastSaved(s.log, k).value.packet == p
    ensures var forked, slot := Apply(env, s, ForkStep(r, lastValid)), SlotFor(s.packets[k]);
            && slot in forked.ibc.commitments && forked.ibc.commitments[slot] == CommitPacket(p)
            && OutcomeTx(env, forked, t, p, ack, h, relayer, o)
                 == Tx(forked, OnOutcomePacket(env, Consume(forked, slot), t, p, ack, h, relayer, o))
  {
    hide Inv, ForkKeys, KeyOf, Apply, OnOutcomePacket;
    RevertedIsAdmittedAgain(env, s, r, lastValid, k);
    ForkKeysArePending(env, s, r, lastValid);
    SentOrigin(env, s, k);
    StoredFacts(env, s, k);
  }

  /** The commitment is taken before the outcome is handled. */
  function Consume(s: State, slot: Slot): State { s.(ibc := s.ibc.(commitments := s.ibc.commitments - {slot})) }

  lemma SentOrigin(env: Env, s: State, k: bytes)
    requires Inv(env, s) && IsPending(s.packets, k) && IsSent(s.packets[k].ptype)
    ensures LastSaved(s.log, k).Some? && SlotFor(s.packets[k]) in s.ibc.sent
    ensures var p, q := LastSaved(s.log, k).value.packet, s.packets[k].packet;
            SrcEnd(p) == SrcEnd(q) && DstEnd(p) == DstEnd(q) && p.sequence == q.sequence
    ensures CommitPacket(LastSaved(s.log, k).value.packet) == s.ibc.sent[SlotFor(s.packets[k])]
  {
    assert FromReceived(s.packets[k], LastSaved(s.log, k)) && FromSent(s.packets[k], s.ibc);
  }
}
