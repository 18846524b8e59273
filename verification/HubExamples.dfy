/** Runs on which properties fail that one would expect of the hub. */
module HubExamples {
  import opened Bytes
  import opened Packets
  import opened PacketKey
  import opened Hub
  import opened HubInvariant
  import opened HubRuns
  import opened HubSafety
  import opened HubFork
  import opened HubEpoch
  import opened HubIndex
  import opened Genesis
  import opened Ante
  import opened ProofHeights
  import opened Transactions
  import Listing

  // ---------------------------------------------------------------- a run that leaves a stale entry

  /** An incoming packet that the middleware holds and offers on the market. */
  ghost predicate Holdable(env: Env, p: Packet, r: Text) {
    && ValidEnv(env) && Routed(env, DstEnd(p), SrcEnd(p)) && p.data.Parses()
    && GetValidTransfer(env, p.data, DstEnd(p)) == OfRollapp(r)
  }

  /** Receive, fulfil, finalize the height, finalize the packet. */
  function LeakRun(p: Packet, r: Text, h: u64, src: Text, who: Text, v: Verdict): seq<Step> {
    var key := KeyOf(NewPacket(r, p, [], h, [], OnRecv));
    [RecvStep(p, h, [], Offered(false)),
     FulfillStep(key, src, who, true),
     HeightStep(r, h),
     FinalizeStep(key, v)]
  }

  /** The module below would take the packet, and the market offers it. */
  function Offered(hook: bool): Outcome { Outcome(SuccessAck, true, Result, NewOrder(hook)) }

  lemma AfterRecv(env: Env, p: Packet, r: Text, h: u64, hook: bool)
    requires Holdable(env, p, r)
    ensures var q := NewPacket(r, p, [], h, [], OnRecv);
            var s := Apply(env, GENESIS, RecvStep(p, h, [], Offered(hook)));
            && s.packets == map[KeyOf(q) := q] && s.index == {(p.data.transfer.receiver, KeyOf(q))}
            && s.finalized == map[]
            && s.orders == map[(Pending, KeyOf(q)) := Order(KeyOf(q), p.data.transfer.receiver, [], hook)]
            && s.log == [Saved(KeyOf(q), Call(OnRecv, p, [], []))]
  {
    hide KeyOf, GetValidTransfer;
  }

  lemma AfterFulfil(env: Env, s: State, q: RollappPacket, src: Text, who: Text)
    requires q.packet.data.Parses() && q.status == Pending && src != [] && who != []
    requires s.packets == map[KeyOf(q) := q] && s.index == {(PayeeOf(q), KeyOf(q))} && s.finalized == map[]
    requires s.orders == map[(Pending, KeyOf(q)) := Order(KeyOf(q), PayeeOf(q), [], false)]
    ensures var t := Apply(env, s, FulfillStep(KeyOf(q), src, who, true));
            t.packets == map[KeyOf(q) := Redirect(q, src)] && t.index == {(src, KeyOf(q))} && t.log == s.log
  {
    RedirectKeepsKey(q, src);
    hide KeyOf, Redirect;
    var t := Apply(env, s, FulfillStep(KeyOf(q), src, who, true));
    assert t.packets == map[KeyOf(q) := q][KeyOf(q) := Redirect(q, src)];
  }

  lemma FinalizeSucceeds(env: Env, s: State, key: bytes, v: Verdict)
    requires IsPending(s.packets, key) && s.packets[key].packet.data.Parses()
    requires HeightFinalized(s, s.packets[key].rollappId, s.packets[key].proofHeight)
    ensures Finalize(env, s, key, v).Some?
  {
    hide KeyOf;
  }

  lemma RunSnoc(env: Env, steps: seq<Step>, last: Step)
    ensures Run(env, steps + [last]) == Apply(env, Run(env, steps), last)
  {
    assert (steps + [last])[..|steps|] == steps;
  }

  /** The index can be left with a stale entry: after this run the fulfiller's query fails, for every packet that can
      be held, every height, every fulfiller other than the receiver and every acknowledgement sent. */
  lemma LeakHappens(env: Env, p: Packet, r: Text, h: u64, src: Text, who: Text, v: Verdict)
    requires Holdable(env, p, r) && src != [] && who != [] && src != p.data.transfer.receiver
    requires v.ack != NoAck && v.channelFound
    ensures var key := KeyOf(NewPacket(r, p, [], h, [], OnRecv));
            var s := Run(env, LeakRun(p, r, h, src, who, v));
            Stale(s) == {(src, key)} && QueryByAddress(s, src).None?
  {
    var q := NewPacket(r, p, [], h, [], OnRecv);
    var key := KeyOf(q);
    var steps := LeakRun(p, r, h, src, who, v);
    hide KeyOf, Apply, Run, Inv, Finalize, QueryByAddress, Stale, GetValidTransfer, Holdable, ValidEnv;
    HoldableFacts(env, p, r);
    RunOfFour(env, steps);
    AfterRecv(env, p, r, h, false);
    var s1 := Apply(env, GENESIS, steps[0]);
    AfterFulfil(env, s1, q, src, who);
    var s2 := Apply(env, s1, steps[1]);
    var s3 := Apply(env, s2, steps[2]);
    Raised(env, s2, r, h);
    assert s3.packets[key] == Redirect(q, src);
    RunKeepsInv(env, steps[..3]);
    FinalizeSucceeds(env, s3, key, v);
    FulfilledFinalizeBreaksQuery(env, s3, key, v);
    StepLeaksExactly(env, s3, steps[3]);
    NoneStale(s3, key, src);
  }

  lemma HoldableFacts(env: Env, p: Packet, r: Text)
    requires Holdable(env, p, r)
    ensures ValidEnv(env) && p.data.Parses() && p.data.transfer.receiver != [] && SlashFree(r)
    ensures forall h :: ValidHeld(env, NewPacket(r, p, [], h, [], OnRecv))
  {
  }

  lemma RunOfOne(env: Env, a: Step)
    ensures Run(env, [a]) == Apply(env, GENESIS, a)
  {
    hide Apply;
    RunSnoc(env, [], a);
    assert [] + [a] == [a];
  }

  lemma RunOfTwo(env: Env, a: Step, b: Step)
    ensures Run(env, [a, b]) == Apply(env, Apply(env, GENESIS, a), b)
  {
    hide Apply, Run;
    RunOfOne(env, a);
    RunSnoc(env, [a], b);
    assert [a] + [b] == [a, b];
  }

  lemma RunOfThree(env: Env, a: Step, b: Step, c: Step)
    ensures Run(env, [a, b, c]) == Apply(env, Run(env, [a, b]), c)
    ensures Run(env, [a, b]) == Apply(env, Apply(env, GENESIS, a), b)
  {
    hide Apply, Run;
    RunOfTwo(env, a, b);
    RunSnoc(env, [a, b], c);
    assert [a, b] + [c] == [a, b, c];
  }

  lemma RunOfFour(env: Env, steps: seq<Step>)
    requires |steps| == 4
    ensures Run(env, steps[..3]) == Apply(env, Apply(env, Apply(env, GENESIS, steps[0]), steps[1]), steps[2])
    ensures Run(env, steps) == Apply(env, Run(env, steps[..3]), steps[3])
  {
    hide Apply, Run;
    RunOfThree(env, steps[0], steps[1], steps[2]);
    RunSnoc(env, steps[..3], steps[3]);
    assert steps[..3] == [steps[0], steps[1], steps[2]] && steps == steps[..3] + [steps[3]];
  }

  lemma Raised(env: Env, s: State, r: Text, h: u64)
    ensures var t := Apply(env, s, HeightStep(r, h)); t == s.(finalized := t.finalized) && HeightFinalized(t, r, h)
  {
  }

  lemma NoneStale(s: State, key: bytes, src: Text)
    requires s.index == {(src, key)} && IsPending(s.packets, key) && s.packets[key].packet.data.Parses()
             && PayeeOf(s.packets[key]) == src
    ensures Stale(s) == {}
  {
  }

  /** On this run a packet whose data was not spelled canonically is acknowledged with other bytes than received. */
  lemma RespelledAckDiffers(env: Env, p: Packet, r: Text, h: u64, src: Text, who: Text, v: Verdict)
    requires Holdable(env, p, r) && src != [] && who != [] && p.data.Respelled?
    requires v.ack != NoAck && v.channelFound && v.ackAccepted
    ensures var acks := Run(env, LeakRun(p, r, h, src, who, v)).ibc.acks;
            SlotOf(OnRecv, p) in acks && acks[SlotOf(OnRecv, p)].packet != p
  {
    hide KeyOf, Apply, Run, Inv, GetValidTransfer, Holdable, ValidEnv;
    HoldableFacts(env, p, r);
    var q := NewPacket(r, p, [], h, [], OnRecv);
    var key, steps := KeyOf(q), LeakRun(p, r, h, src, who, v);
    RunOfFour(env, steps);
    AfterRecv(env, p, r, h, false);
    var s1 := Apply(env, GENESIS, steps[0]);
    AfterFulfil(env, s1, q, src, who);
    var s2 := Apply(env, s1, steps[1]);
    var s3 := Apply(env, s2, steps[2]);
    Raised(env, s2, r, h);
    RunKeepsInv(env, steps[..3]);
    assert SlotFor(Redirect(q, src)) == SlotOf(OnRecv, p);
    SavedOnce(key, Call(OnRecv, p, [], []));
    AckedBytesExactly(env, s3, key, v, Run(env, steps));
  }

  lemma SavedOnce(k: bytes, c: Call)
    ensures LastSaved([Saved(k, c)], k) == Some(c)
  {
  }

  // ---------------------------------------------------------------- a fork that leaves a stale entry

  /** A packet the hub sends to a rollapp, whose timeout the middleware holds. */
  ghost predicate Refundable(env: Env, p: Packet, r: Text) {
    && ValidEnv(env) && Routed(env, SrcEnd(p), DstEnd(p)) && p.data.Canonical?
    && GetValidTransfer(env, p.data, SrcEnd(p)) == OfRollapp(r)
  }

  lemma RefundableFacts(env: Env, p: Packet, r: Text)
    requires Refundable(env, p, r)
    ensures ValidEnv(env) && p.data.Parses() && p.data.transfer.sender != [] && SlashFree(r)
  {
  }

  /** Send, time out, fulfil, fork. */
  function ForkLeakRun(p: Packet, r: Text, h: u64, src: Text, who: Text, lastValid: u64): seq<Step> {
    [SendStep(p), TimeoutStep(p, h, [], Offered(false)),
      FulfillStep(KeyOf(NewPacket(r, p, [], h, [], OnTimeout)), src, who, true),
     ForkStep(r, lastValid)]
  }

  lemma AfterTimeout(env: Env, p: Packet, r: Text, h: u64)
    requires Refundable(env, p, r)
    ensures var q := NewPacket(r, p, [], h, [], OnTimeout);
            var s := Apply(env, Apply(env, GENESIS, SendStep(p)), TimeoutStep(p, h, [], Offered(false)));
            && s.packets == map[KeyOf(q) := q] && s.index == {(p.data.transfer.sender, KeyOf(q))}
            && s.finalized == map[]
            && s.orders == map[(Pending, KeyOf(q)) := Order(KeyOf(q), p.data.transfer.sender, [], false)]
  {
    hide KeyOf, GetValidTransfer;
    assert SlotOf(OnAck, p) == SlotOf(OnTimeout, p);
  }

  /** So can a fork, by reverting the fulfilled timeout of a packet the hub has sent. */
  lemma ForkLeakHappens(env: Env, p: Packet, r: Text, h: u64, src: Text, who: Text, lastValid: u64)
    requires Refundable(env, p, r) && src != [] && who != [] && src != p.data.transfer.sender && lastValid < h < MAX_U64
    ensures var key := KeyOf(NewPacket(r, p, [], h, [], OnTimeout));
            var s := Run(env, ForkLeakRun(p, r, h, src, who, lastValid));
            Stale(s) == {(src, key)} && key !in s.packets
  {
    var q := NewPacket(r, p, [], h, [], OnTimeout);
    var key := KeyOf(q);
    var steps := ForkLeakRun(p, r, h, src, who, lastValid);
    hide KeyOf, Apply, Run, Inv, Stale, GetValidTransfer, Refundable, ValidEnv, ForkKeys, Reopened, Unlisted;
    RefundableFacts(env, p, r);
    RunOfFour(env, steps);
    AfterTimeout(env, p, r, h);
    AfterFulfil(env, Apply(env, Apply(env, GENESIS, steps[0]), steps[1]), q, src, who);
    var s3 := Run(env, steps[..3]);
    RunKeepsInv(env, steps[..3]);
    ForkKeysAre(env, s3, r, lastValid, key);
    ForkEffect(env, s3, r, lastValid);
    StepLeaksExactly(env, s3, steps[3]);
    OneForkLeak(env, s3, r, lastValid, key, src);
    NoneStale(s3, key, src);
  }

  lemma OneForkLeak(env: Env, s: State, r: Text, lastValid: u64, key: bytes, src: Text)
    requires s.packets.Keys == {key} && key in ForkKeys(s, r, lastValid) && s.packets[key].packet.data.Parses()
    requires LeaksOnFork(s.packets[key]) && PayeeOf(s.packets[key]) == src
    ensures Leak(env, s, ForkStep(r, lastValid)) == {(src, key)}
  {
    hide KeyOf;
  }

  // ---------------------------------------------------------------- the largest height

  /** A packet proved at the largest height is above every last valid height, and no fork takes it back. */
  lemma LargestHeightSurvives(env: Env, p: Packet, r: Text, lastValid: u64)
    requires Holdable(env, p, r) && lastValid < MAX_U64
    ensures var key := KeyOf(NewPacket(r, p, [], MAX_U64, [], OnRecv));
            var s := Run(env, [RecvStep(p, MAX_U64, [], Offered(false)), ForkStep(r, lastValid)]);
            key in s.packets && ToRevert(s.packets[key], r, lastValid)
  {
    hide KeyOf, Apply, Run, Inv, GetValidTransfer, Holdable, ValidEnv;
    var a, b := RecvStep(p, MAX_U64, [], Offered(false)), ForkStep(r, lastValid);
    var q := NewPacket(r, p, [], MAX_U64, [], OnRecv);
    HoldableFacts(env, p, r);
    RunOfOne(env, a);
    RunOfTwo(env, a, b);
    AfterRecv(env, p, r, MAX_U64, false);
    RunKeepsInv(env, [a]);
    ForkMissesLargestHeight(env, Run(env, [a]), r, lastValid, KeyOf(q));
    ForkRemovesExactly(env, Run(env, [a]), r, lastValid);
  }

  /** When the largest height is final, the scan up to it misses every packet. */
  lemma LargestHeightListsNothing(env: Env, p: Packet, r: Text, h: u64)
    requires Holdable(env, p, r)
    ensures var key := KeyOf(NewPacket(r, p, [], h, [], OnRecv));
            var m := Run(env, [RecvStep(p, h, [], Offered(false))]).packets;
            key in m && Listing.IsPendingUpTo(m[key], r, MAX_U64)
              && key !in Listing.SpanKeys(m, Listing.UpToHeight(r, MAX_U64))
  {
    hide KeyOf, Apply, Run, Inv, GetValidTransfer, Holdable, ValidEnv, Listing.UpToHeight, Listing.SpanKeys;
    var a := RecvStep(p, h, [], Offered(false));
    HoldableFacts(env, p, r);
    RunOfOne(env, a);
    AfterRecv(env, p, r, h, false);
    RunKeepsInv(env, [a]);
    Listing.InvIsSound(env, Run(env, [a]));
    Listing.UpToHeightKeys(Run(env, [a]).packets, r, MAX_U64, KeyOf(NewPacket(r, p, [], h, [], OnRecv)));
  }

  // ---------------------------------------------------------------- a hook after a refused delivery

  /** Receive with a hook, finalize the height, finalize the packet. */
  function HookRun(p: Packet, r: Text, h: u64, v: Verdict): seq<Step> {
    [RecvStep(p, h, [], Offered(true)), HeightStep(r, h), FinalizeStep(KeyOf(NewPacket(r, p, [], h, [], OnRecv)), v)]
  }

  /** The hook runs although the module below has refused the packet and nothing was paid. */
  lemma HookRunsAfterRefusal(env: Env, p: Packet, r: Text, h: u64, v: Verdict)
    requires Holdable(env, p, r) && v.ack == ErrorAck && v.channelFound && v.ackAccepted
    ensures var s := Run(env, HookRun(p, r, h, v));
            && HookRan(KeyOf(NewPacket(r, p, [], h, [], OnRecv))) in s.log
            && forall i :: 0 <= i < |s.log| && s.log[i].Delivered? ==> !s.log[i].accepted
  {
    hide KeyOf, Apply, Run, Inv, GetValidTransfer, Holdable, ValidEnv, AckedFirst;
    var key := KeyOf(NewPacket(r, p, [], h, [], OnRecv));
    var steps := HookRun(p, r, h, v);
    assert steps == [steps[0], steps[1], steps[2]];
    HoldableFacts(env, p, r);
    RunOfThree(env, steps[0], steps[1], steps[2]);
    AfterRecv(env, p, r, h, true);
    Raised(env, Apply(env, GENESIS, steps[0]), r, h);
    var s := Run(env, [steps[0], steps[1]]);
    RunKeepsInv(env, [steps[0], steps[1]]);
    FinalizeRunsHook(env, s, key, v);
    RefusedIsNotPaid(env, s, key, v, Run(env, steps));
    assert HookRan(key) in Run(env, steps).log[|s.log|..];
  }

  // ---------------------------------------------------------------- an import that lists a finalized packet

  /** Exported and imported after its finalization, a packet is listed for its receiver again. */
  lemma ImportListsFinalized(env: Env, p: Packet, r: Text, h: u64, v: Verdict)
    requires Holdable(env, p, r)
    ensures var s := Run(env, HookRun(p, r, h, v));
            && AllImportable(s.packets)
            && Import(Loaded(map[], {}), Export(s.packets)) == Some(Loaded(s.packets, FullIndex(s.packets)))
            && var t, a := s.(index := FullIndex(s.packets)), p.data.transfer.receiver;
               QueryByAddress(s, a) == Some(PendingFor(s, a)) && QueryByAddress(t, a) != Some(PendingFor(t, a))
  {
    hide KeyOf, Apply, Run, Inv, GetValidTransfer, Holdable, ValidEnv, Finalize, FullIndex, Import, Export,
      QueryByAddress, PendingFor, Stale, NoStaleFor;
    HoldableFacts(env, p, r);
    var q := NewPacket(r, p, [], h, [], OnRecv);
    var key, a := KeyOf(q), p.data.transfer.receiver;
    var steps := HookRun(p, r, h, v);
    assert steps == [steps[0], steps[1], steps[2]];
    RunOfThree(env, steps[0], steps[1], steps[2]);
    AfterRecv(env, p, r, h, true);
    Raised(env, Apply(env, GENESIS, steps[0]), r, h);
    var s, t := Run(env, [steps[0], steps[1]]), Run(env, steps);
    RunKeepsInv(env, [steps[0], steps[1]]);
    RunKeepsInv(env, steps);
    FinalizeSucceeds(env, s, key, v);
    FinalizedPayee(env, s, key, v);
    RunSurvivesGenesis(env, steps);
    KeyedOf(env, t);
    NoneStale(s, key, a);
    StepLeaksExactly(env, s, steps[2]);
    NoStaleEntry(t, a);
    QueryIsExact(env, t, a);
    QueryAfterImportIsExact(t.(index := FullIndex(t.packets)), a);
  }

  lemma FinalizedPayee(env: Env, s: State, key: bytes, v: Verdict)
    requires ValidEnv(env) && Inv(env, s) && Finalize(env, s, key, v).Some? && s.packets[key].originalTarget == []
    ensures s.packets[key].packet.data.Parses()
    ensures var t, fk := Apply(env, s, FinalizeStep(key, v)), KeyOf(s.packets[key].(status := Finalized));
            && fk in t.packets && t.packets[fk].status == Finalized && t.packets[fk].packet.data.Parses()
            && PayeeOf(t.packets[fk]) == PayeeOf(s.packets[key]) && Leak(env, s, FinalizeStep(key, v)) == {}
  {
    hide Inv, KeyOf, Finalize;
    FinalizeEffect(env, s, key, v);
  }

  lemma NoStaleEntry(s: State, a: Text)
    requires Stale(s) == {}
    ensures NoStaleFor(s, a)
  {
  }

  // ---------------------------------------------------------------- a delivery ahead of its proof

  const TAKEN: Answer := Answer([], [], Outcome(SuccessAck, true, Result, NoOrder), None, false)

  /** A height is finalized, and then a transaction has a message proved at a later one, and one with the same id text
      and the finalized height inside a proposal. */
  function AheadBlocks(p: Packet, r: Text, h1: u64, q: Packet, h2: u64): seq<Block> {
    [System(HeightStep(r, h2)), Transaction(Shadowed(OnRecv, p, h1, q, h2), [TAKEN, TAKEN])]
  }

  /** The packet is delivered at once, although the height it was proved at is not final. */
  lemma DeliveredAheadOfProof(env: Env, p: Packet, r: Text, h1: u64, q: Packet, h2: u64)
    requires Holdable(env, p, r) && h2 < h1 && UidText(UidOf(OnRecv, p)) == UidText(UidOf(OnRecv, q))
    ensures var c := ChainRun(env, [], AheadBlocks(p, r, h1, q, h2));
            |c.s.log| == 1 && IsRollappDelivery(c.s.log[0]) && c.s.log[0].accepted && Ahead(c, 0)
  {
    hide KeyOf, UidText, CallOver, Meetings, EveryNodeOk, GetValidTransfer, Unpack, Executed;
    var blocks, ms := AheadBlocks(p, r, h1, q, h2), Shadowed(OnRecv, p, h1, q, h2);
    var s1 := GENESIS.(finalized := map[r := h2]);
    assert blocks[..1] == [blocks[0]] && blocks[..1][..0] == [];
    FirstBlock(env, blocks[0], r, h2);
    ShadowedMeetings(OnRecv, p, h1, q, h2);
    ShadowIsRead(OnRecv, p, h1, q, h2, map[]);
    RunsFirst(OnRecv, p, h1, q, h2);
    var w := CallOver([Record], map[], Meetings(ms, 0));
    var c := Handle(env, Chain(s1, map[]), ms[0], h2, TAKEN);
    TakenAtOnce(env, p, r, h1, h2);
    var xs := Executed(ms, 0);
    assert xs[1..] == [ms[1]] && xs[1..][1..] == [] && [TAKEN, TAKEN][1..] == [TAKEN];
    assert ExecAll(env, Chain(s1, map[]), w.ctx, xs, [TAKEN, TAKEN]) == ExecAll(env, c, w.ctx, xs[1..], [TAKEN]);
    assert ExecAll(env, c, w.ctx, xs[1..], [TAKEN]) == Some(c);
    hide Handle;
    assert ChainRun(env, [], blocks) == c;
  }

  lemma FirstBlock(env: Env, b: Block, r: Text, h: u64)
    requires b == System(HeightStep(r, h))
    ensures ChainRun(env, [], [b]) == Chain(GENESIS.(finalized := map[r := h]), map[])
  {
    assert [b][..0] == [];
    assert ChainRun(env, [], []) == Chain(GENESIS, map[]);
  }

  lemma RunsFirst(t: PacketType, p: Packet, h1: u64, q: Packet, h2: u64)
    ensures var ms := Shadowed(t, p, h1, q, h2); Executed(ms, 0) == ms
  {
    var ms := Shadowed(t, p, h1, q, h2);
    var rest := ms[1..];
    assert rest[1..] == [] && Executed(rest[1..], 0) == [];
    assert Executed(rest, 0) == ExecutedOf(rest[0], 0) + Executed(rest[1..], 0) == [ms[1]];
    assert Executed(ms, 0) == ExecutedOf(ms[0], 0) + Executed(rest, 0) == [ms[0], ms[1]];
  }

  lemma TakenAtOnce(env: Env, p: Packet, r: Text, h1: u64, h2: u64)
    requires Holdable(env, p, r) && h2 < h1
    ensures var s := GENESIS.(finalized := map[r := h2]);
            var c := Handle(env, Chain(s, map[]), PacketMsg([], OnRecv, p, h1), h2, TAKEN);
            |c.s.log| == 1 && IsRollappDelivery(c.s.log[0]) && c.s.log[0].accepted && Ahead(c, 0)
  {
    hide KeyOf, GetValidTransfer;
  }
}
