/** Transactions of nested messages on the hub: the walk before a transaction collects proof heights, and each packet
    message that is run is handled at the height it then reads. The chain remembers, for every packet it admits, the
    height its own message was proved at beside the height read. */
module Transactions {
  import opened Bytes
  import opened Packets
  import opened PacketKey
  import opened Hub
  import opened HubInvariant
  import opened HubRuns
  import opened HubSafety
  import opened HubFork
  import opened HubEpoch
  import opened HubIndex
  import opened HubEffects
  import opened Ante
  import opened ProofHeights

  type Place = (Side, Slot)

  datatype Proof = Proof(own: u64, read: u64)

  datatype Chain = Chain(s: State, proofs: map<Place, Proof>)

  /** What the chain answers to one message that is run: the rest of a packet message, the step another message makes,
      or a failure, which takes the transaction back. */
  datatype Answer = Answer(ack: bytes, relayer: bytes, outcome: Outcome, effect: Option<Step>, fails: bool)

  predicate IsPacketStep(step: Step) { step.RecvStep? || step.AckStep? || step.TimeoutStep? }

  predicate IsPacketMsg(m: Msg) { m.PacketMsg? && m.ptype != Undefined }

  function PlaceOf(t: PacketType, p: Packet): Place { (SideOf(t), SlotOf(t, p)) }

  function PacketStep(m: Msg, h: u64, a: Answer): (step: Step)
    requires IsPacketMsg(m)
  {
    match m.ptype
    case OnRecv => RecvStep(m.packet, h, a.relayer, a.outcome)
    case OnAck => AckStep(m.packet, a.ack, h, a.relayer, a.outcome)
    case OnTimeout => TimeoutStep(m.packet, h, a.relayer, a.outcome)
  }

  /** ICS-04 admits the packet in this step: its receipt is written, or its commitment consumed. */
  predicate Opens(s: State, t: State, at: Place) { !Closed(s.ibc, at.0, at.1) && Closed(t.ibc, at.0, at.1) }

  function Handle(env: Env, c: Chain, m: Msg, h: u64, a: Answer): Chain
    requires IsPacketMsg(m)
  {
    var t, at := Apply(env, c.s, PacketStep(m, h, a)), PlaceOf(m.ptype, m.packet);
    Chain(t, if Opens(c.s, t, at) then c.proofs[at := Proof(m.height, h)] else c.proofs)
  }

  /** One message that is run; None is a failure. */
  function ExecMsg(env: Env, c: Chain, ctx: Heights, m: Msg, a: Answer): (r: Option<Chain>) {
    if a.fails then None
    else if IsPacketMsg(m) then
      var h := Unpack(ctx, m.ptype, m.packet);
      if h.None? then None else Some(Handle(env, c, m, h.value, a))
    else if a.effect.Some? && !IsPacketStep(a.effect.value) then Some(c.(s := Apply(env, c.s, a.effect.value)))
    else Some(c)
  }

  /** The messages that are run, in order: those of the transaction, and the contents of wrappers that run them. */
  function Executed(ms: seq<Msg>, depth: nat): (xs: seq<Msg>)
    requires depth <= MAX_DEPTH
    decreases MAX_DEPTH - depth, |ms| + 1
  {
    if ms == [] then [] else ExecutedOf(ms[0], depth) + Executed(ms[1..], depth)
  }

  function ExecutedOf(m: Msg, depth: nat): (xs: seq<Msg>)
    requires depth <= MAX_DEPTH
    decreases MAX_DEPTH - depth, 0
  {
    if m.Wrapper? && m.runs && depth < MAX_DEPTH then Executed(Inner(m), depth + 1) else [m]
  }

  predicate Enters(m: Msg, depth: nat) { m.Wrapper? && m.runs && depth < MAX_DEPTH }

  /** The message at the end of the path is run: it is no running wrapper, and all above it are. */
  predicate RunsAt(ms: seq<Msg>, depth: nat, path: Path)
    decreases |path|
  {
    && path != [] && path[0] < |ms|
    && if |path| == 1 then !Enters(ms[path[0]], depth)
       else Enters(ms[path[0]], depth) && RunsAt(Inner(ms[path[0]]), depth + 1, path[1..])
  }

  /** The paths of exactly these messages, in order, for positions of the list from one up to another. */
  ghost predicate ListsRun(ms: seq<Msg>, depth: nat, paths: seq<Path>, xs: seq<Msg>, lo: nat, hi: nat) {
    && |paths| == |xs| && InOrder(paths)
    && (forall i :: 0 <= i < |paths| ==> RunsAt(ms, depth, paths[i]) && lo <= paths[i][0] < hi)
    && (forall i :: 0 <= i < |paths| ==> NodeAt(ms, paths[i]) == Some(xs[i]))
    && (forall path: Path :: RunsAt(ms, depth, path) && lo <= path[0] < hi ==> path in paths)
  }

  lemma {:induction false} ExecutedAppend(a: seq<Msg>, b: seq<Msg>, depth: nat)
    requires depth <= MAX_DEPTH
    ensures Executed(a + b, depth) == Executed(a, depth) + Executed(b, depth)
    decreases |a|
  {
    hide ExecutedOf;
    if a == [] {
      assert a + b == b;
    } else {
      assert (a + b)[1..] == a[1..] + b;
      ExecutedAppend(a[1..], b, depth);
      var x := ExecutedOf(a[0], depth);
      assert x + (Executed(a[1..], depth) + Executed(b, depth)) == x + Executed(a[1..], depth) + Executed(b, depth);
    }
  }

  lemma ExecutedSnoc(ms: seq<Msg>, i: nat, depth: nat)
    requires i < |ms| && depth <= MAX_DEPTH
    ensures Executed(ms[..i + 1], depth) == Executed(ms[..i], depth) + ExecutedOf(ms[i], depth)
  {
    hide ExecutedOf;
    assert ms[..i + 1] == ms[..i] + [ms[i]];
    ExecutedAppend(ms[..i], [ms[i]], depth);
    assert Executed([ms[i]][1..], depth) == [];
    assert ExecutedOf(ms[i], depth) + [] == ExecutedOf(ms[i], depth);
  }

  lemma RunsBelow(ms: seq<Msg>, depth: nat, i: nat, path: Path)
    requires i < |ms| && Enters(ms[i], depth) && path != []
    ensures RunsAt(ms, depth, [i] + path) <==> RunsAt(Inner(ms[i]), depth + 1, path)
    ensures NodeAt(ms, [i] + path) == NodeAt(Inner(ms[i]), path)
  {
    Descend(ms, i, path);
    assert ([i] + path)[1..] == path;
  }

  /** The paths through a running wrapper. */
  lemma RunsUnder(ms: seq<Msg>, depth: nat, i: nat, below: seq<Path>, xs: seq<Msg>)
    requires i < |ms| && Enters(ms[i], depth)
    requires ListsRun(Inner(ms[i]), depth + 1, below, xs, 0, |Inner(ms[i])|)
    ensures ListsRun(ms, depth, Under(i, below), xs, i, i + 1)
  {
    var paths := Under(i, below);
    hide NodeAt, Inner, RunsAt, Before, Enters;
    RunsSomewhere(ms, depth);
    RunsSomewhere(Inner(ms[i]), depth + 1);
    forall k | 0 <= k < |below|
      ensures RunsAt(ms, depth, paths[k]) && NodeAt(ms, paths[k]) == NodeAt(Inner(ms[i]), below[k]) {
      RunsBelow(ms, depth, i, below[k]);
    }
    OrderUnder(i, below);
    forall path: Path | RunsAt(ms, depth, path) && i <= path[0] < i + 1 ensures path in paths {
      var rest := RunsThrough(ms, depth, i, path);
      var k :| 0 <= k < |below| && below[k] == rest;
      assert paths[k] == path;
    }
  }

  lemma OrderUnder(i: nat, paths: seq<Path>)
    requires InOrder(paths)
    ensures InOrder(Under(i, paths))
  {
    hide Before;
    forall k, l | 0 <= k < l < |paths| ensures Before([i] + paths[k], [i] + paths[l]) {
      BeforeUnder([i], paths[k], paths[l]);
    }
  }

  lemma RunsThrough(ms: seq<Msg>, depth: nat, i: nat, path: Path) returns (rest: Path)
    requires i < |ms| && Enters(ms[i], depth) && path != [] && path[0] == i && RunsAt(ms, depth, path)
    ensures path == [i] + rest && rest != [] && RunsAt(Inner(ms[i]), depth + 1, rest)
  {
    RunsDeeper(ms, depth, path);
    rest := path[1..];
    assert path == [i] + rest;
    hide RunsAt;
    RunsBelow(ms, depth, i, rest);
  }

  lemma RunsDeeper(ms: seq<Msg>, depth: nat, path: Path)
    requires path != [] && path[0] < |ms|
    ensures RunsAt(ms, depth, path) ==> (|path| > 1 <==> Enters(ms[path[0]], depth))
  {
  }

  lemma RunPathsOf(ms: seq<Msg>, depth: nat, i: nat) returns (paths: seq<Path>)
    requires depth <= MAX_DEPTH && i < |ms|
    ensures ListsRun(ms, depth, paths, ExecutedOf(ms[i], depth), i, i + 1)
    decreases MAX_DEPTH - depth, 0
  {
    if Enters(ms[i], depth) {
      var below := RunPaths(Inner(ms[i]), depth + 1);
      hide ListsRun, Executed;
      RunsUnder(ms, depth, i, below, Executed(Inner(ms[i]), depth + 1));
      paths := Under(i, below);
    } else {
      paths := [[i]];
      forall path: Path | RunsAt(ms, depth, path) && path[0] == i ensures path == [i] { RunsDeeper(ms, depth, path); }
    }
  }

  lemma {:induction false} RunFront(ms: seq<Msg>, depth: nat, n: nat) returns (paths: seq<Path>)
    requires depth <= MAX_DEPTH && n <= |ms|
    ensures ListsRun(ms, depth, paths, Executed(ms[..n], depth), 0, n)
    decreases MAX_DEPTH - depth, 1, n
  {
    hide ExecutedOf, RunsAt, NodeAt, Before;
    if n == 0 {
      paths := [];
    } else {
      var front := RunFront(ms, depth, n - 1);
      var last := RunPathsOf(ms, depth, n - 1);
      ExecutedSnoc(ms, n - 1, depth);
      RunsSomewhere(ms, depth);
      OrderJoins(front, last, n - 1);
      paths := front + last;
    }
  }

  lemma RunsSomewhere(ms: seq<Msg>, depth: nat)
    ensures forall path: Path :: RunsAt(ms, depth, path) ==> path != [] && path[0] < |ms|
  {
  }

  lemma RunPaths(ms: seq<Msg>, depth: nat) returns (paths: seq<Path>)
    requires depth <= MAX_DEPTH
    ensures ListsRun(ms, depth, paths, Executed(ms, depth), 0, |ms|)
    decreases MAX_DEPTH - depth, 2
  {
    hide ListsRun;
    paths := RunFront(ms, depth, |ms|);
    assert ms[..|ms|] == ms;
  }

  /** A transaction runs each message that stands outside wrappers or only inside running ones, once and in order. */
  lemma ExecutedExactly(ms: seq<Msg>)
    ensures exists paths :: ListsRun(ms, 0, paths, Executed(ms, 0), 0, |ms|)
  {
    hide ListsRun;
    var paths := RunPaths(ms, 0);
  }

  function ExecAll(env: Env, c: Chain, ctx: Heights, xs: seq<Msg>, answers: seq<Answer>): (r: Option<Chain>)
    decreases |xs|
  {
    if xs == [] then Some(c)
    else if answers == [] then None
    else
      var d := ExecMsg(env, c, ctx, xs[0], answers[0]);
      if d.None? then None else ExecAll(env, d.value, ctx, xs[1..], answers[1..])
  }

  /** The chain before and after each message. */
  ghost predicate Traces(env: Env, ctx: Heights, xs: seq<Msg>, answers: seq<Answer>, cs: seq<Chain>) {
    && |cs| == |xs| + 1 && |xs| <= |answers|
    && forall i :: 0 <= i < |xs| ==> ExecMsg(env, cs[i], ctx, xs[i], answers[i]) == Some(cs[i + 1])
  }

  /** The messages of a transaction take effect one after the other, or, if one fails, none does. */
  lemma {:induction false} AllOrNothing(env: Env, c: Chain, ctx: Heights, xs: seq<Msg>, answers: seq<Answer>)
    ensures var r := ExecAll(env, c, ctx, xs, answers);
            r.Some? <==> exists cs :: Traces(env, ctx, xs, answers, cs) && cs[0] == c
    ensures var r := ExecAll(env, c, ctx, xs, answers);
            r.Some? ==> exists cs :: Traces(env, ctx, xs, answers, cs) && cs[0] == c && cs[|xs|] == r.value
    decreases |xs|
  {
    hide ExecMsg;
    var r := ExecAll(env, c, ctx, xs, answers);
    if xs == [] {
      assert Traces(env, ctx, xs, answers, [c]);
    } else if answers != [] {
      var d := ExecMsg(env, c, ctx, xs[0], answers[0]);
      if d.Some? { AllOrNothing(env, d.value, ctx, xs[1..], answers[1..]); }
      if r.Some? {
        var cs :| Traces(env, ctx, xs[1..], answers[1..], cs) && cs[0] == d.value && cs[|xs| - 1] == r.value;
        var all := [c] + cs;
        forall i | 0 <= i < |xs| ensures ExecMsg(env, all[i], ctx, xs[i], answers[i]) == Some(all[i + 1]) {
          if i > 0 { assert xs[1..][i - 1] == xs[i] && answers[1..][i - 1] == answers[i]; }
        }
        assert Traces(env, ctx, xs, answers, all) && all[0] == c && all[|xs|] == r.value;
      }
      if exists cs :: Traces(env, ctx, xs, answers, cs) && cs[0] == c {
        var cs :| Traces(env, ctx, xs, answers, cs) && cs[0] == c;
        var rest := cs[1..];
        assert d == Some(cs[1]);
        forall i | 0 <= i < |xs| - 1
          ensures ExecMsg(env, rest[i], ctx, xs[1..][i], answers[1..][i]) == Some(rest[i + 1]) {
          assert rest[i] == cs[i + 1] && rest[i + 1] == cs[i + 2];
        }
        assert Traces(env, ctx, xs[1..], answers[1..], rest) && rest[0] == d.value;
      }
    }
  }

  /** A transaction, or something the chain does by itself. */
  datatype Block = Transaction(ms: seq<Msg>, answers: seq<Answer>) | System(step: Step)

  ghost function Advance(env: Env, rules: seq<Rule>, c: Chain, b: Block): (d: Chain) {
    match b
    case System(step) => if IsPacketStep(step) then c else c.(s := Apply(env, c.s, step))
    case Transaction(ms, answers) =>
      var w := CallOver([Record], map[], Meetings(ms, 0));
      if !EveryNodeOk(rules, ms, 0) || !w.ok then c else
      var r := ExecAll(env, c, w.ctx, Executed(ms, 0), answers);
      if r.None? then c else r.value
  }

  ghost function ChainRun(env: Env, rules: seq<Rule>, blocks: seq<Block>): (c: Chain) {
    if blocks == [] then Chain(GENESIS, map[])
    else Advance(env, rules, ChainRun(env, rules, blocks[..|blocks| - 1]), blocks[|blocks| - 1])
  }

  // ---------------------------------------------------------------- what a step adds

  predicate IsRollappDelivery(e: Event) { e.Delivered? && e.rollapp.Some? }

  /** A packet waiting here was saved at this height. */
  ghost predicate HeldAt(s: State, at: Place, h: u64) {
    exists k :: IsPending(s.packets, k) && PlaceOf(s.packets[k].ptype, s.packets[k].packet) == at
      && s.packets[k].proofHeight == h
  }

  /** Packets put on hold and rollapp packets delivered by a step were on hold before, but for the place and height
      given. */
  ghost predicate Adds(s: State, t: State, at: Option<(Place, u64)>) {
    && s.log <= t.log
    && (forall k :: IsPending(t.packets, k) ==>
          var p := t.packets[k];
          Explains(s, at, PlaceOf(p.ptype, p.packet), p.proofHeight))
    && (forall i :: |s.log| <= i < |t.log| && IsRollappDelivery(t.log[i]) ==>
          Explains(s, at, (t.log[i].side, t.log[i].slot), t.log[i].height))
  }

  ghost predicate Explains(s: State, at: Option<(Place, u64)>, place: Place, h: u64) {
    HeldAt(s, place, h) || at == Some((place, h))
  }

  lemma AddsNothing(s: State, t: State)
    requires t.packets == s.packets && t.log == s.log
    ensures forall at :: Adds(s, t, at)
  {
    forall k | IsPending(t.packets, k)
      ensures HeldAt(s, PlaceOf(t.packets[k].ptype, t.packets[k].packet), t.packets[k].proofHeight) {
      assert IsPending(s.packets, k);
    }
  }

  /** A packet put on hold, or delivered, by its own message. */
  lemma AddsPacket(s: State, t: State, q: RollappPacket, h: u64)
    requires q.packet.data.Parses() && q.proofHeight == h
    requires t.packets == s.packets[KeyOf(q) := q] && t.log == s.log + [Saved(KeyOf(q), CallOf(q))]
    ensures Adds(s, t, Some((PlaceOf(q.ptype, q.packet), h)))
  {
    hide KeyOf;
    forall k | IsPending(t.packets, k)
      ensures var p, at := t.packets[k], PlaceOf(q.ptype, q.packet);
              Explains(s, Some((at, h)), PlaceOf(p.ptype, p.packet), p.proofHeight) {
      if k != KeyOf(q) { assert IsPending(s.packets, k); }
    }
  }

  lemma AddsDelivery(s: State, t: State, e: Event)
    requires e.Delivered? && t.packets == s.packets && t.log == s.log + [e]
    ensures Adds(s, t, Some(((e.side, e.slot), e.height)))
  {
    AddsNothing(s, t.(log := s.log));
  }

  /** A packet message that is admitted opens its place. */
  lemma ConsumedOpens(env: Env, s: State, t: State, c: Call, ack: Option<Acked>)
    requires Inv(env, s) && c.ptype != Undefined && Admits(env, s.ibc, c) && ConsumedBy(s.ibc, t.ibc, c, ack)
    ensures Opens(s, t, PlaceOf(c.ptype, c.packet))
  {
    hide Inv;
    CommitmentFacts(env, s, SlotOf(c.ptype, c.packet));
  }

  /** It puts on hold or delivers its own packet, at the height it is handled at. */
  lemma PacketStepAdds(env: Env, s: State, m: Msg, h: u64, a: Answer)
    requires ValidEnv(env) && Inv(env, s) && IsPacketMsg(m)
    ensures var t, at := Apply(env, s, PacketStep(m, h, a)), PlaceOf(m.ptype, m.packet);
            Adds(s, t, if Opens(s, t, at) then Some((at, h)) else None)
  {
    hide Inv, Adds, Apply, Admits, ConsumedBy, ValidOn, Waits, Opens, KeyOf;
    var t, o := Apply(env, s, PacketStep(m, h, a)), a.outcome;
    var c := Call(m.ptype, m.packet, if m.ptype == OnAck then a.ack else [], a.relayer);
    var at := HubEnd(c.ptype, c.packet);
    ValidParses(env, c.packet.data, at);
    if m.ptype == OnRecv { ReceiveExactly(env, s, c, h, o); } else { OutcomeExactly(env, s, c, h, o); }
    if t.packets == s.packets && t.log == s.log {
      AddsNothing(s, t);
    } else if !Waits(s, env.channels[at].rollapp, h) {
      var ack := if m.ptype == OnRecv && o.ack == SuccessAck then Some(Acked(c.packet, true)) else None;
      ConsumedOpens(env, s, t, c, ack);
      AddsDelivery(s, t, t.log[|s.log|]);
    } else {
      WaitsForRollapp(s, env.channels[at].rollapp, h);
      ConsumedOpens(env, s, t, c, None);
      AddsPacket(s, t, HeldRecord(c, env.channels[at].rollapp.value, h), h);
    }
  }

  /** No other step brings in anything that was not on hold. */
  lemma OtherStepAdds(env: Env, s: State, step: Step)
    requires ValidEnv(env) && Inv(env, s) && !IsPacketStep(step)
    ensures Adds(s, Apply(env, s, step), None)
  {
    hide Inv, Adds, Fulfill, Finalize, HardFork, EpochRounds, ForkKeys, KeyOf;
    match step
    case SendStep(p) => AddsNothing(s, Apply(env, s, step));
    case FulfillStep(id, src, who, ok) => FulfillAdds(env, s, step);
    case FinalizeStep(key, v) => FinalizeAdds(env, s, step);
    case ForkStep(r, h) =>
      ForkEffect(env, s, r, h);
      FewerAdds(s, Apply(env, s, step));
    case EpochStep(limit) =>
      EpochDeletesExactly(env, s, limit);
      FewerAdds(s, Apply(env, s, step));
    case HeightStep(r, h) => AddsNothing(s, Apply(env, s, step));
  }

  lemma FewerAdds(s: State, t: State)
    requires t.log == s.log && forall k :: k in t.packets ==> k in s.packets && t.packets[k] == s.packets[k]
    ensures Adds(s, t, None)
  {
    forall k | IsPending(t.packets, k)
      ensures HeldAt(s, PlaceOf(t.packets[k].ptype, t.packets[k].packet), t.packets[k].proofHeight) {
      assert IsPending(s.packets, k);
    }
  }

  lemma FulfillAdds(env: Env, s: State, step: Step)
    requires Inv(env, s) && step.FulfillStep?
    ensures Adds(s, Apply(env, s, step), None)
  {
    hide Inv, Fulfill, KeyOf, Adds;
    var t, r := Apply(env, s, step), Fulfill(s, step.id, step.fundsSource, step.fulfiller, step.hookOk);
    if r.None? {
      AddsNothing(s, t);
    } else {
      FulfillEffect(env, s, step.id, step.fundsSource, step.fulfiller, step.hookOk);
      FulfillLog(s, step);
      RedirectAdds(s, t, step.id, step.fundsSource);
    }
  }

  lemma FulfillLog(s: State, step: Step)
    requires step.FulfillStep? && Fulfill(s, step.id, step.fundsSource, step.fulfiller, step.hookOk).Some?
    ensures var t := Fulfill(s, step.id, step.fundsSource, step.fulfiller, step.hookOk).value;
            t.log == s.log || exists k :: t.log == s.log + [HookRan(k)]
  {
    hide KeyOf;
  }

  lemma RedirectAdds(s: State, t: State, id: bytes, src: Text)
    requires IsPending(s.packets, id) && s.packets[id].packet.data.Parses()
    requires t.packets == s.packets[id := Redirect(s.packets[id], src)]
    requires t.log == s.log || exists k :: t.log == s.log + [HookRan(k)]
    ensures Adds(s, t, None)
  {
    forall k | IsPending(t.packets, k)
      ensures HeldAt(s, PlaceOf(t.packets[k].ptype, t.packets[k].packet), t.packets[k].proofHeight) {
      assert IsPending(s.packets, k);
    }
  }

  lemma FinalizeAdds(env: Env, s: State, step: Step)
    requires ValidEnv(env) && Inv(env, s) && step.FinalizeStep?
    ensures Adds(s, Apply(env, s, step), None)
  {
    hide Inv, Finalize, KeyOf, FinalizeCallback, Adds, Restore, PayeeOf;
    var t, key := Apply(env, s, step), step.key;
    if Finalize(env, s, key, step.verdict).None? {
      AddsNothing(s, t);
    } else {
      FinalizeEffect(env, s, key, step.verdict);
      var p := s.packets[key];
      FinalizeIsFinal(env, s, key, step.verdict);
      FinalizeLog(env, s, key, step.verdict);
      CallbackShape(env, s, p, step.verdict);
      DeliveryAdds(s, t, key, DeliveryOf(p, Accepted(p, step.verdict)), KeyOf(p));
    }
  }

  lemma FinalizeIsFinal(env: Env, s: State, key: bytes, v: Verdict)
    requires Finalize(env, s, key, v).Some?
    ensures key in s.packets && HeightFinalized(s, s.packets[key].rollappId, s.packets[key].proofHeight)
  {
  }

  lemma DeliveryAdds(s: State, t: State, key: bytes, e: Event, k: bytes)
    requires IsPending(s.packets, key) && e.Delivered? && e == DeliveryOf(s.packets[key], e.accepted)
    requires forall l :: IsPending(t.packets, l) ==> IsPending(s.packets, l) && t.packets[l] == s.packets[l]
    requires t.log == s.log || t.log == s.log + [e] || t.log == s.log + [e] + [HookRan(k)]
    ensures Adds(s, t, None)
  {
    forall l | IsPending(t.packets, l)
      ensures HeldAt(s, PlaceOf(t.packets[l].ptype, t.packets[l].packet), t.packets[l].proofHeight) {
      assert IsPending(s.packets, l);
    }
    assert HeldAt(s, (e.side, e.slot), e.height);
  }

  // ---------------------------------------------------------------- the record of proofs

  /** Whatever waits or was delivered for a rollapp has its proof on record, with the height it was handled at. */
  ghost predicate OnRecord(c: Chain, at: Place, h: u64) { at in c.proofs && c.proofs[at].read == h }

  ghost predicate Recorded(c: Chain) {
    && (forall k :: IsPending(c.s.packets, k) ==>
          OnRecord(c, PlaceOf(c.s.packets[k].ptype, c.s.packets[k].packet), c.s.packets[k].proofHeight))
    && (forall i :: 0 <= i < |c.s.log| && IsRollappDelivery(c.s.log[i]) ==>
          OnRecord(c, (c.s.log[i].side, c.s.log[i].slot), c.s.log[i].height))
  }

  lemma AddsKeepsRecord(c: Chain, d: Chain, at: Option<(Place, u64)>)
    requires Recorded(c) && Adds(c.s, d.s, at)
    requires at.Some? ==> OnRecord(d, at.value.0, at.value.1)
    requires forall place, h :: OnRecord(c, place, h) && (at.None? || place != at.value.0) ==> OnRecord(d, place, h)
    requires at.Some? ==> forall k :: IsPending(c.s.packets, k) ==>
             PlaceOf(c.s.packets[k].ptype, c.s.packets[k].packet) != at.value.0
    requires at.Some? ==> Untouched(c.s.log, at.value.0.0, at.value.0.1)
    ensures Recorded(d)
  {
    forall place, h | Explains(c.s, at, place, h) ensures OnRecord(d, place, h) {
      if HeldAt(c.s, place, h) {
        var k :| IsPending(c.s.packets, k) && PlaceOf(c.s.packets[k].ptype, c.s.packets[k].packet) == place
          && c.s.packets[k].proofHeight == h;
        assert OnRecord(c, place, h);
      }
    }
    forall i | 0 <= i < |d.s.log| && IsRollappDelivery(d.s.log[i])
      ensures OnRecord(d, (d.s.log[i].side, d.s.log[i].slot), d.s.log[i].height) {
      if i < |c.s.log| {
        assert d.s.log[i] == c.s.log[i];
        assert at.Some? ==> !Touches(c.s.log[i], at.value.0.0, at.value.0.1);
      }
    }
  }

  lemma OpenIsUnused(env: Env, s: State, at: Place)
    requires Inv(env, s) && !Closed(s.ibc, at.0, at.1)
    ensures forall k :: IsPending(s.packets, k) ==> PlaceOf(s.packets[k].ptype, s.packets[k].packet) != at
    ensures Untouched(s.log, at.0, at.1)
  {
  }

  lemma HandleKeeps(env: Env, c: Chain, m: Msg, h: u64, a: Answer)
    requires ValidEnv(env) && Inv(env, c.s) && Recorded(c) && IsPacketMsg(m)
    ensures Inv(env, Handle(env, c, m, h, a).s) && Recorded(Handle(env, c, m, h, a))
  {
    hide Inv, Adds, Apply, Recorded, Closed;
    var d, at := Handle(env, c, m, h, a), PlaceOf(m.ptype, m.packet);
    StepKeepsInv(env, c.s, PacketStep(m, h, a));
    PacketStepAdds(env, c.s, m, h, a);
    if Opens(c.s, d.s, at) { OpenIsUnused(env, c.s, at); }
    AddsKeepsRecord(c, d, if Opens(c.s, d.s, at) then Some((at, h)) else None);
  }

  lemma OtherKeeps(env: Env, c: Chain, step: Step)
    requires ValidEnv(env) && Inv(env, c.s) && Recorded(c) && !IsPacketStep(step)
    ensures var d := c.(s := Apply(env, c.s, step)); Inv(env, d.s) && Recorded(d)
  {
    hide Inv, Adds, Apply, Recorded;
    StepKeepsInv(env, c.s, step);
    OtherStepAdds(env, c.s, step);
    AddsKeepsRecord(c, c.(s := Apply(env, c.s, step)), None);
  }

  // ---------------------------------------------------------------- where the heights come from

  /** The message at a path is about the packet of this place and carries its own height; the last message with its id
      text carries the height read. */
  ghost predicate Carries(ms: seq<Msg>, path: Path, last: Path, at: Place, pr: Proof) {
    var m := NodeAt(ms, path);
    && m.Some? && IsPacketMsg(m.value) && PlaceOf(m.value.ptype, m.value.packet) == at && m.value.height == pr.own
    && IsLastNamed(ms, last, UidText(UidOf(m.value.ptype, m.value.packet))) && NodeAt(ms, last).value.height == pr.read
  }

  ghost predicate Comes(ms: seq<Msg>, at: Place, pr: Proof) { exists path, last :: Carries(ms, path, last, at, pr) }

  /** New proofs on record come from this transaction. */
  ghost predicate ComesFrom(ms: seq<Msg>, before: map<Place, Proof>, after: map<Place, Proof>) {
    forall at :: at in after ==> (at in before && after[at] == before[at]) || Comes(ms, at, after[at])
  }

  lemma {:induction false} ExecutedIsNode(ms: seq<Msg>, depth: nat, m: Msg) returns (path: Path)
    requires depth <= MAX_DEPTH && m in Executed(ms, depth)
    ensures NodeAt(ms, path) == Some(m)
    decreases MAX_DEPTH - depth, |ms|
  {
    if m in ExecutedOf(ms[0], depth) {
      if ms[0].Wrapper? && ms[0].runs && depth < MAX_DEPTH {
        var p := ExecutedIsNode(Inner(ms[0]), depth + 1, m);
        NoPath(Inner(ms[0]));
        Descend(ms, 0, p);
        path := [0] + p;
      } else {
        path := [0];
      }
    } else {
      var p := ExecutedIsNode(ms[1..], depth, m);
      NoPath(ms[1..]);
      path := [p[0] + 1] + p[1..];
      assert path[1..] == p[1..] && ms[1..][p[0]] == ms[p[0] + 1];
    }
  }

  lemma ExecMsgKeeps(env: Env, rules: seq<Rule>, ms: seq<Msg>, c: Chain, m: Msg, a: Answer)
    requires ValidEnv(env) && Inv(env, c.s) && Recorded(c) && EveryNodeOk(rules, ms, 0) && m in Executed(ms, 0)
    ensures var r := ExecMsg(env, c, CallOver([Record], map[], Meetings(ms, 0)).ctx, m, a);
            r.Some? ==> Inv(env, r.value.s) && Recorded(r.value) && ComesFrom(ms, c.proofs, r.value.proofs)
  {
    hide Inv, Recorded, Apply, EveryNodeOk, Meetings, CallOver, Executed, UidText, Unpack, IsLastNamed;
    var ctx := CallOver([Record], map[], Meetings(ms, 0)).ctx;
    if !a.fails && IsPacketMsg(m) && Unpack(ctx, m.ptype, m.packet).Some? {
      var h := Unpack(ctx, m.ptype, m.packet).value;
      HandleKeeps(env, c, m, h, a);
      var path := ExecutedIsNode(ms, 0, m);
      var last := HeightReadIsLast(rules, ms, path, UidText(UidOf(m.ptype, m.packet)), map[]);
      assert Carries(ms, path, last, PlaceOf(m.ptype, m.packet), Proof(m.height, h));
    } else if !a.fails && !IsPacketMsg(m) && a.effect.Some? && !IsPacketStep(a.effect.value) {
      OtherKeeps(env, c, a.effect.value);
    }
  }

  lemma {:induction false} ExecAllKeeps(env: Env, rules: seq<Rule>, ms: seq<Msg>, c: Chain, xs: seq<Msg>,
                                        answers: seq<Answer>)
    requires ValidEnv(env) && Inv(env, c.s) && Recorded(c) && EveryNodeOk(rules, ms, 0)
    requires forall m :: m in xs ==> m in Executed(ms, 0)
    ensures var r := ExecAll(env, c, CallOver([Record], map[], Meetings(ms, 0)).ctx, xs, answers);
            r.Some? ==> Inv(env, r.value.s) && Recorded(r.value) && ComesFrom(ms, c.proofs, r.value.proofs)
    decreases |xs|
  {
    hide Inv, Recorded, EveryNodeOk, Meetings, CallOver, Executed, ExecMsg, Comes;
    var ctx := CallOver([Record], map[], Meetings(ms, 0)).ctx;
    if xs != [] && answers != [] {
      ExecMsgKeeps(env, rules, ms, c, xs[0], answers[0]);
      var d := ExecMsg(env, c, ctx, xs[0], answers[0]);
      if d.Some? { ExecAllKeeps(env, rules, ms, d.value, xs[1..], answers[1..]); }
    }
  }

  /** Every proof on record comes from an accepted transaction of the run. */
  ghost predicate Explained(rules: seq<Rule>, blocks: seq<Block>, at: Place, pr: Proof) {
    exists b :: b in blocks && b.Transaction? && EveryNodeOk(rules, b.ms, 0) && Comes(b.ms, at, pr)
  }

  lemma {:induction false} ChainKeeps(env: Env, rules: seq<Rule>, blocks: seq<Block>)
    requires ValidEnv(env)
    ensures var c := ChainRun(env, rules, blocks);
            && Inv(env, c.s) && Recorded(c)
            && forall at :: at in c.proofs ==> Explained(rules, blocks, at, c.proofs[at])
  {
    if blocks == [] {
      GenesisInv(env);
    } else {
      hide Inv, Recorded, EveryNodeOk, Meetings, CallOver, Executed, ExecAll, Comes, Apply;
      var front, b := blocks[..|blocks| - 1], blocks[|blocks| - 1];
      var c, d := ChainRun(env, rules, front), ChainRun(env, rules, blocks);
      ChainKeeps(env, rules, front);
      if b.System? {
        if !IsPacketStep(b.step) { OtherKeeps(env, c, b.step); }
      } else if EveryNodeOk(rules, b.ms, 0) {
        ExecAllKeeps(env, rules, b.ms, c, Executed(b.ms, 0), b.answers);
      }
      assert d.proofs == c.proofs || (b.Transaction? && EveryNodeOk(rules, b.ms, 0)
        && ComesFrom(b.ms, c.proofs, d.proofs));
      StillExplained(rules, blocks, c.proofs, d.proofs);
    }
  }

  lemma StillExplained(rules: seq<Rule>, blocks: seq<Block>, before: map<Place, Proof>, after: map<Place, Proof>)
    requires blocks != []
    requires forall at :: at in before ==> Explained(rules, blocks[..|blocks| - 1], at, before[at])
    requires var b := blocks[|blocks| - 1];
             after == before || (b.Transaction? && EveryNodeOk(rules, b.ms, 0) && ComesFrom(b.ms, before, after))
    ensures forall at :: at in after ==> Explained(rules, blocks, at, after[at])
  {
    hide EveryNodeOk, Comes;
    var front, b := blocks[..|blocks| - 1], blocks[|blocks| - 1];
    forall at | at in after ensures Explained(rules, blocks, at, after[at]) {
      if at in before && after[at] == before[at] {
        var x :| x in front && x.Transaction? && EveryNodeOk(rules, x.ms, 0) && Comes(x.ms, at, before[at]);
        assert x in blocks;
      } else {
        assert b in blocks;
      }
    }
  }

  // ---------------------------------------------------------------- deliveries and their proofs

  /** A rollapp delivery was made although the height its own message was proved at is not final. */
  ghost predicate Ahead(c: Chain, i: nat) {
    && i < |c.s.log| && IsRollappDelivery(c.s.log[i]) && (c.s.log[i].side, c.s.log[i].slot) in c.proofs
    && !HeightFinalized(c.s, c.s.log[i].rollapp.value, c.proofs[(c.s.log[i].side, c.s.log[i].slot)].own)
  }

  /** On every run of transactions, each rollapp delivery stems from a message in an accepted one. It is ahead of the
      finality of its proof if and only if the last message there with its id text carries a finalized height and its
      own height is not final. */
  lemma AheadExactly(env: Env, rules: seq<Rule>, blocks: seq<Block>, i: nat) returns (b: Block, path: Path, last: Path)
    requires ValidEnv(env)
    requires var log := ChainRun(env, rules, blocks).s.log; i < |log| && IsRollappDelivery(log[i])
    ensures b in blocks && b.Transaction? && EveryNodeOk(rules, b.ms, 0)
    ensures var c := ChainRun(env, rules, blocks);
            var e := c.s.log[i];
            var at := (e.side, e.slot);
            && at in c.proofs && Carries(b.ms, path, last, at, c.proofs[at])
            && e.height == NodeAt(b.ms, last).value.height
            && (Ahead(c, i) <==>
                  && HeightFinalized(c.s, e.rollapp.value, NodeAt(b.ms, last).value.height)
                  && !HeightFinalized(c.s, e.rollapp.value, NodeAt(b.ms, path).value.height))
  {
    hide Inv, EveryNodeOk, ChainRun, IsLastNamed, UidText;
    ChainKeeps(env, rules, blocks);
    var c := ChainRun(env, rules, blocks);
    var at := (c.s.log[i].side, c.s.log[i].slot);
    b :| b in blocks && b.Transaction? && EveryNodeOk(rules, b.ms, 0) && Comes(b.ms, at, c.proofs[at]);
    path, last :| Carries(b.ms, path, last, at, c.proofs[at]);
    HandledAtFinal(env, c.s, i);
  }

  lemma HandledAtFinal(env: Env, s: State, i: nat)
    requires Inv(env, s) && i < |s.log| && IsRollappDelivery(s.log[i])
    ensures HeightFinalized(s, s.log[i].rollapp.value, s.log[i].height)
  {
  }

  /** All messages of a transaction with the same id text carry the height of the last. */
  ghost predicate OneHeight(ms: seq<Msg>) {
    forall path: Path, last: Path, id: Text :: IsNamed(ms, path, id) && IsLastNamed(ms, last, id) ==>
      NodeAt(ms, path).value.height == NodeAt(ms, last).value.height
  }

  /** If no accepted transaction gives two heights for one id text, nothing is delivered before its proof is final. */
  lemma NothingAheadOfProof(env: Env, rules: seq<Rule>, blocks: seq<Block>, i: nat)
    requires ValidEnv(env)
    requires forall b :: b in blocks && b.Transaction? && EveryNodeOk(rules, b.ms, 0) ==> OneHeight(b.ms)
    ensures !Ahead(ChainRun(env, rules, blocks), i)
  {
    hide EveryNodeOk, ChainRun, UidText, IsLastNamed, OneHeight, HeightFinalized;
    var c := ChainRun(env, rules, blocks);
    if i < |c.s.log| && IsRollappDelivery(c.s.log[i]) {
      var b, path, last := AheadExactly(env, rules, blocks, i);
      SameHeight(b.ms, path, last, (c.s.log[i].side, c.s.log[i].slot), c.proofs[(c.s.log[i].side, c.s.log[i].slot)]);
    }
  }

  lemma SameHeight(ms: seq<Msg>, path: Path, last: Path, at: Place, pr: Proof)
    requires Carries(ms, path, last, at, pr) && OneHeight(ms)
    ensures NodeAt(ms, path).value.height == NodeAt(ms, last).value.height
  {
    hide UidText, IsLastNamed;
    var m := NodeAt(ms, path).value;
    assert IsNamed(ms, path, UidText(UidOf(m.ptype, m.packet)));
  }

  // ---------------------------------------------------------------- transactions are runs of steps

  ghost predicate Reachable(env: Env, s: State) { exists steps :: Run(env, steps) == s }

  lemma StepReaches(env: Env, s: State, step: Step)
    requires Reachable(env, s)
    ensures Reachable(env, Apply(env, s, step))
  {
    var steps :| Run(env, steps) == s;
    var more := steps + [step];
    assert more[..|more| - 1] == steps;
    hide Apply;
    assert Run(env, more) == Apply(env, s, step);
  }

  lemma {:induction false} ExecReaches(env: Env, c: Chain, ctx: Heights, xs: seq<Msg>, answers: seq<Answer>)
    requires Reachable(env, c.s)
    ensures var r := ExecAll(env, c, ctx, xs, answers); r.Some? ==> Reachable(env, r.value.s)
    decreases |xs|
  {
    hide Apply, Reachable, Unpack;
    if xs != [] && answers != [] {
      var m, a := xs[0], answers[0];
      var d := ExecMsg(env, c, ctx, m, a);
      if d.Some? {
        if IsPacketMsg(m) {
          StepReaches(env, c.s, PacketStep(m, Unpack(ctx, m.ptype, m.packet).value, a));
        } else if a.effect.Some? {
          StepReaches(env, c.s, a.effect.value);
        }
        ExecReaches(env, d.value, ctx, xs[1..], answers[1..]);
      }
    }
  }

  /** Whatever transactions do, the hub is in a state of some run of single steps: what holds of those holds here. */
  lemma {:induction false} ChainIsRun(env: Env, rules: seq<Rule>, blocks: seq<Block>)
    ensures Reachable(env, ChainRun(env, rules, blocks).s)
  {
    if blocks == [] {
      assert Run(env, []) == GENESIS;
    } else {
      hide Apply, Reachable, ExecAll, EveryNodeOk, CallOver, Meetings, Executed;
      var front, b := blocks[..|blocks| - 1], blocks[|blocks| - 1];
      var c := ChainRun(env, rules, front);
      ChainIsRun(env, rules, front);
      match b
      case System(step) => StepReaches(env, c.s, step);
      case Transaction(ms, answers) =>
        ExecReaches(env, c, CallOver([Record], map[], Meetings(ms, 0)).ctx, Executed(ms, 0), answers);
    }
  }
}
