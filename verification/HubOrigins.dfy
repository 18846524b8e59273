/** Where callbacks come from: over every run each one repeats a relayer's message, and pays whom that message named or
    whoever bought the packet. */
module HubOrigins {
  import opened Bytes
  import opened Packets
  import opened PacketKey
  import opened Hub
  import opened HubInvariant
  import opened HubRuns
  import opened HubFork
  import opened HubEpoch
  import opened HubIndex
  import opened HubEffects

  // ---------------------------------------------------------------- reports

  /** The message of this step reports the packet, with its acknowledgement, at this height. */
  predicate Reports(step: Step, c: Call, h: u64) {
    match step
    case RecvStep(p, height, relayer, _) => c == Call(OnRecv, p, [], relayer) && h == height
    case AckStep(p, ack, height, relayer, _) => c == Call(OnAck, p, ack, relayer) && h == height
    case TimeoutStep(p, height, relayer, _) => c == Call(OnTimeout, p, [], relayer) && h == height
    case _ => false
  }

  /** The same type, acknowledgement, relayer and packet, but perhaps for who is paid and how the data is spelled. */
  predicate SameButPayee(c: Call, first: Call) {
    && c == first.(packet := first.packet.(data := c.packet.data))
    && !c.packet.data.Malformed? && !first.packet.data.Malformed?
    && c.packet.data.transfer == Payer(c.ptype, first.packet.data.transfer, Beneficiary(c))
  }

  predicate Buys(step: Step, id: bytes, to: Text) { step.FulfillStep? && step.id == id && step.fundsSource == to }

  /** The payee is the one reported, or the source of funds of a later fulfilment of this packet's order. */
  ghost predicate PaysRightly(steps: seq<Step>, i: nat, c: Call, first: Call, r: Option<Text>, h: u64)
    requires !c.packet.data.Malformed? && !first.packet.data.Malformed?
  {
    || Beneficiary(c) == Beneficiary(first)
    || (r.Some? && exists j :: i < j < |steps| && Buys(steps[j], KeyOf(HeldRecord(first, r.value, h)), Beneficiary(c)))
  }

  ghost predicate StemsFrom(env: Env, steps: seq<Step>, i: nat, first: Call, c: Call, r: Option<Text>, h: u64) {
    var at := HubEnd(first.ptype, first.packet);
    && i < |steps| && Reports(steps[i], first, h) && SameButPayee(c, first)
    && ValidOn(env, first.packet.data, at) && at in env.channels && env.channels[at].rollapp == r
    && PaysRightly(steps, i, c, first, r, h)
  }

  /** A valid message of the run reported it. */
  ghost predicate Stems(env: Env, steps: seq<Step>, c: Call, r: Option<Text>, h: u64) {
    exists i, first :: StemsFrom(env, steps, i, first, c, r, h)
  }

  ghost predicate Origins(env: Env, steps: seq<Step>, s: State) {
    && (forall k :: IsPending(s.packets, k) ==>
          Stems(env, steps, CallOf(s.packets[k]), Some(s.packets[k].rollappId), s.packets[k].proofHeight))
    && (forall i :: 0 <= i < |s.log| && s.log[i].Delivered? ==>
          Stems(env, steps, s.log[i].call, s.log[i].rollapp, s.log[i].height))
  }

  // ---------------------------------------------------------------- a message does one thing

  ghost predicate IsPassedOn(s: State, t: State, c: Call, h: u64) { exists r, ack :: PassedOn(s, t, c, r, h, ack) }

  ghost predicate IsPutOnHold(s: State, t: State, c: Call, h: u64) {
    !c.packet.data.Malformed? && exists r, m :: PutOnHold(s, t, c, r, h, m)
  }

  ghost predicate IsTurnedAway(s: State, t: State, c: Call) { c.ptype == OnRecv && TurnedAway(s, t, c) }

  ghost predicate ExactlyOne(a: bool, b: bool, c: bool) { (a || b || c) && !(a && b) && !(a && c) && !(b && c) }

  /** A packet message either leaves everything as it was, or ICS-04 consumes its packet, and then exactly one of three
      things happens: the packet is passed on, put on hold, or, if it was received, refused by an error
      acknowledgement. */
  lemma MessageDoesOneThing(env: Env, s: State, step: Step, c: Call, h: u64)
    requires ValidEnv(env) && Inv(env, s) && Reports(step, c, h)
    ensures var t, side, slot := Apply(env, s, step), SideOf(c.ptype), SlotOf(c.ptype, c.packet);
            if !Closed(s.ibc, side, slot) && Closed(t.ibc, side, slot)
            then ExactlyOne(IsPassedOn(s, t, c, h), IsPutOnHold(s, t, c, h), IsTurnedAway(s, t, c))
            else t == s
  {
    hide Inv, Apply, ValidOn, KeyOf;
    var t, o := Apply(env, s, step), step.outcome;
    var at := HubEnd(c.ptype, c.packet);
    ValidParses(env, c.packet.data, at);
    CommitmentFacts(env, s, SlotOf(c.ptype, c.packet));
    if step.RecvStep? { ReceiveExactly(env, s, c, h, o); } else { OutcomeExactly(env, s, c, h, o); }
    OneAtMost(s, t, c, h);
    if t != s { Witnessed(s, t, c, h); }
  }

  lemma OneAtMost(s: State, t: State, c: Call, h: u64)
    ensures !(IsPassedOn(s, t, c, h) && IsPutOnHold(s, t, c, h))
    ensures !(IsPassedOn(s, t, c, h) && IsTurnedAway(s, t, c)) && !(IsPutOnHold(s, t, c, h) && IsTurnedAway(s, t, c))
  {
    hide KeyOf;
  }

  lemma Witnessed(s: State, t: State, c: Call, h: u64)
    ensures forall r, ack :: PassedOn(s, t, c, r, h, ack) ==> IsPassedOn(s, t, c, h)
    ensures !c.packet.data.Malformed? ==> forall r, m :: PutOnHold(s, t, c, r, h, m) ==> IsPutOnHold(s, t, c, h)
  {
    hide PassedOn, PutOnHold;
  }

  // ---------------------------------------------------------------- every step keeps them

  lemma StemsLater(env: Env, steps: seq<Step>, step: Step, c: Call, r: Option<Text>, h: u64)
    requires Stems(env, steps, c, r, h)
    ensures Stems(env, steps + [step], c, r, h)
  {
    hide ValidOn, KeyOf;
    var i: nat, first :| StemsFrom(env, steps, i, first, c, r, h);
    var more := steps + [step];
    assert forall j :: 0 <= j < |steps| ==> more[j] == steps[j];
    assert StemsFrom(env, more, i, first, c, r, h);
  }

  /** Nothing waits or was called that did not before. */
  lemma FewerStem(env: Env, steps: seq<Step>, step: Step, s: State, t: State)
    requires Origins(env, steps, s) && s.log <= t.log
    requires forall k :: IsPending(t.packets, k) ==> IsPending(s.packets, k) && t.packets[k] == s.packets[k]
    requires forall i :: |s.log| <= i < |t.log| ==> !t.log[i].Delivered?
    ensures Origins(env, steps + [step], t)
  {
    hide Stems;
    forall k | IsPending(t.packets, k)
      ensures Stems(env, steps + [step], CallOf(t.packets[k]), Some(t.packets[k].rollappId), t.packets[k].proofHeight) {
      StemsLater(env, steps, step, CallOf(s.packets[k]), Some(s.packets[k].rollappId), s.packets[k].proofHeight);
    }
    forall i | 0 <= i < |t.log| && t.log[i].Delivered?
      ensures Stems(env, steps + [step], t.log[i].call, t.log[i].rollapp, t.log[i].height) {
      assert t.log[i] == s.log[i];
      StemsLater(env, steps, step, s.log[i].call, s.log[i].rollapp, s.log[i].height);
    }
  }

  /** A message's own report. */
  lemma ReportStems(env: Env, steps: seq<Step>, step: Step, c: Call, r: Option<Text>, h: u64)
    requires Reports(step, c, h) && ValidOn(env, c.packet.data, HubEnd(c.ptype, c.packet))
    requires env.channels[HubEnd(c.ptype, c.packet)].rollapp == r
    ensures Stems(env, steps + [step], c, r, h)
  {
    assert StemsFrom(env, steps + [step], |steps|, c, c, r, h);
  }

  lemma PassedOnStems(env: Env, steps: seq<Step>, step: Step, s: State, t: State, c: Call, r: Option<Text>, h: u64,
                      ack: Option<Acked>)
    requires Origins(env, steps, s) && PassedOn(s, t, c, r, h, ack) && Stems(env, steps + [step], c, r, h)
    ensures Origins(env, steps + [step], t)
  {
    hide Stems;
    FewerStem(env, steps, step, s, t.(log := s.log));
    forall i | 0 <= i < |t.log| && t.log[i].Delivered?
      ensures Stems(env, steps + [step], t.log[i].call, t.log[i].rollapp, t.log[i].height) {
      if i < |s.log| { assert t.log[i] == t.(log := s.log).log[i]; }
    }
  }

  lemma PutOnHoldStems(env: Env, steps: seq<Step>, step: Step, s: State, t: State, c: Call, r: Text, h: u64, m: Market)
    requires !c.packet.data.Malformed? && (c.ptype != OnAck ==> c.ack == [])
    requires Origins(env, steps, s) && PutOnHold(s, t, c, r, h, m) && Stems(env, steps + [step], c, Some(r), h)
    ensures Origins(env, steps + [step], t)
  {
    hide Stems, KeyOf;
    var k := KeyOf(HeldRecord(c, r, h));
    FewerStem(env, steps, step, s, t.(packets := s.packets));
    assert CallOf(t.packets[k]) == c;
    forall l | IsPending(t.packets, l)
      ensures Stems(env, steps + [step], CallOf(t.packets[l]), Some(t.packets[l].rollappId), t.packets[l].proofHeight) {
      if l != k { assert IsPending(s.packets, l); }
    }
  }

  lemma PacketStepStems(env: Env, steps: seq<Step>, s: State, step: Step)
    requires ValidEnv(env) && Inv(env, s) && Origins(env, steps, s)
    requires step.RecvStep? || step.AckStep? || step.TimeoutStep?
    ensures Origins(env, steps + [step], Apply(env, s, step))
  {
    hide Inv, Origins, Apply, Admits, PassedOn, PutOnHold, ValidOn, Waits, Stems;
    var t, h, o := Apply(env, s, step), step.height, step.outcome;
    var c := match step
      case RecvStep(p, _, relayer, _) => Call(OnRecv, p, [], relayer)
      case AckStep(p, ack, _, relayer, _) => Call(OnAck, p, ack, relayer)
      case TimeoutStep(p, _, relayer, _) => Call(OnTimeout, p, [], relayer);
    var at := HubEnd(c.ptype, c.packet);
    ValidParses(env, step.p.data, at);
    if step.RecvStep? { ReceiveExactly(env, s, c, h, o); } else { OutcomeExactly(env, s, c, h, o); }
    if t.packets == s.packets && t.log == s.log {
      SameStems(env, steps, step, s, t);
    } else if !Waits(s, env.channels[at].rollapp, h) {
      ReportStems(env, steps, step, c, env.channels[at].rollapp, h);
      var ack := if step.RecvStep? && o.ack == SuccessAck then Some(Acked(c.packet, true)) else None;
      PassedOnStems(env, steps, step, s, t, c, env.channels[at].rollapp, h, ack);
    } else {
      WaitsForRollapp(s, env.channels[at].rollapp, h);
      ReportStems(env, steps, step, c, env.channels[at].rollapp, h);
      var made := if step.RecvStep? then o.market
                  else if AsksMarket(c, o) && o.market.NewOrder? then NewOrder(false) else NoOrder;
      PutOnHoldStems(env, steps, step, s, t, c, env.channels[at].rollapp.value, h, made);
    }
  }

  lemma SameStems(env: Env, steps: seq<Step>, step: Step, s: State, t: State)
    requires Origins(env, steps, s) && t.packets == s.packets && t.log == s.log
    ensures Origins(env, steps + [step], t)
  {
    FewerStem(env, steps, step, s, t);
  }

  /** The bought packet pays the source of funds, by this very step. */
  lemma BoughtStems(env: Env, steps: seq<Step>, s: State, id: bytes, src: Text, step: Step, q: RollappPacket)
    requires IsPending(s.packets, id) && KeyOf(s.packets[id]) == id && Buys(step, id, src)
    requires !s.packets[id].packet.data.Malformed? && s.packets[id].ptype != Undefined
    requires q == s.packets[id].(packet := q.packet, originalTarget := q.originalTarget)
    requires var p := s.packets[id];
             q.packet == p.packet.(data := Canonical(Payer(p.ptype, p.packet.data.transfer, src)))
    requires Stems(env, steps, CallOf(s.packets[id]), Some(s.packets[id].rollappId), s.packets[id].proofHeight)
    ensures Stems(env, steps + [step], CallOf(q), Some(q.rollappId), q.proofHeight)
  {
    hide ValidOn;
    var p, r, h := s.packets[id], s.packets[id].rollappId, s.packets[id].proofHeight;
    var i: nat, first :| StemsFrom(env, steps, i, first, CallOf(p), Some(r), h);
    var more := steps + [step];
    assert KeyOf(HeldRecord(first, r, h)) == id;
    assert more[i] == steps[i] && Buys(more[|steps|], KeyOf(HeldRecord(first, r, h)), Beneficiary(CallOf(q)));
    hide KeyOf;
    assert StemsFrom(env, more, i, first, CallOf(q), Some(r), h);
  }

  lemma FulfillStems(env: Env, steps: seq<Step>, s: State, step: Step)
    requires Inv(env, s) && Origins(env, steps, s) && step.FulfillStep?
    ensures Origins(env, steps + [step], Apply(env, s, step))
  {
    hide Inv, KeyOf, Stems, Apply;
    var t, id := Apply(env, s, step), step.id;
    FulfillExactly(env, s, id, step.fundsSource, step.fulfiller, step.hookOk);
    if t == s {
      SameStems(env, steps, step, s, t);
    } else {
      OrderFacts(env, s, id);
      FewerStem(env, steps, step, s, t.(packets := s.packets));
      BoughtStems(env, steps, s, id, step.fundsSource, step, t.packets[id]);
      forall k | IsPending(t.packets, k)
        ensures var q := t.packets[k]; Stems(env, steps + [step], CallOf(q), Some(q.rollappId), q.proofHeight) {
        if k != id { assert IsPending(s.packets, k); }
      }
    }
  }

  /** What is called at finalization is what waited. */
  lemma FinalizeStems(env: Env, steps: seq<Step>, s: State, step: Step)
    requires ValidEnv(env) && Inv(env, s) && Origins(env, steps, s) && step.FinalizeStep?
    ensures Origins(env, steps + [step], Apply(env, s, step))
  {
    hide Inv, KeyOf, Stems, Apply, WentWell, ValidOn, ReachesHook, TriesAck;
    var t, key := Apply(env, s, step), step.key;
    FinalizeExactly(env, s, key, step.verdict);
    if t == s {
      SameStems(env, steps, step, s, t);
    } else {
      var p := s.packets[key];
      FewerStem(env, steps, step, s, t.(log := s.log));
      assert t.log[|s.log|].call == CallOf(p);
      StemsLater(env, steps, step, CallOf(p), Some(p.rollappId), p.proofHeight);
      forall i | 0 <= i < |t.log| && t.log[i].Delivered?
        ensures Stems(env, steps + [step], t.log[i].call, t.log[i].rollapp, t.log[i].height) {
        if i < |s.log| { assert t.log[i] == t.(log := s.log).log[i]; }
      }
    }
  }

  lemma StepKeepsOrigins(env: Env, steps: seq<Step>, s: State, step: Step)
    requires ValidEnv(env) && Inv(env, s) && Origins(env, steps, s)
    ensures Origins(env, steps + [step], Apply(env, s, step))
  {
    hide Inv, Origins, Apply, KeyOf, ForkKeys, FinalizedKeys, RoundsFor, EntriesOf, OrdersOf, Reopened, Unlisted;
    var t := Apply(env, s, step);
    match step
    case SendStep(p) =>
      SendExactly(env, s, p);
      SameStems(env, steps, step, s, t);
    case RecvStep(p, h, relayer, o) => PacketStepStems(env, steps, s, step);
    case AckStep(p, ack, h, relayer, o) => PacketStepStems(env, steps, s, step);
    case TimeoutStep(p, h, relayer, o) => PacketStepStems(env, steps, s, step);
    case FulfillStep(id, src, who, ok) => FulfillStems(env, steps, s, step);
    case FinalizeStep(key, v) => FinalizeStems(env, steps, s, step);
    case ForkStep(r, h) =>
      ForkEffect(env, s, r, h);
      FewerStem(env, steps, step, s, t);
    case EpochStep(limit) =>
      EpochDeletesExactly(env, s, limit);
      FewerStem(env, steps, step, s, t);
    case HeightStep(r, h) =>
      HeightExactly(env, s, r, h);
      SameStems(env, steps, step, s, t);
  }

  lemma {:induction false} RunKeepsOrigins(env: Env, steps: seq<Step>)
    requires ValidEnv(env)
    ensures Origins(env, steps, Run(env, steps))
  {
    if steps == [] {
      assert forall k :: !IsPending(GENESIS.packets, k);
    } else {
      hide Inv, Apply, Origins;
      var front, last := steps[..|steps| - 1], steps[|steps| - 1];
      RunKeepsInv(env, front);
      RunKeepsOrigins(env, front);
      StepKeepsOrigins(env, front, Run(env, front), last);
      assert front + [last] == steps;
    }
  }

  /** On every run, each callback made was reported by a valid message of the run: it has the type, acknowledgement,
      relayer, height and packet of that message, and pays whom the message named or whoever fulfilled the packet's
      order afterwards. */
  lemma CallbacksAreReported(env: Env, steps: seq<Step>, n: nat) returns (i: nat, first: Call)
    requires ValidEnv(env) && n < |Run(env, steps).log| && Run(env, steps).log[n].Delivered?
    ensures var e := Run(env, steps).log[n]; StemsFrom(env, steps, i, first, e.call, e.rollapp, e.height)
  {
    hide Run, StemsFrom;
    RunKeepsOrigins(env, steps);
    var e := Run(env, steps).log[n];
    assert Stems(env, steps, e.call, e.rollapp, e.height);
    i, first :| StemsFrom(env, steps, i, first, e.call, e.rollapp, e.height);
  }

  /** The same holds of every packet on hold. */
  lemma HeldIsReported(env: Env, steps: seq<Step>, k: bytes) returns (i: nat, first: Call)
    requires ValidEnv(env) && IsPending(Run(env, steps).packets, k)
    ensures var p := Run(env, steps).packets[k];
            StemsFrom(env, steps, i, first, CallOf(p), Some(p.rollappId), p.proofHeight)
  {
    hide Run, StemsFrom;
    RunKeepsOrigins(env, steps);
    var p := Run(env, steps).packets[k];
    assert Stems(env, steps, CallOf(p), Some(p.rollappId), p.proofHeight);
    i, first :| StemsFrom(env, steps, i, first, CallOf(p), Some(p.rollappId), p.proofHeight);
  }
}
