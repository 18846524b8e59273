/** ListRollappPackets and its filters: scans of key ranges, filtered, cut at a limit. */
module Listing {
  import opened Bytes
  import opened SortedStore
  import opened Packets
  import opened PacketKey
  import opened Hub
  import opened HubInvariant
  import opened HubRuns

  /** A key range as a filter gives it; empty bounds stand for the defaults. */
  datatype Span = Span(start: bytes, end: bytes)

  function StartOf(r: Span): bytes { if r.start == [] then ALL_PREFIX else r.start }

  function EndOf(r: Span): Option<bytes> { if r.end == [] then PrefixEnd(StartOf(r)) else Some(r.end) }

  function SpanKeys(m: Store, r: Span): (ks: seq<bytes>)
    ensures Ascending(ks)
    ensures forall k :: k in ks <==> k in m && InRange(k, StartOf(r), EndOf(r))
  {
    RangeKeys(m.Keys, StartOf(r), EndOf(r))
  }

  function SpanPackets(m: Store, r: Span): seq<RollappPacket> { Lookup(m, SpanKeys(m, r)) }

  /** All packets that meet the filter, range after range. */
  function Matches(m: Store, spans: seq<Span>, f: RollappPacket -> bool): (ps: seq<RollappPacket>) {
    if spans == [] then [] else Filter(SpanPackets(m, spans[0]), f) + Matches(m, spans[1..], f)
  }

  /** A limit that is not positive does not limit. */
  function List(m: Store, spans: seq<Span>, f: RollappPacket -> bool, limit: int): (ps: seq<RollappPacket>) {
    if limit > 0 then Take(Matches(m, spans, f), limit) else Matches(m, spans, f)
  }

  lemma {:induction false} MatchesAppend(m: Store, a: seq<Span>, b: seq<Span>, f: RollappPacket -> bool)
    ensures Matches(m, a + b, f) == Matches(m, a, f) + Matches(m, b, f)
  {
    hide SpanPackets;
    if a == [] {
      assert a + b == b;
    } else {
      assert (a + b)[1..] == a[1..] + b && (a + b)[0] == a[0];
      MatchesAppend(m, a[1..], b, f);
      var head := Filter(SpanPackets(m, a[0]), f);
      assert head + (Matches(m, a[1..], f) + Matches(m, b, f)) == head + Matches(m, a[1..], f) + Matches(m, b, f);
    }
  }

  const Bypass: RollappPacket -> bool := p => true

  lemma {:induction false} FilterBypass(ps: seq<RollappPacket>)
    ensures Filter(ps, Bypass) == ps
  {
    if ps != [] { FilterBypass(ps[1..]); }
  }

  lemma SingleSpan(m: Store, r: Span)
    ensures List(m, [r], Bypass, 0) == SpanPackets(m, r)
  {
    FilterBypass(SpanPackets(m, r));
    assert Matches(m, [r][1..], Bypass) == [];
  }

  // ---------------------------------------------------------------- the filters in use

  /** PendingByRollappIDByMaxHeight: the end is one above the maximum, in 64-bit arithmetic. */
  function UpToHeight(r: Text, maxHeight: u64): Span {
    Span(HeightPrefix(Pending, r, 0), HeightPrefix(Pending, r, (maxHeight + 1) % U64_SIZE))
  }

  /** PendingByRollappIDFromHeight. */
  function FromHeight(r: Text, fromHeight: u64): Span {
    Span(HeightPrefix(Pending, r, fromHeight), HeightPrefix(Pending, r, MAX_U64))
  }

  /** ByRollappIDByStatus. */
  function OfRollappStatus(r: Text, st: Status): Span { Span(RollappPrefix(st, r), []) }

  /** ByStatus. */
  function OfStatus(st: Status): Span { Span(StatusPrefix(st), []) }

  ghost predicate Sound(m: Store) {
    Keyed(m) && forall k :: k in m ==> SlashFree(m[k].rollappId)
  }

  lemma InvIsSound(env: Env, s: State)
    requires ValidEnv(env) && Inv(env, s)
    ensures Sound(s.packets)
  {
  }

  lemma OfStatusIsExact(m: Store, st: Status, k: bytes)
    requires Sound(m) && k in m
    ensures k in SpanKeys(m, OfStatus(st)) <==> m[k].status == st
  {
    hide KeyOf, PrefixEnd;
    PrefixEndIsExact(StatusPrefix(st), k);
    KeyTellsStatus(m[k], st);
  }

  lemma KeyTellsRollapp(p: RollappPacket, r: Text, st: Status)
    requires SlashFree(r) && SlashFree(p.rollappId)
    ensures RollappPrefix(st, r) <= KeyOf(p) <==> p.status == st && p.rollappId == r
  {
    hide RollappPrefix, Suffix, TypeName;
    var rest := Uint64ToBigEndian(p.proofHeight) + Suffix(TypeName(p.ptype), p.packet.srcChan, p.packet.sequence);
    KeyParts(p.status, p.rollappId, p.proofHeight, p.ptype, p.packet.srcChan, p.packet.sequence);
    RollappPrefixIsExact(st, r, p.status, p.rollappId, rest);
  }

  lemma OfRollappStatusIsExact(m: Store, r: Text, st: Status, k: bytes)
    requires Sound(m) && SlashFree(r) && k in m
    ensures k in SpanKeys(m, OfRollappStatus(r, st)) <==> m[k].status == st && m[k].rollappId == r
  {
    hide PrefixEnd, KeyOf;
    PrefixEndIsExact(RollappPrefix(st, r), k);
    KeyTellsRollapp(m[k], r, st);
  }

  /** ByRollappID: one range for each status. */
  function OfRollapp(r: Text): seq<Span> { [OfRollappStatus(r, Pending), OfRollappStatus(r, Finalized)] }

  lemma OfRollappList(m: Store, r: Text)
    ensures List(m, OfRollapp(r), Bypass, 0) == SpanPackets(m, OfRollappStatus(r, Pending))
            + SpanPackets(m, OfRollappStatus(r, Finalized))
  {
    hide SpanPackets, OfRollappStatus;
    var a, b := OfRollappStatus(r, Pending), OfRollappStatus(r, Finalized);
    assert OfRollapp(r) == [a] + [b];
    MatchesAppend(m, [a], [b], Bypass);
    SingleSpan(m, a);
    SingleSpan(m, b);
  }

  lemma InSpan(m: Store, r: Span, p: RollappPacket)
    requires Keyed(m)
    ensures p in SpanPackets(m, r) <==> KeyOf(p) in SpanKeys(m, r) && m[KeyOf(p)] == p
  {
    hide KeyOf, SpanKeys;
    var ks := SpanKeys(m, r);
    if KeyOf(p) in ks && m[KeyOf(p)] == p {
      var i :| 0 <= i < |ks| && ks[i] == KeyOf(p);
      assert SpanPackets(m, r)[i] == p;
    }
    if p in SpanPackets(m, r) {
      var i :| 0 <= i < |ks| && SpanPackets(m, r)[i] == p;
      assert m[ks[i]] == p && ks[i] in m;
    }
  }

  /** The packets of a rollapp are listed whatever their status, and no other packet is. */
  lemma OfRollappIsExact(m: Store, r: Text, p: RollappPacket)
    requires Sound(m) && SlashFree(r)
    ensures p in List(m, OfRollapp(r), Bypass, 0) <==> KeyOf(p) in m && m[KeyOf(p)] == p && p.rollappId == r
  {
    hide SpanPackets, OfRollappStatus, KeyOf, List, SpanKeys;
    OfRollappList(m, r);
    InSpan(m, OfRollappStatus(r, Pending), p);
    InSpan(m, OfRollappStatus(r, Finalized), p);
    if KeyOf(p) in m {
      OfRollappStatusIsExact(m, r, Pending, KeyOf(p));
      OfRollappStatusIsExact(m, r, Finalized, KeyOf(p));
    }
  }

  lemma HeightPrefixLength(r: Text, h: u64)
    ensures |HeightPrefix(Pending, r, h)| >= 8
  {
  }

  lemma FromHeightIsExact(m: Store, r: Text, from: u64, k: bytes)
    requires Sound(m) && SlashFree(r) && k in m
    ensures k in SpanKeys(m, FromHeight(r, from)) <==>
              m[k].status == Pending && m[k].rollappId == r && from <= m[k].proofHeight < MAX_U64
  {
    hide KeyOf, HeightPrefix;
    HeightRangeIsExact(Pending, r, from, MAX_U64, m[k]);
    HeightPrefixLength(r, from);
    HeightPrefixLength(r, MAX_U64);
  }

  ghost predicate IsPendingUpTo(p: RollappPacket, r: Text, h: u64) {
    p.status == Pending && p.rollappId == r && p.proofHeight <= h
  }

  lemma UpToHeightKeys(m: Store, r: Text, maxHeight: u64, k: bytes)
    requires Sound(m) && SlashFree(r) && k in m
    ensures k in SpanKeys(m, UpToHeight(r, maxHeight)) <==>
              m[k].status == Pending && m[k].rollappId == r && m[k].proofHeight <= maxHeight && maxHeight < MAX_U64
  {
    hide KeyOf, HeightPrefix;
    var end := (maxHeight + 1) % U64_SIZE;
    HeightRangeIsExact(Pending, r, 0, end, m[k]);
    HeightPrefixLength(r, 0);
    HeightPrefixLength(r, end);
  }

  /** GetPendingPacketsUntilFinalizedHeight lists exactly the pending packets up to the finalized height if and only
      if that height is not the largest one, where the bound wraps to zero, or there is nothing to list. */
  lemma UpToHeightIsExact(m: Store, r: Text, maxHeight: u64)
    requires Sound(m) && SlashFree(r)
    ensures (forall k :: k in m ==> (k in SpanKeys(m, UpToHeight(r, maxHeight)) <==> IsPendingUpTo(m[k], r, maxHeight)))
            <==> (maxHeight < MAX_U64 || forall k :: k in m ==> !IsPendingUpTo(m[k], r, maxHeight))
  {
    hide UpToHeight, Sound;
    forall k | k in m
      ensures k in SpanKeys(m, UpToHeight(r, maxHeight)) <==> IsPendingUpTo(m[k], r, maxHeight) && maxHeight < MAX_U64 {
      UpToHeightKeys(m, r, maxHeight, k);
    }
  }

  /** Listings come in proof-height order within a rollapp and status. */
  lemma ListingFollowsHeight(m: Store, r: Span, i: nat, j: nat)
    requires Sound(m) && i < j < |SpanPackets(m, r)|
    requires var p, q := SpanPackets(m, r)[i], SpanPackets(m, r)[j]; p.status == q.status && p.rollappId == q.rollappId
    ensures SpanPackets(m, r)[i].proofHeight <= SpanPackets(m, r)[j].proofHeight
  {
    var ks := SpanKeys(m, r);
    var p, q := m[ks[i]], m[ks[j]];
    assert KeyOf(p) == ks[i] && KeyOf(q) == ks[j];
    hide KeyOf;
    KeyOrderFollowsHeight(q, p);
    if q.proofHeight < p.proofHeight { LessTransitive(ks[i], ks[j], ks[i]); LessIrreflexive(ks[i]); }
  }

  /** The fork's and the epoch's scans are instances. */
  lemma ForkScan(s: State, r: Text, lastValid: u64)
    ensures SpanKeys(s.packets, FromHeight(r, ForkFrom(lastValid))) == ForkKeys(s, r, lastValid)
    ensures SpanKeys(s.packets, OfStatus(Finalized)) == FinalizedKeys(s)
  {
    assert |HeightPrefix(Pending, r, ForkFrom(lastValid))| >= 8 && |HeightPrefix(Pending, r, MAX_U64)| >= 8;
    assert |StatusPrefix(Finalized)| == 3;
  }
}
