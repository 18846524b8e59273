/** The paginated query by address: the pagination of the address index, whose keys are pairs of an address and a packet
    key. */
module AddressPages {
  import opened Bytes
  import opened SortedStore
  import opened Packets
  import opened PacketKey
  import opened Hub
  import opened HubInvariant
  import opened HubRuns
  import opened HubFork
  import opened HubEpoch
  import opened HubIndex
  import P = Pagination
  import F = PageFollowing

  const DELIMITER: byte := 0

  /** An address, its delimiter, and the raw packet key. */
  function PairPrefix(a: Text): bytes { a + [DELIMITER] }

  function PairKey(a: Text, k: bytes): bytes { PairPrefix(a) + k }

  /** The raw keys of the index. */
  function Collection(s: State): set<bytes> { set e | e in s.index :: PairKey(e.0, e.1) }

  /** Addresses that hold the delimiter cannot be encoded. */
  ghost predicate Encodable(s: State) { forall e :: e in s.index ==> DELIMITER !in e.0 }

  /** What the query does with an entry. */
  function Visitor(s: State, a: Text): bytes -> P.Visit<RollappPacket> {
    (full: bytes) =>
      var k := P.Strip(PairPrefix(a), full);
      if k in s.packets then P.Emit(s.packets[k]) else P.TransformError
  }

  // ---------------------------------------------------------------- the entries of an address

  lemma EntryOf(s: State, a: Text, full: bytes)
    requires Encodable(s) && DELIMITER !in a
    ensures full in Collection(s) && PairPrefix(a) <= full <==>
              PairPrefix(a) <= full && full[|PairPrefix(a)|..] in Listed(s, a)
  {
    var pre := PairPrefix(a);
    if pre <= full {
      var k := full[|pre|..];
      assert full == PairKey(a, k);
      if k in Listed(s, a) { assert (a, k) in s.index; }
      if full in Collection(s) {
        var e :| e in s.index && PairKey(e.0, e.1) == full;
        SplitFirst(DELIMITER, a, e.0, k, e.1);
        assert e == (a, k);
      }
    }
  }

  function Prefixed(pre: bytes, ks: seq<bytes>): (r: seq<bytes>)
    ensures |r| == |ks| && forall i :: 0 <= i < |ks| ==> r[i] == pre + ks[i]
  {
    seq(|ks|, i requires 0 <= i < |ks| => pre + ks[i])
  }

  /** The scan visits the entries of the address, in the order of their packet keys. */
  lemma ScanOfAddress(s: State, a: Text)
    requires Encodable(s) && DELIMITER !in a
    ensures P.Scan(Collection(s), PairPrefix(a), [], false) == Prefixed(PairPrefix(a), Keys(Listed(s, a)))
  {
    hide Keys, Collection, Listed, PairPrefix, RangeKeys, PrefixEnd;
    var pre, ks := PairPrefix(a), Keys(Listed(s, a));
    F.ForwardScan(Collection(s), pre, []);
    assert pre + [] == pre;
    var list, want := RangeKeys(Collection(s), pre, PrefixEnd(pre)), Prefixed(pre, ks);
    forall i, j | 0 <= i < j < |want| ensures Less(want[i], want[j]) { LessCommonPrefix(pre, ks[i], ks[j]); }
    forall full ensures full in list <==> full in want {
      EntryOf(s, a, full);
      PrefixEndIsExact(pre, full);
      if pre <= full && full[|pre|..] in ks {
        var i :| 0 <= i < |ks| && ks[i] == full[|pre|..];
        assert want[i] == full;
      }
      if full in want {
        var i :| 0 <= i < |want| && want[i] == full;
        assert full[|pre|..] == ks[i];
      }
    }
    AscendingUnique(list, want);
  }

  lemma DownIsReversed(store: set<bytes>, pre: bytes)
    ensures P.Scan(store, pre, [], true) == P.Reversed(P.Scan(store, pre, [], false))
  {
    assert pre + [] == pre;
  }

  /** All entries have their packets: the visits give the answer of the query by address. */
  lemma {:induction false} HitsOfStored(s: State, a: Text, ks: seq<bytes>)
    requires forall k :: k in ks ==> k in s.packets
    ensures P.Hits(Prefixed(PairPrefix(a), ks), Visitor(s, a)) == Lookup(s.packets, ks)
  {
    hide PairPrefix;
    if ks != [] {
      var pre := PairPrefix(a);
      var all := Prefixed(pre, ks);
      assert all[1..] == Prefixed(pre, ks[1..]);
      assert P.Strip(pre, all[0]) == ks[0];
      HitsOfStored(s, a, ks[1..]);
    }
  }

  lemma {:induction false} HitsReversed<T>(ks: seq<bytes>, g: bytes -> P.Visit<T>)
    ensures P.Hits(P.Reversed(ks), g) == P.Reversed(P.Hits(ks, g))
  {
    if ks != [] {
      HitsReversed(ks[1..], g);
      P.HitsAppend(P.Reversed(ks[1..]), [ks[0]], g);
      assert P.Hits([ks[0]][1..], g) == [];
      var x := if g(ks[0]).Emit? then [g(ks[0]).t] else [];
      F.ReversedAppend(x, P.Hits(ks[1..], g));
      assert P.Reversed(x) == x;
    }
  }

  // ---------------------------------------------------------------- on every run

  /** Every listed key is the key of a packet, stored or not. */
  ghost predicate PacketKeys(env: Env, index: set<Entry>) {
    forall e :: e in index ==> IsPacketKey(env, e.1)
  }

  ghost predicate IsPacketKey(env: Env, k: bytes) { exists q :: PacketOk(env, q) && KeyOf(q) == k }

  /** A step lists only keys of packets it stores. */
  ghost predicate ListsStored(s: State, t: State) { forall e :: e in t.index ==> e in s.index || e.1 in t.packets }

  lemma StepListsStored(env: Env, s: State, step: Step)
    requires ValidEnv(env) && Inv(env, s)
    ensures ListsStored(s, Apply(env, s, step))
  {
    hide Inv, HeldOrSame, RecvTx, OutcomeTx, Fulfill, Finalize, HardFork, EpochRounds, KeyOf, ForkKeys, Redirect,
      Restore, PayeeOf;
    match step
    case SendStep(p) =>
    case RecvStep(p, h, relayer, o) =>
      RecvHolds(env, s, p, h, relayer, o);
      HoldingLists(s, Apply(env, s, step));
    case AckStep(p, ack, h, relayer, o) =>
      OutcomeHolds(env, s, OnAck, p, ack, h, relayer, o);
      HoldingLists(s, Apply(env, s, step));
    case TimeoutStep(p, h, relayer, o) =>
      OutcomeHolds(env, s, OnTimeout, p, [], h, relayer, o);
      HoldingLists(s, Apply(env, s, step));
    case FulfillStep(id, src, who, ok) =>
      if Fulfill(s, id, src, who, ok).Some? { FulfillEffect(env, s, id, src, who, ok); }
    case FinalizeStep(key, v) =>
      if Finalize(env, s, key, v).Some? { FinalizeEffect(env, s, key, v); }
    case ForkStep(r, h) => ForkEffect(env, s, r, h);
    case EpochStep(limit) => EpochDeletesExactly(env, s, limit);
    case HeightStep(r, h) =>
  }

  lemma HoldingLists(s: State, t: State)
    requires HeldOrSame(s, t)
    ensures ListsStored(s, t)
  {
    hide KeyOf;
  }

  lemma {:induction false} RunListsPacketKeys(env: Env, steps: seq<Step>)
    requires ValidEnv(env)
    ensures PacketKeys(env, Run(env, steps).index)
  {
    hide Inv, Apply, KeyOf, PacketOk;
    if steps != [] {
      var front, last := steps[..|steps| - 1], steps[|steps| - 1];
      var s, t := Run(env, front), Run(env, steps);
      RunListsPacketKeys(env, front);
      RunKeepsInv(env, front);
      RunKeepsInv(env, steps);
      StepListsStored(env, s, last);
      forall e | e in t.index ensures IsPacketKey(env, e.1) {
        if e !in s.index { StoredFacts(env, t, e.1); }
      }
    }
  }

  /** Channel ids hold no separator, at either end. */
  ghost predicate PlainChannels(env: Env) {
    forall e :: e in env.channels ==> SlashFree(e.chan) && SlashFree(env.channels[e].peer.chan)
  }

  lemma PacketKeysArePrefixFree(env: Env, k: bytes, l: bytes)
    requires ValidEnv(env) && PlainChannels(env) && IsPacketKey(env, k) && IsPacketKey(env, l) && k <= l
    ensures k == l
  {
    hide KeyOf;
    var p :| PacketOk(env, p) && KeyOf(p) == k;
    var q :| PacketOk(env, q) && KeyOf(q) == l;
    KeysArePrefixFree(p, q);
  }

  lemma EntriesArePrefixFree(env: Env, s: State, a: Text)
    requires ValidEnv(env) && PlainChannels(env) && Encodable(s) && DELIMITER !in a && PacketKeys(env, s.index)
    ensures F.PrefixFree(P.Scan(Collection(s), PairPrefix(a), [], true))
  {
    hide IsPacketKey, PairPrefix, Collection, ValidEnv, PlainChannels, P.Scan, PacketKeys;
    var pre := PairPrefix(a);
    var ks := P.Scan(Collection(s), pre, [], true);
    forall x, y | x in ks && y in ks && x <= y ensures x == y {
      ScannedKey(env, s, a, x);
      ScannedKey(env, s, a, y);
      PacketKeysArePrefixFree(env, x[|pre|..], y[|pre|..]);
      assert x == pre + x[|pre|..] && y == pre + y[|pre|..];
    }
  }

  lemma ScannedKey(env: Env, s: State, a: Text, x: bytes)
    requires Encodable(s) && DELIMITER !in a && PacketKeys(env, s.index)
             && x in P.Scan(Collection(s), PairPrefix(a), [], true)
    ensures PairPrefix(a) <= x && IsPacketKey(env, x[|PairPrefix(a)|..])
  {
    hide IsPacketKey, PairPrefix, Collection, P.Scan, Listed;
    P.ScanHasPrefix(Collection(s), PairPrefix(a), [], true, x);
    EntryOf(s, a, x);
    ListedEntry(s, a, x[|PairPrefix(a)|..]);
  }

  lemma ListedEntry(s: State, a: Text, k: bytes)
    ensures k in Listed(s, a) <==> (a, k) in s.index
  {
  }

  /** On every run, in either direction and for every page size, following the pages of an address whose entries all
      have their packets gives the answer of the query by address, or its reverse. */
  lemma PagesByAddress(env: Env, steps: seq<Step>, a: Text, limit: nat, countTotal: bool, reverse: bool,
                       page: P.Page<RollappPacket>, n: nat)
    requires ValidEnv(env) && PlainChannels(env) && Encodable(Run(env, steps)) && DELIMITER !in a
    requires QueryByAddress(Run(env, steps), a).Some? && limit >= 1 && n >= |Listed(Run(env, steps), a)|
    requires var s := Run(env, steps);
             P.FirstPage(P.Scan(Collection(s), PairPrefix(a), [], reverse), PairPrefix(a), limit, countTotal,
               Visitor(s, a), page)
    ensures var s := Run(env, steps);
            var r, q := F.Follow(Collection(s), PairPrefix(a), page, limit, reverse, Visitor(s, a), n),
              QueryByAddress(s, a).value;
            r.nextKey == [] && r.results == if reverse then P.Reversed(q) else q
  {
    hide Run, Collection, PairPrefix, Visitor, P.Scan, P.FirstPage, F.Follow, F.PrefixFree, PacketKeys, Listed,
      Lookup, Keys;
    var s, g := Run(env, steps), Visitor(Run(env, steps), a);
    var store, pre := Collection(s), PairPrefix(a);
    RunListsPacketKeys(env, steps);
    ScanOfAddress(s, a);
    DownIsReversed(store, pre);
    var up, down := P.Scan(store, pre, [], false), P.Scan(store, pre, [], true);
    HitsOfStored(s, a, Keys(Listed(s, a)));
    assert up[0..] == up && down[0..] == down;
    if reverse {
      EntriesArePrefixFree(env, s, a);
      F.ReverseIsLossless(store, pre, 0, limit, countTotal, g, page, n);
      HitsReversed(up, g);
    } else {
      F.ForwardIsLossless(store, pre, 0, limit, countTotal, g, page, n);
    }
  }

  // ---------------------------------------------------------------- stale entries

  predicate Missing(s: State, a: Text, full: bytes) { P.Strip(PairPrefix(a), full) !in s.packets }

  lemma {:induction false} AllMatch(s: State, a: Text, ks: seq<bytes>)
    ensures P.Matched(ks, Visitor(s, a)) == |ks|
  {
    if ks != [] { AllMatch(s, a, ks[1..]); }
  }

  /** A page panics if and only if one of the entries it would show has no packet, counting or not. */
  lemma PagePanics(s: State, a: Text, ks: seq<bytes>, limit: nat, countTotal: bool)
    ensures P.Fails(ks, limit, countTotal, Visitor(s, a)) <==>
            exists n :: 0 <= n < |ks| && n < limit && Missing(s, a, ks[n])
  {
    forall n | 0 <= n < |ks|
      ensures P.FailsAt(ks, limit, countTotal, Visitor(s, a), n) <==> n < limit && Missing(s, a, ks[n]) {
      AllMatch(s, a, ks[..n]);
    }
    if exists n :: 0 <= n < |ks| && n < limit && Missing(s, a, ks[n]) {
      var n :| 0 <= n < |ks| && n < limit && Missing(s, a, ks[n]);
      assert P.FailsAt(ks, limit, countTotal, Visitor(s, a), n);
    }
  }

  /** The entries of an address are all on a scan from its first or last entry. */
  lemma EntryIsScanned(s: State, a: Text, k: bytes, reverse: bool)
    requires Encodable(s) && DELIMITER !in a && (a, k) in s.index
    ensures a + [0] + k in P.Scan(Collection(s), a + [0], [], reverse)
  {
    hide Collection, P.Scan, Keys;
    ScanOfAddress(s, a);
    DownIsReversed(Collection(s), PairPrefix(a));
    var ks, up := Keys(Listed(s, a)), P.Scan(Collection(s), PairPrefix(a), [], false);
    assert k in Listed(s, a);
    var i :| 0 <= i < |ks| && ks[i] == k;
    assert up[i] == PairKey(a, k);
    P.InReversed(up, PairKey(a, k));
  }

  /** So an entry without a packet makes every page that reaches it to the end panic, in either direction, by offset
      and by key. */
  lemma MissingPacketPanics(s: State, a: Text, k: bytes, start: bytes, reverse: bool, offset: nat, limit: nat,
                            countTotal: bool)
    requires var ks := P.Scan(Collection(s), PairPrefix(a), start, reverse);
             offset <= |ks| <= offset + limit && PairKey(a, k) in ks[offset..] && k !in s.packets
    ensures var page := P.Scan(Collection(s), PairPrefix(a), start, reverse)[offset..];
            P.Fails(page, limit, countTotal, Visitor(s, a)) && !P.Clean(Take(page, limit), Visitor(s, a))
  {
    hide PairPrefix, Collection, P.Scan, P.Fails;
    var page := P.Scan(Collection(s), PairPrefix(a), start, reverse)[offset..];
    var i :| 0 <= i < |page| && page[i] == PairKey(a, k);
    assert P.Strip(PairPrefix(a), page[i]) == k;
    PagePanics(s, a, page, limit, countTotal);
    assert Missing(s, a, page[i]) && page[i] in Take(page, limit);
  }
}
