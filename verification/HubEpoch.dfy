/** Epoch-end cleanup: which packets go, how many, and in which order. */
module HubEpoch {
  import opened Bytes
  import opened SortedStore
  import opened Packets
  import opened PacketKey
  import opened Hub
  import opened HubInvariant
  import opened HubRuns

  function Elements(ks: seq<bytes>): set<bytes> { set k | k in ks }

  /** The index entries under which these packets would be listed. */
  ghost function EntriesOf(m: Store, ks: seq<bytes>): set<(Text, bytes)> {
    set k | k in ks && k in m && m[k].packet.data.Parses() :: (PayeeOf(m[k]), k)
  }

  /** The orders that follow these packets. */
  function OrdersOf(m: Store, ks: seq<bytes>): set<(Status, bytes)> {
    set k | k in ks && k in m :: (Finalized, IdOf(m[k]))
  }

  /** These packets are gone with their index entries and finalized orders, and nothing else is touched. */
  ghost predicate Cleared(s: State, ks: seq<bytes>, t: State) {
    && t.packets == s.packets - Elements(ks)
    && t.log == s.log && t.ibc == s.ibc && t.finalized == s.finalized
    && t.index == s.index - EntriesOf(s.packets, ks)
    && t.orders == s.orders - OrdersOf(s.packets, ks)
  }

  lemma DeleteClears(env: Env, s: State, k: bytes)
    requires ValidEnv(env) && Inv(env, s) && k in s.packets && s.packets[k].status == Finalized
    ensures s.packets[k].packet.data.Parses() && Cleared(s, [k], Delete(s, s.packets[k]))
  {
    hide Inv, Delete, IdOf, PayeeOf;
    DeleteEffect(env, s, k);
    assert Elements([k]) == {k};
    assert EntriesOf(s.packets, [k]) == {(PayeeOf(s.packets[k]), k)};
    assert OrdersOf(s.packets, [k]) == {(Finalized, IdOf(s.packets[k]))};
  }

  lemma ClearedAppend(s: State, a: seq<bytes>, t: State, b: seq<bytes>, u: State)
    requires Cleared(s, a, t) && Cleared(t, b, u)
    ensures Cleared(s, a + b, u)
  {
    assert Elements(a + b) == Elements(a) + Elements(b);
    assert s.packets - Elements(a) - Elements(b) == s.packets - (Elements(a) + Elements(b));
    hide IdOf, PayeeOf;
    assert EntriesOf(s.packets, a + b) == EntriesOf(s.packets, a) + EntriesOf(t.packets, b);
    assert OrdersOf(s.packets, a + b) == OrdersOf(s.packets, a) + OrdersOf(t.packets, b);
  }

  lemma NothingCleared(s: State)
    ensures Cleared(s, [], s)
  {
    assert Elements([]) == {} && EntriesOf(s.packets, []) == {} && OrdersOf(s.packets, []) == {};
  }

  lemma {:induction false} DeleteAllClears(env: Env, s: State, ks: seq<bytes>)
    requires ValidEnv(env) && Inv(env, s) && Ascending(ks)
    requires forall i :: 0 <= i < |ks| ==> ks[i] in s.packets && s.packets[ks[i]].status == Finalized
    ensures AllParse(Lookup(s.packets, ks)) && Cleared(s, ks, DeleteAll(s, Lookup(s.packets, ks)))
    decreases |ks|
  {
    hide Inv, Delete;
    if ks == [] {
      NothingCleared(s);
    } else {
      DeleteClears(env, s, ks[0]);
      DeleteKeepsInv(env, s, ks[0]);
      assert Elements([ks[0]]) == {ks[0]};
      TailStays(s.packets, ks);
      var t := Delete(s, s.packets[ks[0]]);
      DeleteAllClears(env, t, ks[1..]);
      hide Cleared;
      ClearedAppend(s, [ks[0]], t, ks[1..], DeleteAll(t, Lookup(t.packets, ks[1..])));
      assert ks == [ks[0]] + ks[1..];
    }
  }

  lemma RestOfList(fk: seq<bytes>, m: nat, rest: seq<bytes>)
    requires Ascending(fk) && Ascending(rest) && m <= |fk|
    requires forall k :: k in rest <==> k in fk && k !in fk[..m]
    ensures rest == fk[m..]
  {
    forall k ensures k in rest <==> k in fk[m..] {
      if k in fk[m..] {
        var i :| 0 <= i < |fk[m..]| && fk[m..][i] == k;
        if k in fk[..m] {
          var j :| 0 <= j < m && fk[j] == k;
          AscendingDistinct(fk, j, m + i);
        }
      }
      if k in rest {
        var i :| 0 <= i < |fk| && fk[i] == k;
        assert fk == fk[..m] + fk[m..];
      }
    }
    AscendingUnique(rest, fk[m..]);
  }

  /** After a round the remaining finalized keys are the rest of the list. */
  lemma RestOfFinalized(s: State, n: nat, t: State)
    requires Keyed(s.packets) && Keyed(t.packets)
    requires t.packets == s.packets - Elements(Take(FinalizedKeys(s), n))
    ensures FinalizedKeys(t) == FinalizedKeys(s)[|Take(FinalizedKeys(s), n)|..]
  {
    hide KeyOf, FinalizedKeys;
    FinalizedKeysAreFinalized(s);
    FinalizedKeysAreFinalized(t);
    FinalizedAscending(s);
    FinalizedAscending(t);
    var fk := FinalizedKeys(s);
    assert Take(fk, n) == fk[..|Take(fk, n)|];
    RestOfList(fk, |Take(fk, n)|, FinalizedKeys(t));
  }

  lemma TakeTwice(fk: seq<bytes>, a: nat, b: nat)
    ensures Take(fk, a) + Take(fk[|Take(fk, a)|..], b) == Take(fk, a + b)
  {
  }

  lemma BatchClears(env: Env, s: State)
    requires ValidEnv(env) && Inv(env, s)
    ensures AllParse(FirstBatch(s))
    ensures Cleared(s, Take(FinalizedKeys(s), BATCH), DeleteAll(s, FirstBatch(s)))
            && Inv(env, DeleteAll(s, FirstBatch(s)))
  {
    BatchKeys(s);
    BatchKeepsInv(env, s);
    hide Inv, KeyOf;
    DeleteAllClears(env, s, Take(FinalizedKeys(s), BATCH));
  }

  /** Rounds of the loop delete that many batches from the front of the finalized keys. */
  lemma {:induction false} RoundsClear(env: Env, s: State, n: nat)
    requires ValidEnv(env) && Inv(env, s)
    ensures EpochRounds(s, n).Some?
    ensures Cleared(s, Take(FinalizedKeys(s), n * BATCH), EpochRounds(s, n).value)
    decreases n
  {
    hide Inv, FinalizedKeys, DeleteAll, AllParse, FirstBatch;
    var fk := FinalizedKeys(s);
    BatchClears(env, s);
    BatchIsPrefix(s);
    if n == 0 || FirstBatch(s) == [] {
      assert Take(fk, n * BATCH) == [];
      NothingCleared(s);
    } else {
      var t := DeleteAll(s, FirstBatch(s));
      RoundsClear(env, t, n - 1);
      RestKeys(env, s, t);
      TakeTwice(fk, BATCH, (n - 1) * BATCH);
      ClearedAppend(s, Take(fk, BATCH), t, Take(FinalizedKeys(t), (n - 1) * BATCH), EpochRounds(t, n - 1).value);
    }
  }

  lemma BatchIsPrefix(s: State)
    ensures |FirstBatch(s)| == |Take(FinalizedKeys(s), BATCH)|
  {
  }

  lemma RestKeys(env: Env, s: State, t: State)
    requires Inv(env, s) && Inv(env, t) && t.packets == s.packets - Elements(Take(FinalizedKeys(s), BATCH))
    ensures FinalizedKeys(t) == FinalizedKeys(s)[|Take(FinalizedKeys(s), BATCH)|..]
  {
    hide Inv, KeyOf;
    KeyedOf(env, s);
    KeyedOf(env, t);
    RestOfFinalized(s, BATCH, t);
  }

  function Min(a: nat, b: nat): nat { if a <= b then a else b }

  /** Epoch end deletes the finalized packets with the smallest keys, as many as whole batches reach the limit, and
      no pending one. */
  lemma EpochDeletesExactly(env: Env, s: State, limit: int)
    requires ValidEnv(env) && Inv(env, s)
    ensures var t, fk := Apply(env, s, EpochStep(limit)), FinalizedKeys(s);
            var gone := Min(|fk|, 1000 * RoundsFor(limit));
            && Cleared(s, fk[..gone], t)
            && |t.packets| == |s.packets| - gone
            && (forall k :: IsPending(s.packets, k) ==> k in t.packets && t.packets[k] == s.packets[k])
  {
    hide Inv, FinalizedKeys, EpochRounds, KeyOf, RoundsFor;
    var n := RoundsFor(limit);
    var fk := FinalizedKeys(s);
    RoundsClear(env, s, n);
    KeyedOf(env, s);
    FinalizedKeysAreFinalized(s);
    FinalizedAscending(s);
    var ks := Take(fk, n * BATCH);
    assert ks == fk[..Min(|fk|, BATCH * n)];
    ClearedCount(s, ks, Apply(env, s, EpochStep(limit)));
  }

  lemma ClearedCount(s: State, ks: seq<bytes>, t: State)
    requires Cleared(s, ks, t) && Ascending(ks)
    requires forall k :: k in ks ==> k in s.packets && s.packets[k].status == Finalized
    ensures |t.packets| == |s.packets| - |ks|
    ensures forall k :: IsPending(s.packets, k) ==> k in t.packets && t.packets[k] == s.packets[k]
  {
    ElementsCount(ks);
    assert t.packets.Keys == s.packets.Keys - Elements(ks);
    assert Elements(ks) <= s.packets.Keys;
  }

  lemma KeyedOf(env: Env, s: State)
    requires Inv(env, s)
    ensures Keyed(s.packets)
  {
  }

  lemma FinalizedAscending(s: State)
    ensures Ascending(FinalizedKeys(s))
  {
  }

  lemma {:induction false} ElementsCount(ks: seq<bytes>)
    requires Ascending(ks)
    ensures |Elements(ks)| == |ks|
  {
    if ks == [] {
      assert Elements(ks) == {};
    } else {
      TailExcludesHead(ks);
      ElementsCount(ks[1..]);
      assert ks == [ks[0]] + ks[1..];
      assert Elements(ks) == {ks[0]} + Elements(ks[1..]);
    }
  }

  /** The loop's stopping rule: batches are whole, one is always taken, and the limit is met but for a batch. */
  lemma RoundsMeetLimit(limit: int)
    ensures RoundsFor(limit) >= 1 && 1000 * RoundsFor(limit) >= limit
    ensures RoundsFor(limit) > 1 ==> 1000 * (RoundsFor(limit) - 1) < limit
  {
  }
}
