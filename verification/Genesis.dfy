/** Genesis export and import of the packet store. */
module Genesis {
  import opened Bytes
  import opened SortedStore
  import opened Packets
  import opened PacketKey
  import opened Hub
  import opened HubInvariant
  import opened HubRuns
  import opened HubEpoch
  import opened HubIndex
  import opened KeeperModel

  /** The part of the state that genesis carries: the packets; the index is rebuilt from them. */
  datatype Loaded = Loaded(packets: Store, index: set<Entry>)

  function AllKeys(m: Store): (ks: seq<bytes>)
    ensures Ascending(ks)
    ensures forall k :: k in ks ==> k in m
  {
    RangeKeys(m.Keys, ALL_PREFIX, PrefixEnd(ALL_PREFIX))
  }

  function Export(m: Store): (ps: seq<RollappPacket>) { Lookup(m, AllKeys(m)) }

  predicate Importable(p: RollappPacket) { p.packet.data.Parses() && p.ptype != Undefined }

  function Load(g: Loaded, p: RollappPacket): Loaded
    requires Importable(p)
  {
    Loaded(g.packets[KeyOf(p) := p], g.index + {(PayeeOf(p), KeyOf(p))})
  }

  /** InitGenesis; None is a panic. */
  function Import(g: Loaded, ps: seq<RollappPacket>): (r: Option<Loaded>)
    decreases |ps|
  {
    if ps == [] then Some(g)
    else if !Importable(ps[0]) then None
    else Import(Load(g, ps[0]), ps[1..])
  }

  /** GetAllRollappPackets, which is all ExportGenesis does with packets. */
  method ExportGenesis(k: Keeper) returns (list: seq<RollappPacket>)
    ensures list == Export(k.packets)
  {
    hide RangeKeys;
    var ks := AllKeys(k.packets);
    list := [];
    var i := 0;
    while i < |ks|
      invariant 0 <= i <= |ks|
      invariant forall x :: x in ks[..i] ==> x in k.packets
      invariant list == Lookup(k.packets, ks[..i])
    {
      assert ks[i] in ks;
      LookupSnoc(k.packets, ks, i);
      list := list + [k.packets[ks[i]]];
      i := i + 1;
    }
    assert ks[..i] == ks;
  }

  method InitGenesis(k: Keeper, ps: seq<RollappPacket>) returns (ok: bool)
    modifies k`packets, k`index
    ensures ok <==> Import(Loaded(old(k.packets), old(k.index)), ps).Some?
    ensures ok ==> Loaded(k.packets, k.index) == Import(Loaded(old(k.packets), old(k.index)), ps).value
  {
    hide KeyOf;
    ghost var g0 := Loaded(k.packets, k.index);
    var i := 0;
    while i < |ps|
      invariant 0 <= i <= |ps|
      invariant Import(Loaded(k.packets, k.index), ps[i..]) == Import(g0, ps)
    {
      assert ps[i..][1..] == ps[i + 1..] && ps[i..][0] == ps[i];
      if !ps[i].packet.data.Parses() { return false; }
      var x := ps[i].packet.data.transfer;
      match ps[i].ptype {
        case OnRecv => k.index := k.index + {(x.receiver, KeyOf(ps[i]))};
        case OnAck => k.index := k.index + {(x.sender, KeyOf(ps[i]))};
        case OnTimeout => k.index := k.index + {(x.sender, KeyOf(ps[i]))};
        case Undefined => return false;
      }
      k.packets := k.packets[KeyOf(ps[i]) := ps[i]];
      i := i + 1;
    }
    ok := true;
  }

  /** Every packet leaves with an export, in key order. */
  lemma ExportIsComplete(m: Store)
    requires Keyed(m)
    ensures Elements(AllKeys(m)) == m.Keys
  {
    forall k | k in m ensures k in AllKeys(m) {
      KeyUnderAllPrefix(m[k]);
      PrefixEndIsExact(ALL_PREFIX, k);
      hide KeyOf;
    }
  }

  /** One entry for every stored packet, whatever its status. */
  function FullIndex(m: Store): (ix: set<Entry>)
    requires forall k :: k in m ==> m[k].packet.data.Parses()
  {
    set k | k in m :: (PayeeOf(m[k]), k)
  }

  lemma InFullIndex(m: Store, e: Entry)
    requires forall k :: k in m ==> m[k].packet.data.Parses()
    ensures e in FullIndex(m) <==> e.1 in m && PayeeOf(m[e.1]) == e.0
  {
    assert e == (e.0, e.1);
  }

  predicate AllImportable(m: Store) { forall k :: k in m ==> Importable(m[k]) }

  function Part(m: Store, ks: seq<bytes>): (part: Store)
    requires forall k :: k in ks ==> k in m
    ensures forall k :: k in part <==> k in ks
    ensures forall k :: k in ks ==> part[k] == m[k]
  {
    map k | k in ks :: m[k]
  }

  lemma PartSplit(m: Store, ks: seq<bytes>, g: Store)
    requires ks != [] && forall k :: k in ks ==> k in m
    ensures forall k :: k in ks[1..] ==> k in m
    ensures g[ks[0] := m[ks[0]]] + Part(m, ks[1..]) == g + Part(m, ks)
    ensures Part(m, ks) == Part(m, ks[1..])[ks[0] := m[ks[0]]]
  {
    assert forall k :: k in ks <==> k == ks[0] || k in ks[1..];
    hide Part;
    var all, rest := Part(m, ks), Part(m, ks[1..]);
  }

  lemma IndexSplit(part: Store, rest: Store, k: bytes, p: RollappPacket)
    requires AllImportable(part) && AllImportable(rest) && part == rest[k := p] && (k in rest ==> rest[k] == p)
    ensures p.packet.data.Parses() && FullIndex(part) == {(PayeeOf(p), k)} + FullIndex(rest)
  {
    hide PayeeOf, FullIndex;
    assert part[k] == p && Importable(part[k]);
    forall e: Entry ensures e in FullIndex(part) <==> e == (PayeeOf(p), k) || e in FullIndex(rest) {
      InFullIndex(part, e);
      InFullIndex(rest, e);
    }
  }

  lemma NothingToLoad(m: Store, g: Loaded)
    requires AllImportable(m)
    ensures Lookup(m, []) == [] && g.packets + Part(m, []) == g.packets && g.index + FullIndex(Part(m, [])) == g.index
  {
  }

  lemma {:induction false} ImportLoads(m: Store, ks: seq<bytes>, g: Loaded)
    requires Keyed(m) && AllImportable(m) && forall k :: k in ks ==> k in m
    ensures Import(g, Lookup(m, ks)) == Some(Loaded(g.packets + Part(m, ks), g.index + FullIndex(Part(m, ks))))
    decreases |ks|
  {
    hide KeyOf, PayeeOf, FullIndex, Part, Lookup;
    if ks == [] {
      NothingToLoad(m, g);
    } else {
      assert KeyOf(m[ks[0]]) == ks[0];
      PartSplit(m, ks, g.packets);
      IndexSplit(Part(m, ks), Part(m, ks[1..]), ks[0], m[ks[0]]);
      var x := {(PayeeOf(m[ks[0]]), ks[0])};
      ImportLoads(m, ks[1..], Load(g, m[ks[0]]));
      assert Lookup(m, ks)[0] == m[ks[0]] && Lookup(m, ks)[1..] == Lookup(m, ks[1..]);
      assert g.index + x + FullIndex(Part(m, ks[1..])) == g.index + (x + FullIndex(Part(m, ks[1..])));
    }
  }

  /** Importing an export gives back the same packets, and an index with one entry for each of them. */
  lemma ExportImport(m: Store)
    requires Keyed(m) && AllImportable(m)
    ensures Import(Loaded(map[], {}), Export(m)) == Some(Loaded(m, FullIndex(m)))
  {
    hide KeyOf, AllKeys, FullIndex, Import;
    ExportIsComplete(m);
    ImportLoads(m, AllKeys(m), Loaded(map[], {}));
    assert forall k :: k in AllKeys(m) <==> k in Elements(AllKeys(m));
    assert Part(m, AllKeys(m)) == m;
    assert map[] + m == m && {} + FullIndex(m) == FullIndex(m);
  }

  /** An import panics if and only if some packet has no type or no readable transfer. */
  lemma {:induction false} ImportPanics(g: Loaded, ps: seq<RollappPacket>)
    ensures Import(g, ps).None? <==> exists i :: 0 <= i < |ps| && !Importable(ps[i])
    decreases |ps|
  {
    hide KeyOf, Importable;
    if ps != [] && Importable(ps[0]) {
      ImportPanics(Load(g, ps[0]), ps[1..]);
      assert forall i :: 0 <= i < |ps| - 1 ==> ps[1..][i] == ps[i + 1];
    }
  }

  /** A run's packets can always be exported and imported again. */
  lemma RunSurvivesGenesis(env: Env, steps: seq<Step>)
    requires ValidEnv(env)
    ensures var m := Run(env, steps).packets;
            && AllImportable(m)
            && Import(Loaded(map[], {}), Export(m)) == Some(Loaded(m, FullIndex(m)))
  {
    hide Run, KeyOf, Import;
    RunKeepsInv(env, steps);
    ExportImport(Run(env, steps).packets);
  }

  /** What an import does to the index: stale entries do not come back, and the finalized packets come back listed. */
  lemma ImportedIndex(s: State)
    requires AllImportable(s.packets) && Indexed(s.packets, s.index)
    ensures var done := set k | k in s.packets && s.packets[k].status == Finalized :: (PayeeOf(s.packets[k]), k);
            FullIndex(s.packets) == s.index - Stale(s) + done
  {
    var final := set k | k in s.packets && s.packets[k].status == Finalized :: (PayeeOf(s.packets[k]), k);
    hide PayeeOf, FullIndex;
    forall e: Entry ensures e in FullIndex(s.packets) <==> e in s.index - Stale(s) + final {
      InFullIndex(s.packets, e);
      assert e == (e.0, e.1);
    }
  }

  /** After an import a query by address never fails, and lists every packet that pays the address. */
  lemma QueryAfterImport(s: State, a: Text)
    requires AllImportable(s.packets) && s.index == FullIndex(s.packets)
    ensures QueryByAddress(s, a).Some?
    ensures forall k :: k in Listed(s, a) <==> k in s.packets && PayeeOf(s.packets[k]) == a
  {
    hide PayeeOf;
    forall k | k in s.packets && PayeeOf(s.packets[k]) == a ensures k in Listed(s, a) {
      assert (a, k) in s.index;
    }
  }

  /** It answers with the pending packets that pay the address if and only if no finalized packet pays it. */
  lemma QueryAfterImportIsExact(s: State, a: Text)
    requires Keyed(s.packets) && AllImportable(s.packets) && s.index == FullIndex(s.packets)
    ensures QueryByAddress(s, a) == Some(PendingFor(s, a)) <==>
              forall k :: k in s.packets && s.packets[k].status == Finalized ==> PayeeOf(s.packets[k]) != a
  {
    hide PayeeOf, KeyOf, FullIndex, Listed, PaysTo, QueryByAddress, Keys, Lookup;
    QueryAfterImport(s, a);
    PaysToStored(s, a);
    PaysToAre(s, a);
    AnswerIs(s, a);
    assert (forall k :: k in Listed(s, a) <==> k in PaysTo(s, a)) ==> Listed(s, a) == PaysTo(s, a);
    if QueryByAddress(s, a) == Some(PendingFor(s, a)) {
      LookupInjective(s.packets, Keys(Listed(s, a)), Keys(PaysTo(s, a)));
      assert forall k :: k in Listed(s, a) <==> k in PaysTo(s, a);
    }
  }

  lemma AnswerIs(s: State, a: Text)
    requires forall k :: k in Listed(s, a) ==> k in s.packets
    ensures QueryByAddress(s, a) == Some(Lookup(s.packets, Keys(Listed(s, a))))
  {
    hide Listed;
  }

  lemma PaysToAre(s: State, a: Text)
    requires AllImportable(s.packets)
    ensures forall k :: k in PaysTo(s, a) <==>
              k in s.packets && s.packets[k].status == Pending && PayeeOf(s.packets[k]) == a
  {
  }

  /** Deleting a packet keeps the imported index exact. */
  lemma DeleteAfterImport(s: State, k: bytes)
    requires Keyed(s.packets) && AllImportable(s.packets) && s.index == FullIndex(s.packets) && k in s.packets
    ensures var t := Delete(s, s.packets[k]); AllImportable(t.packets) && t.index == FullIndex(t.packets)
  {
    hide KeyOf, FullIndex;
    var t := Delete(s, s.packets[k]);
    assert KeyOf(s.packets[k]) == k;
    forall e: Entry ensures e in t.index <==> e in FullIndex(t.packets) {
      InFullIndex(s.packets, e);
      InFullIndex(t.packets, e);
    }
  }
}
