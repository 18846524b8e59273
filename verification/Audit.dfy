/** The module's registered invariant check, as the keeper runs it over its store. */
module Audit {
  import opened Bytes
  import opened Packets
  import opened PacketKey
  import opened Hub
  import opened HubRuns
  import opened KeeperModel
  import Listing

  predicate FinalizedTooEarly(p: RollappPacket, latest: u64) { latest < p.proofHeight && p.status == Finalized }

  /** A rollapp's packets break the check; a rollapp without finalized states passes. */
  ghost predicate Breaks(s: State, r: Text) {
    var list := Listing.List(s.packets, Listing.OfRollapp(r), Listing.Bypass, 0);
    r in s.finalized && exists p :: p in list && FinalizedTooEarly(p, s.finalized[r])
  }

  /** checkRollapp: true is an error. */
  method CheckRollapp(k: Keeper, r: Text) returns (broken: bool)
    ensures broken <==> Breaks(k.View(), r)
  {
    if r !in k.finalized { return false; }
    var latest := k.finalized[r];
    var packets := k.ListRollappPackets(Listing.OfRollapp(r), Listing.Bypass, 0);
    hide Listing.List, Listing.OfRollapp;
    broken := false;
    var i := 0;
    while i < |packets|
      invariant 0 <= i <= |packets|
      invariant broken <==> exists j :: 0 <= j < i && FinalizedTooEarly(packets[j], latest)
    {
      if FinalizedTooEarly(packets[i], latest) { broken := true; }
      i := i + 1;
    }
  }

  /** InvariantProofHeight. */
  method InvariantProofHeight(k: Keeper, rollapps: seq<Text>) returns (broken: bool)
    ensures broken <==> exists r :: r in rollapps && Breaks(k.View(), r)
  {
    hide Breaks;
    broken := false;
    var i := 0;
    while i < |rollapps|
      invariant 0 <= i <= |rollapps|
      invariant broken <==> exists r :: r in rollapps[..i] && Breaks(k.View(), r)
    {
      assert rollapps[..i + 1] == rollapps[..i] + [rollapps[i]];
      var bad := CheckRollapp(k, rollapps[i]);
      if bad { broken := true; }
      i := i + 1;
    }
    assert rollapps[..i] == rollapps;
  }

  /** The packet stored under a key is finalized above its rollapp's finalized height. */
  ghost predicate StoredTooEarly(s: State, r: Text, k: bytes)
    requires r in s.finalized
  {
    && k in s.packets && s.packets[k].rollappId == r
    && s.packets[k].status == Finalized && s.packets[k].proofHeight > s.finalized[r]
  }

  /** The check finds exactly the rollapps that have a packet finalized above their finalized height. */
  lemma BreaksIsExact(s: State, r: Text)
    requires Listing.Sound(s.packets) && SlashFree(r)
    ensures Breaks(s, r) <==> r in s.finalized && exists k :: StoredTooEarly(s, r, k)
  {
    hide Listing.List, KeyOf, Listing.OfRollapp;
    var list := Listing.List(s.packets, Listing.OfRollapp(r), Listing.Bypass, 0);
    if Breaks(s, r) {
      var p :| p in list && FinalizedTooEarly(p, s.finalized[r]);
      Listing.OfRollappIsExact(s.packets, r, p);
      assert StoredTooEarly(s, r, KeyOf(p));
    }
    if r in s.finalized && exists k :: StoredTooEarly(s, r, k) {
      var k :| StoredTooEarly(s, r, k);
      Listing.OfRollappIsExact(s.packets, r, s.packets[k]);
      assert KeyOf(s.packets[k]) == k;
    }
  }

  /** The check never fails, on any run. */
  lemma NeverBroken(env: Env, steps: seq<Step>, r: Text)
    requires ValidEnv(env) && SlashFree(r)
    ensures !Breaks(Run(env, steps), r)
  {
    hide Run, Breaks;
    RunKeepsInv(env, steps);
    Listing.InvIsSound(env, Run(env, steps));
    BreaksIsExact(Run(env, steps), r);
  }
}
