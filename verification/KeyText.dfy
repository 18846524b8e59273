/** Packet keys as text: base64, and the decoder that cuts trailing zero bytes. */
module KeyText {
  import opened Bytes
  import opened Base64
  import opened Packets
  import opened PacketKey
  import opened Hub
  import opened HubInvariant
  import opened HubRuns
  import opened KeeperModel

  /** bytes.TrimRight of zero bytes. */
  function TrimZeros(k: bytes): (r: bytes)
    ensures r <= k
    ensures r != [] ==> r[|r| - 1] != 0
    ensures k != [] && k[|k| - 1] != 0 ==> r == k
  {
    if k != [] && k[|k| - 1] == 0 then TrimZeros(k[..|k| - 1]) else k
  }

  function Zeros(n: nat): (z: bytes)
    ensures |z| == n
  {
    seq(n, i => 0)
  }

  /** DecodePacketKey: decoded into a buffer of DecodedLen, then trimmed. */
  function DecodePacketKey(t: Text): (k: Option<bytes>) {
    DecodedFits(t);
    var d := Decode(t);
    if d.None? then None else Some(TrimZeros(d.value + Zeros(|t| / 4 * 3 - |d.value|)))
  }

  // ---------------------------------------------------------------- reading keys back

  lemma {:induction false} StripLength(t: Text)
    ensures |Strip(t)| <= |t|
  {
    if t != [] { StripLength(t[1..]); }
  }

  lemma {:induction false} GroupsFit(t: Text)
    ensures DecodeGroups(t).Some? ==> |DecodeGroups(t).value| <= |t| / 4 * 3
  {
    hide Val, Byte0, Byte1, Byte2;
    if |t| >= 4 {
      GroupsFit(t[4..]);
      assert |t| / 4 == 1 + |t[4..]| / 4;
    }
  }

  lemma DecodedFits(t: Text)
    ensures Decode(t).Some? ==> |Decode(t).value| <= |t| / 4 * 3
  {
    StripLength(t);
    GroupsFit(Strip(t));
  }

  lemma {:induction false} TrimPadded(k: bytes, n: nat)
    ensures TrimZeros(k + Zeros(n)) == TrimZeros(k)
  {
    if n > 0 {
      var x := k + Zeros(n);
      assert x[|x| - 1] == 0 && x[..|x| - 1] == k + Zeros(n - 1);
      TrimPadded(k, n - 1);
    } else {
      assert k + Zeros(n) == k;
    }
  }

  /** Reading a key back gives the key without its trailing zero bytes. */
  lemma KeyTextRoundTrip(k: bytes)
    ensures DecodePacketKey(Encode(k)) == Some(TrimZeros(k))
  {
    DecodeEncode(k);
    DecodedFits(Encode(k));
    TrimPadded(k, |Encode(k)| / 4 * 3 - |k|);
  }

  // ---------------------------------------------------------------- packet keys

  lemma LastKeyByte(p: RollappPacket)
    ensures KeyOf(p) != [] && KeyOf(p)[|KeyOf(p)| - 1] == p.packet.sequence % 256
  {
    KeyUnderAllPrefix(p);
    var k := KeyOf(p);
    assert k[|k| - 1] == k[|k| - 8..][7];
    hide KeyOf;
    assert Uint64ToBigEndian(p.packet.sequence)[7] == p.packet.sequence % 256;
  }

  /** A packet's key can be written as text, in the encoder's form or in any other, if and only if the low byte of
      its sequence is not zero. */
  lemma TextReachesKey(p: RollappPacket)
    ensures DecodePacketKey(Encode(KeyOf(p))) == Some(KeyOf(p)) <==> p.packet.sequence % 256 != 0
    ensures (exists t: Text :: DecodePacketKey(t) == Some(KeyOf(p))) <==> p.packet.sequence % 256 != 0
  {
    hide KeyOf, Encode;
    LastKeyByte(p);
    KeyTextRoundTrip(KeyOf(p));
    if p.packet.sequence % 256 != 0 {
      assert DecodePacketKey(Encode(KeyOf(p))) == Some(KeyOf(p));
    }
  }

  /** Packet 256 of a channel is such a packet. */
  lemma UnreachableKey(p: RollappPacket, t: Text)
    requires p.packet.sequence == 256
    ensures DecodePacketKey(t) != Some(KeyOf(p))
  {
    hide KeyOf;
    TextReachesKey(p);
  }

  /** MsgFinalizePacketByPacketKey: undecodable text is refused. */
  method FinalizePacketByPacketKey(k: Keeper, text: Text, v: Verdict)
    modifies k
    ensures k.View() == if text == [] || DecodePacketKey(text).None? then old(k.View())
                        else Apply(k.env, old(k.View()), FinalizeStep(DecodePacketKey(text).value, v))
  {
    hide Apply, DecodePacketKey;
    if |text| == 0 { return; }
    var key := DecodePacketKey(text);
    if key.None? { return; }
    k.FinalizeRollappPacket(key.value, v);
  }

  /** MsgFinalizePacket names the packet by its fields. */
  method FinalizePacket(k: Keeper, r: Text, h: u64, t: PacketType, chan: Text, seqn: u64, v: Verdict)
    modifies k
    ensures k.View() == if r == [] || chan == [] then old(k.View())
                        else Apply(k.env, old(k.View()), FinalizeStep(Key(Pending, r, h, t, chan, seqn), v))
  {
    hide Apply, Key;
    if |r| == 0 || |chan| == 0 { return; }
    k.FinalizeRollappPacket(Key(Pending, r, h, t, chan, seqn), v);
  }

  /** Fields name at most one stored packet, and reach it whatever its sequence. */
  lemma FieldsReachPacket(env: Env, s: State, k: bytes, r: Text, h: u64, t: PacketType, chan: Text, seqn: u64)
    requires ValidEnv(env) && Inv(env, s) && k in s.packets && SlashFree(r)
    ensures Key(Pending, r, h, t, chan, seqn) == k <==>
              var p := s.packets[k];
              p.status == Pending && p.rollappId == r && p.proofHeight == h && p.ptype == t
                && p.packet.srcChan == chan && p.packet.sequence == seqn
  {
    hide Inv;
    StoredFacts(env, s, k);
    var p := s.packets[k];
    if Key(Pending, r, h, t, chan, seqn) == k {
      KeyInjective(Pending, r, h, t, chan, seqn, p.status, p.rollappId, p.proofHeight, p.ptype, p.packet.srcChan,
        p.packet.sequence);
    }
  }

  // ---------------------------------------------------------------- demand orders in genesis

  /** ExportGenesis and InitGenesis of eIBC on a tracking key; None is a panic. */
  function ExportKey(k: bytes): (t: Text) { if k == [] then [] else Encode(k) }

  function ImportKey(t: Text): (k: Option<bytes>) { if t == [] then Some([]) else Decode(t) }

  method ExportOrders(orders: seq<Order>) returns (out: seq<Order>)
    ensures |out| == |orders|
    ensures forall i :: 0 <= i < |orders| ==> out[i] == orders[i].(trackingKey := ExportKey(orders[i].trackingKey))
  {
    hide Encode;
    out := [];
    for i := 0 to |orders|
      invariant |out| == i
      invariant forall j :: 0 <= j < i ==> out[j] == orders[j].(trackingKey := ExportKey(orders[j].trackingKey))
    {
      var o := orders[i];
      if o.trackingKey != [] { o := o.(trackingKey := Encode(o.trackingKey)); }
      out := out + [o];
    }
  }

  function ImportOrders(orders: seq<Order>): (r: Option<seq<Order>>) {
    if orders == [] then Some([]) else
    var k, rest := ImportKey(orders[0].trackingKey), ImportOrders(orders[1..]);
    if k.None? || rest.None? then None else Some([orders[0].(trackingKey := k.value)] + rest.value)
  }

  lemma KeyRoundTrip(k: bytes)
    ensures ImportKey(ExportKey(k)) == Some(k)
  {
    if k != [] {
      DecodeEncode(k);
      assert Encode(k) != [];
    }
  }

  /** Orders come back from an export with the very keys they left with, trailing zero bytes included. */
  lemma {:induction false} OrdersRoundTrip(orders: seq<Order>, out: seq<Order>)
    requires |out| == |orders|
    requires forall i :: 0 <= i < |orders| ==> out[i] == orders[i].(trackingKey := ExportKey(orders[i].trackingKey))
    ensures ImportOrders(out) == Some(orders)
  {
    hide ExportKey, ImportKey;
    if orders != [] {
      KeyRoundTrip(orders[0].trackingKey);
      OrdersRoundTrip(orders[1..], out[1..]);
      assert orders == [orders[0]] + orders[1..];
    }
  }
}
