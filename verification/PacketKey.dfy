/** The byte key of a rollapp packet: status/rollappID/proofHeight/type/sourceChannel/sequence, with the
    height and the sequence as raw big-endian words that may themselves contain the separator. */
module PacketKey {
  import opened Bytes
  import opened Packets

  const PENDING_PREFIX: bytes := [0x00, 0x01]
  const FINALIZED_PREFIX: bytes := [0x00, 0x02]
  const ALL_PREFIX: bytes := [0x00]

  function StatusBytes(s: Status): (r: bytes)
    ensures |r| == 2
  {
    match s
    case Pending => PENDING_PREFIX
    case Finalized => FINALIZED_PREFIX
  }

  predicate SlashFree(s: bytes) { SLASH !in s }

  /** The enum names ON_RECV, ON_ACK, ON_TIMEOUT and UNDEFINED. */
  function TypeName(t: PacketType): (r: bytes)
    ensures SlashFree(r)
  {
    match t
    case OnRecv => [0x4f, 0x4e, 0x5f, 0x52, 0x45, 0x43, 0x56]
    case OnAck => [0x4f, 0x4e, 0x5f, 0x41, 0x43, 0x4b]
    case OnTimeout => [0x4f, 0x4e, 0x5f, 0x54, 0x49, 0x4d, 0x45, 0x4f, 0x55, 0x54]
    case Undefined => [0x55, 0x4e, 0x44, 0x45, 0x46, 0x49, 0x4e, 0x45, 0x44]
  }

  function StatusPrefix(s: Status): bytes { StatusBytes(s) + [SLASH] }

  function RollappPrefix(s: Status, r: Text): bytes { StatusPrefix(s) + (r + [SLASH]) }

  function HeightPrefix(s: Status, r: Text, h: u64): bytes { RollappPrefix(s, r) + Uint64ToBigEndian(h) }

  /** What follows the height in a key. */
  function Suffix(name: bytes, chan: Text, seqn: u64): bytes {
    [SLASH] + name + [SLASH] + chan + [SLASH] + Uint64ToBigEndian(seqn)
  }

  function Key(s: Status, r: Text, h: u64, t: PacketType, chan: Text, seqn: u64): (k: bytes) {
    HeightPrefix(s, r, h) + Suffix(TypeName(t), chan, seqn)
  }

  function KeyOf(p: RollappPacket): (k: bytes) {
    Key(p.status, p.rollappId, p.proofHeight, p.ptype, p.packet.srcChan, p.packet.sequence)
  }

  /** A change of payee is none of key. */
  lemma RedirectKeepsKey(p: RollappPacket, to: Text)
    requires p.packet.data.Parses()
    ensures KeyOf(Redirect(p, to)) == KeyOf(p) && KeyOf(Restore(p)) == KeyOf(p)
  {
  }

  function Ascii(s: string): (r: bytes)
    requires forall i :: 0 <= i < |s| ==> s[i] as int < 128
    ensures |r| == |s| && forall i :: 0 <= i < |s| ==> r[i] == s[i] as int
  {
    seq(|s|, i requires 0 <= i < |s| => s[i] as int)
  }

  function EnumName(t: PacketType): string {
    match t
    case OnRecv => "ON_RECV"
    case OnAck => "ON_ACK"
    case OnTimeout => "ON_TIMEOUT"
    case Undefined => "UNDEFINED"
  }

  lemma TypeNameIs(t: PacketType)
    ensures (forall i :: 0 <= i < |EnumName(t)| ==> EnumName(t)[i] as int < 128) && TypeName(t) == Ascii(EnumName(t))
  {
  }

  /** What a key is made of: 0x00 and the status, and behind slashes the rollapp id, the height, the name of the type,
      the source channel and the sequence. */
  lemma KeyLayout(p: RollappPacket)
    ensures (forall i :: 0 <= i < |EnumName(p.ptype)| ==> EnumName(p.ptype)[i] as int < 128)
    ensures var slash := ['/' as int];
            KeyOf(p) == [0, if p.status == Pending then 1 else 2] + slash + p.rollappId + slash
                        + Uint64ToBigEndian(p.proofHeight) + slash + Ascii(EnumName(p.ptype)) + slash
                        + p.packet.srcChan + slash + Uint64ToBigEndian(p.packet.sequence)
  {
    hide Uint64ToBigEndian, TypeName, EnumName, Ascii;
    TypeNameIs(p.ptype);
    Join(StatusBytes(p.status), p.rollappId, Uint64ToBigEndian(p.proofHeight), TypeName(p.ptype), p.packet.srcChan,
      Uint64ToBigEndian(p.packet.sequence));
  }

  lemma Join(a: bytes, r: bytes, h: bytes, t: bytes, c: bytes, n: bytes)
    ensures a + [SLASH] + (r + [SLASH]) + h + ([SLASH] + t + [SLASH] + c + [SLASH] + n) ==
              a + [SLASH] + r + [SLASH] + h + [SLASH] + t + [SLASH] + c + [SLASH] + n
  {
  }

  lemma TypeNameInjective(t1: PacketType, t2: PacketType)
    requires TypeName(t1) == TypeName(t2)
    ensures t1 == t2
  {
    assert |TypeName(OnRecv)| == 7 && |TypeName(OnAck)| == 6 && |TypeName(OnTimeout)| == 10
      && |TypeName(Undefined)| == 9;
  }

  lemma SuffixInjective(x1: bytes, c1: Text, n1: u64, x2: bytes, c2: Text, n2: u64)
    requires SlashFree(x1) && SlashFree(x2)
    requires Suffix(x1, c1, n1) == Suffix(x2, c2, n2)
    ensures x1 == x2 && c1 == c2 && n1 == n2
  {
    var w1, w2 := Uint64ToBigEndian(n1), Uint64ToBigEndian(n2);
    var a, b := c1 + [SLASH] + w1, c2 + [SLASH] + w2;
    assert Suffix(x1, c1, n1)[1..] == x1 + [SLASH] + a;
    assert Suffix(x2, c2, n2)[1..] == x2 + [SLASH] + b;
    SplitFirst(SLASH, x1, x2, a, b);
    assert |c1| == |a| - 9 == |c2|;
    assert c1 == a[..|c1|] && c2 == b[..|c2|];
    assert w1 == a[|c1| + 1..] && w2 == b[|c2| + 1..];
    Uint64Order(n1, n2);
  }

  /** What a key starts with names its status. */
  lemma StatusPrefixIsExact(s: Status, s2: Status, rest: bytes)
    ensures StatusPrefix(s) <= StatusPrefix(s2) + rest <==> s == s2
  {
    assert StatusBytes(s)[1] == StatusPrefix(s)[1];
    assert (StatusPrefix(s2) + rest)[1] == StatusBytes(s2)[1];
  }

  /** ... and its rollapp, as long as rollapp ids hold no separator. */
  lemma RollappPrefixIsExact(s: Status, r: Text, s2: Status, r2: Text, rest: bytes)
    requires SlashFree(r) && SlashFree(r2)
    ensures RollappPrefix(s, r) <= RollappPrefix(s2, r2) + rest <==> s == s2 && r == r2
  {
    var k := RollappPrefix(s2, r2) + rest;
    assert k == StatusPrefix(s2) + (r2 + [SLASH] + rest);
    if RollappPrefix(s, r) <= k {
      var tail := k[|RollappPrefix(s, r)|..];
      assert k == StatusPrefix(s) + (r + [SLASH] + tail);
      StatusPrefixIsExact(s, s2, r2 + [SLASH] + rest);
      assert r + [SLASH] + tail == k[3..] == r2 + [SLASH] + rest;
      SplitFirst(SLASH, r, r2, tail, rest);
    }
  }

  /** Distinct packets have distinct keys. */
  lemma KeyInjective(s1: Status, r1: Text, h1: u64, t1: PacketType, c1: Text, n1: u64,
                     s2: Status, r2: Text, h2: u64, t2: PacketType, c2: Text, n2: u64)
    requires SlashFree(r1) && SlashFree(r2)
    requires Key(s1, r1, h1, t1, c1, n1) == Key(s2, r2, h2, t2, c2, n2)
    ensures s1 == s2 && r1 == r2 && h1 == h2 && t1 == t2 && c1 == c2 && n1 == n2
  {
    hide Key, RollappPrefix, Suffix, TypeName, Uint64ToBigEndian;
    var rest1 := Uint64ToBigEndian(h1) + Suffix(TypeName(t1), c1, n1);
    var rest2 := Uint64ToBigEndian(h2) + Suffix(TypeName(t2), c2, n2);
    KeyParts(s1, r1, h1, t1, c1, n1);
    KeyParts(s2, r2, h2, t2, c2, n2);
    RollappPrefixIsExact(s1, r1, s2, r2, rest2);
    Cancel(RollappPrefix(s1, r1), rest1, RollappPrefix(s2, r2), rest2);
    Cancel(Uint64ToBigEndian(h1), Suffix(TypeName(t1), c1, n1), Uint64ToBigEndian(h2), Suffix(TypeName(t2), c2, n2));
    Uint64Order(h1, h2);
    SuffixInjective(TypeName(t1), c1, n1, TypeName(t2), c2, n2);
    TypeNameInjective(t1, t2);
  }

  lemma KeyParts(s: Status, r: Text, h: u64, t: PacketType, chan: Text, seqn: u64)
    ensures Key(s, r, h, t, chan, seqn) == RollappPrefix(s, r)
            + (Uint64ToBigEndian(h) + Suffix(TypeName(t), chan, seqn))
  {
    hide Suffix, TypeName, RollappPrefix, Uint64ToBigEndian;
  }

  /** A separator-free word at the front of another text with its separator is that text's word. */
  lemma SplitPrefix(x: bytes, a: bytes, y: bytes, b: bytes)
    requires SlashFree(x) && SlashFree(y) && x + [SLASH] + a <= y + [SLASH] + b
    ensures x == y && a <= b
  {
    var u, v := x + [SLASH] + a, y + [SLASH] + b;
    var tail := v[|u|..];
    assert v == x + [SLASH] + (a + tail);
    SplitFirst(SLASH, x, y, a + tail, b);
  }

  lemma SuffixPrefixFree(x1: bytes, c1: Text, n1: u64, x2: bytes, c2: Text, n2: u64)
    requires SlashFree(x1) && SlashFree(x2) && SlashFree(c1) && SlashFree(c2)
    requires Suffix(x1, c1, n1) <= Suffix(x2, c2, n2)
    ensures Suffix(x1, c1, n1) == Suffix(x2, c2, n2)
  {
    var w1, w2 := Uint64ToBigEndian(n1), Uint64ToBigEndian(n2);
    hide Uint64ToBigEndian;
    var a, b := c1 + [SLASH] + w1, c2 + [SLASH] + w2;
    assert Suffix(x1, c1, n1)[1..] == x1 + [SLASH] + a;
    assert Suffix(x2, c2, n2)[1..] == x2 + [SLASH] + b;
    SplitPrefix(x1, a, x2, b);
    SplitPrefix(c1, w1, c2, w2);
  }

  /** With separator-free rollapp and channel ids no key extends another. */
  lemma KeysArePrefixFree(p: RollappPacket, q: RollappPacket)
    requires SlashFree(p.rollappId) && SlashFree(q.rollappId) && SlashFree(p.packet.srcChan)
             && SlashFree(q.packet.srcChan)
    requires KeyOf(p) <= KeyOf(q)
    ensures KeyOf(p) == KeyOf(q)
  {
    hide Key, RollappPrefix, Suffix, TypeName, Uint64ToBigEndian;
    var h1, h2 := Uint64ToBigEndian(p.proofHeight), Uint64ToBigEndian(q.proofHeight);
    var s1 := Suffix(TypeName(p.ptype), p.packet.srcChan, p.packet.sequence);
    var s2 := Suffix(TypeName(q.ptype), q.packet.srcChan, q.packet.sequence);
    KeyParts(p.status, p.rollappId, p.proofHeight, p.ptype, p.packet.srcChan, p.packet.sequence);
    KeyParts(q.status, q.rollappId, q.proofHeight, q.ptype, q.packet.srcChan, q.packet.sequence);
    var r1, r2 := RollappPrefix(p.status, p.rollappId), RollappPrefix(q.status, q.rollappId);
    var tail := KeyOf(q)[|KeyOf(p)|..];
    assert KeyOf(q) == KeyOf(p) + tail && KeyOf(p) + tail == r1 + (h1 + s1 + tail);
    assert r1 <= r2 + (h2 + s2);
    RollappPrefixIsExact(p.status, p.rollappId, q.status, q.rollappId, h2 + s2);
    Cancel(r1, h1 + s1 + tail, r2, h2 + s2);
    assert h1 + s1 + tail == h1 + (s1 + tail);
    Cancel(h1, s1 + tail, h2, s2);
    SuffixPrefixFree(TypeName(p.ptype), p.packet.srcChan, p.packet.sequence, TypeName(q.ptype), q.packet.srcChan,
      q.packet.sequence);
  }

  lemma KeyOfInjective(p: RollappPacket, q: RollappPacket)
    requires SlashFree(p.rollappId) && SlashFree(q.rollappId)
    requires KeyOf(p) == KeyOf(q)
    ensures p.status == q.status && p.rollappId == q.rollappId && p.proofHeight == q.proofHeight
    ensures p.ptype == q.ptype && p.packet.srcChan == q.packet.srcChan && p.packet.sequence == q.packet.sequence
  {
    KeyInjective(p.status, p.rollappId, p.proofHeight, p.ptype, p.packet.srcChan, p.packet.sequence,
                 q.status, q.rollappId, q.proofHeight, q.ptype, q.packet.srcChan, q.packet.sequence);
  }

  /** Without the restriction on ids two different packets can share a key. */
  lemma SlashedIdsCollide(s: Status, r: Text, h1: u64, h2: u64, t: PacketType, c: Text, n: u64)
    ensures Key(s, r, h1, t, Uint64ToBigEndian(h2) + ([SLASH] + TypeName(t) + [SLASH] + c), n)
         == Key(s, r + ([SLASH] + Uint64ToBigEndian(h1) + [SLASH] + TypeName(t)), h2, t, c, n)
    ensures r != r + ([SLASH] + Uint64ToBigEndian(h1) + [SLASH] + TypeName(t))
  {
    assert |r + ([SLASH] + Uint64ToBigEndian(h1) + [SLASH] + TypeName(t))| > |r|;
    Regroup(StatusPrefix(s), r, Uint64ToBigEndian(h1), Uint64ToBigEndian(h2), TypeName(t), c, Uint64ToBigEndian(n));
  }

  lemma Regroup(st: bytes, r: bytes, e: bytes, w: bytes, name: bytes, c: bytes, n: bytes)
    ensures st + (r + [SLASH]) + e + ([SLASH] + name + [SLASH] + (w + ([SLASH] + name + [SLASH] + c)) + [SLASH] + n)
         == st + (r + ([SLASH] + e + [SLASH] + name) + [SLASH]) + w + ([SLASH] + name + [SLASH] + c + [SLASH] + n)
  {
    var tail := [SLASH] + name + [SLASH] + c + [SLASH] + n;
    assert [SLASH] + name + [SLASH] + (w + ([SLASH] + name + [SLASH] + c)) + [SLASH] + n ==
      [SLASH] + name + [SLASH] + w + tail;
    assert st + (r + ([SLASH] + e + [SLASH] + name) + [SLASH]) + w ==
      st + (r + [SLASH]) + e + ([SLASH] + name + [SLASH] + w);
  }

  /** A range whose two ends share a prefix holds only keys with that prefix. */
  lemma {:induction false} RangeSharesPrefix(p: bytes, a: bytes, b: bytes, k: bytes)
    requires !Less(k, p + a) && Less(k, p + b)
    ensures p <= k
  {
    if p != [] {
      assert (p + a)[1..] == p[1..] + a && (p + b)[1..] == p[1..] + b;
      RangeSharesPrefix(p[1..], a, b, k[1..]);
      assert p == [p[0]] + p[1..] && k == [k[0]] + k[1..];
    }
  }

  /** A height range scan meets exactly the packets of that status, rollapp and height range. */
  lemma HeightRangeIsExact(s: Status, r: Text, lo: u64, hi: u64, p: RollappPacket)
    requires SlashFree(r) && SlashFree(p.rollappId)
    ensures InRange(KeyOf(p), HeightPrefix(s, r, lo), Some(HeightPrefix(s, r, hi)))
            <==> p.status == s && p.rollappId == r && lo <= p.proofHeight < hi
  {
    var k := KeyOf(p);
    var pre := RollappPrefix(s, r);
    var h := Uint64ToBigEndian(p.proofHeight);
    var suf := Suffix(TypeName(p.ptype), p.packet.srcChan, p.packet.sequence);
    assert k == RollappPrefix(p.status, p.rollappId) + (h + suf);
    RollappPrefixIsExact(s, r, p.status, p.rollappId, h + suf);
    if InRange(k, pre + Uint64ToBigEndian(lo), Some(pre + Uint64ToBigEndian(hi))) {
      RangeSharesPrefix(pre, Uint64ToBigEndian(lo), Uint64ToBigEndian(hi), k);
    }
    if p.status == s && p.rollappId == r {
      HeightBound(pre, p.proofHeight, suf, lo);
      HeightBound(pre, p.proofHeight, suf, hi);
    }
  }

  lemma HeightBound(pre: bytes, h: u64, suf: bytes, bound: u64)
    ensures Less(pre + (Uint64ToBigEndian(h) + suf), pre + Uint64ToBigEndian(bound)) <==> h < bound
  {
    var a, b := Uint64ToBigEndian(h), Uint64ToBigEndian(bound);
    LessCommonPrefix(pre, a + suf, b);
    LessSameLength(a, b, suf, []);
    assert b + [] == b;
    Uint64Order(h, bound);
  }

  /** Within one status and rollapp, key order follows proof height. */
  lemma KeyOrderFollowsHeight(p: RollappPacket, q: RollappPacket)
    requires p.status == q.status && p.rollappId == q.rollappId
    ensures p.proofHeight < q.proofHeight ==> Less(KeyOf(p), KeyOf(q))
  {
    var pre := RollappPrefix(p.status, p.rollappId);
    var a, b := Uint64ToBigEndian(p.proofHeight), Uint64ToBigEndian(q.proofHeight);
    var sp := Suffix(TypeName(p.ptype), p.packet.srcChan, p.packet.sequence);
    var sq := Suffix(TypeName(q.ptype), q.packet.srcChan, q.packet.sequence);
    assert KeyOf(p) == pre + (a + sp) && KeyOf(q) == pre + (b + sq);
    LessCommonPrefix(pre, a + sp, b + sq);
    LessSameLength(a, b, sp, sq);
    Uint64Order(p.proofHeight, q.proofHeight);
  }

  /** All packet keys lie under the one-byte prefix that separates them from the index and the parameters. */
  lemma KeyUnderAllPrefix(p: RollappPacket)
    ensures ALL_PREFIX <= KeyOf(p)
    ensures StatusPrefix(p.status) <= KeyOf(p)
    ensures |KeyOf(p)| >= 8 && KeyOf(p)[|KeyOf(p)| - 8..] == Uint64ToBigEndian(p.packet.sequence)
  {
    var k := KeyOf(p);
    assert k[0] == StatusBytes(p.status)[0] == 0;
  }
}
