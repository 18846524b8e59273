/** The proof height of a packet message, handed from the ante handler to the middleware through the context under a
    textual packet id. */
module ProofHeights {
  import opened Bytes
  import opened Packets
  import opened PacketKey
  import opened Hub
  import opened Ante

  const DASH: byte := 45

  predicate DashFree(s: Text) { DASH !in s }

  function Decimal(n: nat): (s: Text)
    ensures s != [] && DashFree(s)
  {
    if n < 10 then [48 + n] else Decimal(n / 10) + [48 + n % 10]
  }

  datatype PacketUID = PacketUID(ptype: PacketType, at: Endpoint, seqn: u64)

  function UidOf(t: PacketType, p: Packet): PacketUID { PacketUID(t, HubEnd(t, p), p.sequence) }

  /** PacketUID.String: type-channel-port-sequence. */
  function UidText(u: PacketUID): (s: Text) {
    TypeName(u.ptype) + [DASH] + u.at.chan + [DASH] + u.at.port + [DASH] + Decimal(u.seqn)
  }

  /** The number decimal digits spell. */
  function ReadDecimal(s: Text): (n: int) {
    if s == [] then 0 else 10 * ReadDecimal(s[..|s| - 1]) + s[|s| - 1] - '0' as int
  }

  lemma {:induction false} DecimalReads(n: nat)
    ensures ReadDecimal(Decimal(n)) == n
    ensures forall i :: 0 <= i < |Decimal(n)| ==> '0' as int <= Decimal(n)[i] <= '9' as int
    ensures n > 0 ==> Decimal(n)[0] != '0' as int
  {
    var s := Decimal(n);
    if n >= 10 {
      DecimalReads(n / 10);
      assert s[..|s| - 1] == Decimal(n / 10);
    } else {
      assert s[..0] == [];
    }
  }

  /** A packet's id reads like ON_RECV-channel-0-transfer-7, with the hub's channel and port: the destination of a
      received packet, and the source of any other. */
  lemma UidLayout(t: PacketType, p: Packet)
    requires t != Undefined
    ensures forall i :: 0 <= i < |EnumName(t)| ==> EnumName(t)[i] as int < 128
    ensures exists digits ::
              && UidText(UidOf(t, p)) ==
                   Ascii(EnumName(t)) + ['-' as int] + (if t == OnRecv then p.dstChan else p.srcChan) + ['-' as int]
                   + (if t == OnRecv then p.dstPort else p.srcPort) + ['-' as int] + digits
              && ReadDecimal(digits) == p.sequence && digits != [] && (p.sequence > 0 ==> digits[0] != '0' as int)
              && forall i :: 0 <= i < |digits| ==> '0' as int <= digits[i] <= '9' as int
  {
    hide EnumName, TypeName, Ascii, Decimal, ReadDecimal;
    TypeNameIs(t);
    DecimalReads(p.sequence);
    var digits := Decimal(p.sequence);
    assert ReadDecimal(digits) == p.sequence;
  }

  // ---------------------------------------------------------------- ids do not collide

  lemma {:induction false} DecimalInjective(a: nat, b: nat)
    requires Decimal(a) == Decimal(b)
    ensures a == b
  {
    var x, y := Decimal(a), Decimal(b);
    assert x[|x| - 1] == 48 + a % 10 && y[|y| - 1] == 48 + b % 10;
    if a >= 10 && b >= 10 {
      assert x[..|x| - 1] == Decimal(a / 10) && y[..|y| - 1] == Decimal(b / 10);
      DecimalInjective(a / 10, b / 10);
    } else {
      DecimalLength(a);
      DecimalLength(b);
    }
  }

  lemma DecimalLength(n: nat)
    ensures |Decimal(n)| == 1 <==> n < 10
  {
  }

  lemma TailIn(x: Text, a: Text, i: nat)
    requires |x| < i < |x + [DASH] + a|
    ensures (x + [DASH] + a)[i] in a
  {
    assert (x + [DASH] + a)[i] == a[i - |x| - 1];
  }

  /** A dash-free word starts after the last dash. */
  lemma SplitLast(x: Text, y: Text, a: Text, b: Text)
    requires DashFree(a) && DashFree(b) && x + [DASH] + a == y + [DASH] + b
    ensures x == y && a == b
  {
    var u, v := x + [DASH] + a, y + [DASH] + b;
    assert u[|x|] == DASH && v[|y|] == DASH;
    forall i | |x| < i < |u| ensures u[i] in a { TailIn(x, a, i); }
    forall i | |y| < i < |v| ensures v[i] in b { TailIn(y, b, i); }
    assert x == u[..|x|] && y == v[..|y|] && a == u[|x| + 1..] && b == v[|y| + 1..];
  }

  /** The identifiers ICS-04 generates: channel-0, channel-1 and so on. */
  const CHANNEL: Text := [99, 104, 97, 110, 110, 101, 108]

  ghost predicate ChannelId(c: Text) { exists n: nat :: c == CHANNEL + [DASH] + Decimal(n) }

  /** On generated channels, whatever the port, equal ids mean the same packet. */
  lemma UidInjective(u: PacketUID, v: PacketUID)
    requires ChannelId(u.at.chan) && ChannelId(v.at.chan) && UidText(u) == UidText(v)
    ensures u == v
  {
    hide Decimal, TypeName, UidText;
    var m: nat :| u.at.chan == CHANNEL + [DASH] + Decimal(m);
    var n: nat :| v.at.chan == CHANNEL + [DASH] + Decimal(n);
    var a, b := u.at.chan + [DASH] + u.at.port, v.at.chan + [DASH] + v.at.port;
    NamesAreDashFree(u.ptype);
    NamesAreDashFree(v.ptype);
    Regroup(u);
    Regroup(v);
    SplitFirst(DASH, TypeName(u.ptype), TypeName(v.ptype), a + [DASH] + Decimal(u.seqn), b + [DASH] + Decimal(v.seqn));
    SplitLast(a, b, Decimal(u.seqn), Decimal(v.seqn));
    TypeNameInjective(u.ptype, v.ptype);
    DecimalInjective(u.seqn, v.seqn);
    PortAndChannel(m, u.at.port, n, v.at.port);
  }

  lemma Regroup(u: PacketUID)
    ensures UidText(u) == TypeName(u.ptype) + [DASH] + (u.at.chan + [DASH] + u.at.port + [DASH] + Decimal(u.seqn))
  {
    hide Decimal, TypeName;
  }

  /** So they do on any channels if the ports are free of dashes. */
  lemma UidInjectiveByPort(u: PacketUID, v: PacketUID)
    requires DashFree(u.at.port) && DashFree(v.at.port) && UidText(u) == UidText(v)
    ensures u == v
  {
    hide Decimal, TypeName, UidText;
    var a, b := u.at.chan + [DASH] + u.at.port, v.at.chan + [DASH] + v.at.port;
    NamesAreDashFree(u.ptype);
    NamesAreDashFree(v.ptype);
    Regroup(u);
    Regroup(v);
    SplitFirst(DASH, TypeName(u.ptype), TypeName(v.ptype), a + [DASH] + Decimal(u.seqn), b + [DASH] + Decimal(v.seqn));
    SplitLast(a, b, Decimal(u.seqn), Decimal(v.seqn));
    SplitLast(u.at.chan, v.at.chan, u.at.port, v.at.port);
    TypeNameInjective(u.ptype, v.ptype);
    DecimalInjective(u.seqn, v.seqn);
  }

  lemma PortAndChannel(m: nat, p: Text, n: nat, q: Text)
    requires CHANNEL + [DASH] + Decimal(m) + [DASH] + p == CHANNEL + [DASH] + Decimal(n) + [DASH] + q
    ensures m == n && p == q
  {
    hide Decimal;
    var x, y := CHANNEL + [DASH] + Decimal(m) + [DASH] + p, CHANNEL + [DASH] + Decimal(n) + [DASH] + q;
    var pre := CHANNEL + [DASH];
    assert x == pre + (Decimal(m) + [DASH] + p) && y == pre + (Decimal(n) + [DASH] + q);
    assert x[|pre|..] == Decimal(m) + [DASH] + p && y[|pre|..] == Decimal(n) + [DASH] + q;
    SplitFirst(DASH, Decimal(m), Decimal(n), p, q);
    DecimalInjective(m, n);
  }

  lemma NamesAreDashFree(t: PacketType)
    ensures DashFree(TypeName(t))
  {
  }

  /** Two ids share a text if and only if type and sequence are the same and channel and port read the same in a row. */
  lemma UidTextsAgree(u: PacketUID, v: PacketUID)
    ensures UidText(u) == UidText(v) <==>
              && u.ptype == v.ptype && u.seqn == v.seqn
              && u.at.chan + [DASH] + u.at.port == v.at.chan + [DASH] + v.at.port
  {
    hide Decimal, TypeName, UidText;
    var a, b := u.at.chan + [DASH] + u.at.port, v.at.chan + [DASH] + v.at.port;
    Regroup(u);
    Regroup(v);
    if UidText(u) == UidText(v) {
      NamesAreDashFree(u.ptype);
      NamesAreDashFree(v.ptype);
      SplitFirst(DASH, TypeName(u.ptype), TypeName(v.ptype), a + [DASH] + Decimal(u.seqn),
        b + [DASH] + Decimal(v.seqn));
      SplitLast(a, b, Decimal(u.seqn), Decimal(v.seqn));
      TypeNameInjective(u.ptype, v.ptype);
      DecimalInjective(u.seqn, v.seqn);
    }
  }

  /** With dashes on both sides of the border, two ports and channels can share an id. */
  lemma UidCollision(t: PacketType, c: Text, x: Text, p: Text, n: u64)
    requires c + [DASH] + x != c
    ensures UidText(PacketUID(t, Endpoint(x + [DASH] + p, c), n)) ==
            UidText(PacketUID(t, Endpoint(p, c + [DASH] + x), n))
    ensures PacketUID(t, Endpoint(x + [DASH] + p, c), n) != PacketUID(t, Endpoint(p, c + [DASH] + x), n)
  {
    hide Decimal, TypeName;
    assert c + [DASH] + (x + [DASH] + p) == c + [DASH] + x + [DASH] + p;
    var front := TypeName(t) + [DASH];
    assert front + c + [DASH] + (x + [DASH] + p) == front + (c + [DASH] + (x + [DASH] + p));
    assert front + (c + [DASH] + x) + [DASH] + p == front + (c + [DASH] + x + [DASH] + p);
  }

  // ---------------------------------------------------------------- what the context holds

  /** Heights by id text. */
  type Heights = map<Text, u64>

  /** InnerCallback of the proof-height decorator: it never fails. */
  const Record: Callback<Heights> := (ctx: Heights, m: Msg, depth: nat) =>
    (if m.PacketMsg? && m.ptype != Undefined then ctx[UidText(UidOf(m.ptype, m.packet)) := m.height] else ctx, true)

  predicate Names(v: Meeting, id: Text) {
    v.AtLeaf? && v.m.PacketMsg? && v.m.ptype != Undefined && UidText(UidOf(v.m.ptype, v.m.packet)) == id
  }

  /** The height the last message about a packet carries. */
  function LastHeight(vs: seq<Meeting>, id: Text): (h: Option<u64>) {
    if vs == [] then None
    else if Names(vs[|vs| - 1], id) then Some(vs[|vs| - 1].m.height)
    else LastHeight(vs[..|vs| - 1], id)
  }

  predicate NoStops(vs: seq<Meeting>) { forall i :: 0 <= i < |vs| ==> vs[i].AtLeaf? }

  lemma RecordOnce(ctx: Heights, m: Msg, depth: nat)
    ensures CallAll([Record], ctx, m, depth) == Walk(Record(ctx, m, depth).0, true)
  {
    assert [Record][1..] == [];
  }

  /** After the walk the context has, for every packet named in the transaction, the height of its last message. */
  lemma {:induction false} WalkRecordsLast(ctx: Heights, vs: seq<Meeting>, id: Text)
    requires NoStops(vs)
    ensures var w := CallOver([Record], ctx, vs);
            && w.ok
            && match LastHeight(vs, id)
               case Some(h) => id in w.ctx && w.ctx[id] == h
               case None => (id in w.ctx <==> id in ctx) && (id in ctx ==> w.ctx[id] == ctx[id])
  {
    hide UidText;
    if vs != [] {
      var front, last := vs[..|vs| - 1], vs[|vs| - 1];
      assert vs == front + [last];
      WalkRecordsLast(ctx, front, id);
      CallOverAppend([Record], ctx, front, [last]);
      var c := CallOver([Record], ctx, front).ctx;
      RecordOnce(c, last.m, last.depth);
      LeafOver([Record], c, last.m, last.depth);
    }
  }

  /** UnpackPacketProofHeight. */
  function Unpack(ctx: Heights, t: PacketType, p: Packet): (h: Option<u64>) {
    var id := UidText(UidOf(t, p));
    if id in ctx then Some(ctx[id]) else None
  }

  // ---------------------------------------------------------------- messages in the tree

  /** The message at a path carries a height under this id. */
  ghost predicate IsNamed(ms: seq<Msg>, path: Path, id: Text) {
    var m := NodeAt(ms, path);
    m.Some? && m.value.PacketMsg? && m.value.ptype != Undefined && UidText(UidOf(m.value.ptype, m.value.packet)) == id
  }

  ghost predicate IsLastNamed(ms: seq<Msg>, path: Path, id: Text) {
    IsNamed(ms, path, id) && forall q: Path :: IsNamed(ms, q, id) ==> q == path || Before(q, path)
  }

  lemma PathIsMet(rules: seq<Rule>, ms: seq<Msg>, path: Path, id: Text, paths: seq<Path>) returns (i: nat)
    requires EveryNodeOk(rules, ms, 0) && IsNamed(ms, path, id) && Enumerates(ms, 0, paths, Meetings(ms, 0))
    ensures i < |paths| == |Meetings(ms, 0)| && paths[i] == path
    ensures Meetings(ms, 0)[i] == AtLeaf(NodeAt(ms, path).value, |path| - 1) && Names(Meetings(ms, 0)[i], id)
  {
    hide UidText, Meetings, InOrder;
    assert path != [] && NodeOk(rules, NodeAt(ms, path).value, 0 + |path| - 1);
    assert EndsAt(ms, 0, path);
    i :| 0 <= i < |paths| && paths[i] == path;
  }

  lemma {:induction false} LastIndex(vs: seq<Meeting>, i: nat, id: Text) returns (l: nat)
    requires i < |vs| && Names(vs[i], id)
    ensures i <= l < |vs| && Names(vs[l], id) && LastHeight(vs, id) == Some(vs[l].m.height)
    ensures forall j :: l < j < |vs| ==> !Names(vs[j], id)
  {
    hide UidText;
    var n := |vs| - 1;
    if Names(vs[n], id) {
      l := n;
    } else {
      assert vs[..n][i] == vs[i];
      l := LastIndex(vs[..n], i, id);
      assert forall j :: l < j < n ==> vs[..n][j] == vs[j];
    }
  }

  lemma ContextHasLast(rules: seq<Rule>, ms: seq<Msg>, ctx: Heights, id: Text)
    requires EveryNodeOk(rules, ms, 0) && LastHeight(Meetings(ms, 0), id).Some?
    ensures var w := CallOver([Record], ctx, Meetings(ms, 0));
            w.ok && id in w.ctx && Some(w.ctx[id]) == LastHeight(Meetings(ms, 0), id)
  {
    hide UidText, EveryNodeOk, Meetings;
    var vs := Meetings(ms, 0);
    forall j | 0 <= j < |vs| ensures vs[j].AtLeaf? { AcceptedNeverStops(rules, ms, 0, vs[j]); }
    WalkRecordsLast(ctx, vs, id);
  }

  lemma MetAt(ms: seq<Msg>, paths: seq<Path>, l: nat, id: Text)
    requires Enumerates(ms, 0, paths, Meetings(ms, 0)) && l < |Meetings(ms, 0)| && Names(Meetings(ms, 0)[l], id)
    ensures l < |paths| && IsNamed(ms, paths[l], id) && Meetings(ms, 0)[l].m == NodeAt(ms, paths[l]).value
  {
    hide UidText, Meetings, InOrder;
  }

  lemma NoneAfter(rules: seq<Rule>, ms: seq<Msg>, id: Text, paths: seq<Path>, l: nat)
    requires EveryNodeOk(rules, ms, 0) && Enumerates(ms, 0, paths, Meetings(ms, 0))
    requires l < |paths| == |Meetings(ms, 0)| && IsNamed(ms, paths[l], id)
    requires forall j :: l < j < |paths| ==> !Names(Meetings(ms, 0)[j], id)
    ensures IsLastNamed(ms, paths[l], id)
  {
    hide UidText, Meetings, EveryNodeOk, IsNamed, Names, Lists, EndsAt;
    forall q: Path | IsNamed(ms, q, id) ensures q == paths[l] || Before(q, paths[l]) {
      var j := PathIsMet(rules, ms, q, id, paths);
    }
  }

  /** In a transaction the filter accepts, every message about a packet, wherever it is nested, is handled at the height
      that the last message with its id text carries. */
  lemma HeightReadIsLast(rules: seq<Rule>, ms: seq<Msg>, path: Path, id: Text, ctx: Heights) returns (last: Path)
    requires EveryNodeOk(rules, ms, 0) && IsNamed(ms, path, id)
    ensures IsLastNamed(ms, last, id)
    ensures var m, w := NodeAt(ms, path).value, CallOver([Record], ctx, Meetings(ms, 0));
            w.ok && Unpack(w.ctx, m.ptype, m.packet) == Some(NodeAt(ms, last).value.height)
  {
    hide UidText, Meetings, EveryNodeOk, Enumerates, IsLastNamed, CallOver, Names, LastHeight;
    var vs := Meetings(ms, 0);
    MeetingsAreLeaves(ms);
    var paths :| Enumerates(ms, 0, paths, vs);
    var i := PathIsMet(rules, ms, path, id, paths);
    var l := LastIndex(vs, i, id);
    last := paths[l];
    MetAt(ms, paths, l, id);
    ContextHasLast(rules, ms, ctx, id);
    NoneAfter(rules, ms, id, paths, l);
  }

  lemma {:induction false} BeforeIsStrict(a: Path, b: Path)
    ensures !(Before(a, b) && Before(b, a)) && !Before(a, a)
  {
    if a != [] && b != [] { BeforeIsStrict(a[1..], b[1..]); }
    if a != [] { BeforeIsStrict(a[1..], a[1..]); }
  }

  lemma LastNamedIsUnique(ms: seq<Msg>, a: Path, b: Path, id: Text)
    requires IsLastNamed(ms, a, id) && IsLastNamed(ms, b, id)
    ensures a == b
  {
    hide IsNamed;
    BeforeIsStrict(a, b);
  }

  /** A message is handled at its own height if and only if the last message with its id text carries the same. */
  lemma OwnHeight(rules: seq<Rule>, ms: seq<Msg>, path: Path, id: Text, ctx: Heights, last: Path)
    requires EveryNodeOk(rules, ms, 0) && IsNamed(ms, path, id) && IsLastNamed(ms, last, id)
    ensures var m, w := NodeAt(ms, path).value, CallOver([Record], ctx, Meetings(ms, 0));
            Unpack(w.ctx, m.ptype, m.packet) == Some(m.height) <==> NodeAt(ms, last).value.height == m.height
  {
    hide UidText, Meetings, EveryNodeOk, Unpack, IsLastNamed;
    var q := HeightReadIsLast(rules, ms, path, id, ctx);
    LastNamedIsUnique(ms, q, last, id);
    hide IsNamed;
  }

  // ---------------------------------------------------------------- packets in the tree

  /** The message at a path is about a packet. */
  ghost predicate IsAbout(ms: seq<Msg>, path: Path, u: PacketUID) {
    var m := NodeAt(ms, path);
    m.Some? && m.value.PacketMsg? && m.value.ptype != Undefined && UidOf(m.value.ptype, m.value.packet) == u
  }

  ghost predicate IsLastAbout(ms: seq<Msg>, path: Path, u: PacketUID) {
    IsAbout(ms, path, u) && forall q: Path :: IsAbout(ms, q, u) ==> q == path || Before(q, path)
  }

  /** The channels named are ones ICS-04 has generated. */
  ghost predicate Generated(ms: seq<Msg>) {
    forall path: Path, u: PacketUID :: IsAbout(ms, path, u) ==> ChannelId(u.at.chan)
  }

  lemma NamedIsAbout(ms: seq<Msg>, path: Path, u: PacketUID)
    requires Generated(ms) && ChannelId(u.at.chan)
    ensures IsNamed(ms, path, UidText(u)) <==> IsAbout(ms, path, u)
  {
    hide UidText, ChannelId;
    if IsNamed(ms, path, UidText(u)) {
      var m := NodeAt(ms, path).value;
      assert IsAbout(ms, path, UidOf(m.ptype, m.packet));
      UidInjective(UidOf(m.ptype, m.packet), u);
    }
  }

  /** On generated channels that is the last message about the same packet. */
  lemma HeightReadIsLastAbout(rules: seq<Rule>, ms: seq<Msg>, path: Path, u: PacketUID, ctx: Heights)
    returns (last: Path)
    requires EveryNodeOk(rules, ms, 0) && Generated(ms) && IsAbout(ms, path, u)
    ensures IsLastAbout(ms, last, u)
    ensures var m, w := NodeAt(ms, path).value, CallOver([Record], ctx, Meetings(ms, 0));
            w.ok && Unpack(w.ctx, m.ptype, m.packet) == Some(NodeAt(ms, last).value.height)
  {
    hide UidText, Meetings, EveryNodeOk, ChannelId, CallOver, IsNamed;
    assert ChannelId(u.at.chan);
    NamedIsAbout(ms, path, u);
    last := HeightReadIsLast(rules, ms, path, UidText(u), ctx);
    forall q: Path ensures IsNamed(ms, q, UidText(u)) <==> IsAbout(ms, q, u) { NamedIsAbout(ms, q, u); }
  }

  // ---------------------------------------------------------------- failing transactions

  /** A message about a packet, and one inside a proposal, which is not run, that has the same id text. */
  function Shadowed(t: PacketType, p: Packet, h1: u64, q: Packet, h2: u64): (ms: seq<Msg>) {
    [PacketMsg([], t, p, h1), Wrapper([], Some([PacketMsg([], t, q, h2)]), false)]
  }

  lemma ShadowedMeetings(t: PacketType, p: Packet, h1: u64, q: Packet, h2: u64)
    ensures var ms := Shadowed(t, p, h1, q, h2);
            && EveryNodeOk([], ms, 0)
            && Meetings(ms, 0) == [AtLeaf(PacketMsg([], t, p, h1), 0), AtLeaf(PacketMsg([], t, q, h2), 1)]
  {
    hide EveryNodeOk, Meetings;
    var ms := Shadowed(t, p, h1, q, h2);
    var inner := [PacketMsg([], t, q, h2)];
    EveryNodeStep([], [], 1);
    EveryNodeStep([], [], 2);
    EveryNodeStep([], inner, 1);
    EveryNodeStep([], ms, 0);
    assert ms[..0] == [] && ms[..1] == [ms[0]] && ms[..2] == ms && inner[..0] == [] && inner[..1] == inner;
    MeetingsSnoc(inner, 0, 1);
    MeetingsSnoc(ms, 0, 0);
    MeetingsSnoc(ms, 1, 0);
    NoMessages(0);
    NoMessages(1);
  }

  /** It is handled at the height of the one that is not run, be that about the same packet or about another on a
      channel and port that only read the same. */
  lemma ShadowIsRead(t: PacketType, p: Packet, h1: u64, q: Packet, h2: u64, ctx: Heights)
    requires t != Undefined && UidText(UidOf(t, p)) == UidText(UidOf(t, q))
    ensures var w := CallOver([Record], ctx, Meetings(Shadowed(t, p, h1, q, h2), 0));
            w.ok && Unpack(w.ctx, t, p) == Some(h2)
  {
    hide UidText, Meetings, CallOver;
    ShadowedMeetings(t, p, h1, q, h2);
    WalkRecordsLast(ctx, Meetings(Shadowed(t, p, h1, q, h2), 0), UidText(UidOf(t, p)));
  }

  /** Two messages about one packet in a row: the first is handled at the height of the second. */
  lemma FirstReadsSecond(url: Text, p: Packet, h1: u64, h2: u64, ctx: Heights)
    ensures var ms := [PacketMsg(url, OnRecv, p, h1), PacketMsg(url, OnRecv, p, h2)];
            && EveryNodeOk([], ms, 0)
            && Unpack(CallOver([Record], ctx, Meetings(ms, 0)).ctx, OnRecv, p) == Some(h2)
  {
    hide UidText, Meetings, EveryNodeOk, CallOver;
    var ms := [PacketMsg(url, OnRecv, p, h1), PacketMsg(url, OnRecv, p, h2)];
    EveryNodeStep([], ms, 0);
    EveryNodeStep([], [], 1);
    TwoLeaves(ms[0], ms[1]);
    WalkRecordsLast(ctx, Meetings(ms, 0), UidText(UidOf(OnRecv, p)));
  }

  lemma TwoLeaves(a: Msg, b: Msg)
    requires a.PacketMsg? && b.PacketMsg?
    ensures Meetings([a, b], 0) == [AtLeaf(a, 0), AtLeaf(b, 0)]
  {
    hide Meetings;
    assert [a, b][..0] == [] && [a, b][..1] == [a] && [a, b][..2] == [a, b];
    MeetingsSnoc([a, b], 0, 0);
    MeetingsSnoc([a, b], 1, 0);
    NoMessages(0);
  }

  lemma NoMessages(depth: nat)
    requires depth <= MAX_DEPTH
    ensures Meetings([], depth) == []
  {
  }
}
