/** The two walks over nested messages before a transaction runs: the filter that rejects, and the decorator that
    calls back for every leaf. */
module Ante {
  import opened Bytes
  import opened Packets

  const MAX_DEPTH: nat := 6

  /** Wrappers are MsgExec, whose contents run with the transaction, and the two MsgSubmitProposal, whose contents do
      not; contents, and a grant's authorization, may fail to unpack. */
  datatype Msg =
    | Wrapper(typeUrl: Text, inner: Option<seq<Msg>>, runs: bool)
    | Grant(typeUrl: Text, authorization: Option<Text>)
    | EthereumTx
    | PacketMsg(typeUrl: Text, ptype: PacketType, packet: Packet, height: u64)
    | OtherMsg(typeUrl: Text)

  function TypeUrl(m: Msg): Text { if m.EthereumTx? then [] else m.typeUrl }

  function Inner(m: Msg): seq<Msg> { if m.Wrapper? && m.inner.Some? then m.inner.value else [] }

  /** A predicate that disallows a type from a depth on. */
  type Rule = (Text, nat) -> bool

  /** BlockTypeUrls. */
  function BlockTypeUrls(depthMax: nat, urls: set<Text>): (r: Rule) {
    (url, depth) => url in urls && depthMax <= depth
  }

  predicate Blocked(rules: seq<Rule>, url: Text, depth: nat) {
    exists i :: 0 <= i < |rules| && rules[i](url, depth)
  }

  method AnyBlocks(rules: seq<Rule>, url: Text, depth: nat) returns (b: bool)
    ensures b == Blocked(rules, url, depth)
  {
    for i := 0 to |rules|
      invariant forall j :: 0 <= j < i ==> !rules[j](url, depth)
    {
      if rules[i](url, depth) { return true; }
    }
    b := false;
  }

  // ---------------------------------------------------------------- rejecting

  /** What is asked of a single message. */
  predicate NodeOk(rules: seq<Rule>, m: Msg, depth: nat) {
    && depth < MAX_DEPTH && !m.EthereumTx? && !Blocked(rules, TypeUrl(m), depth)
    && (m.Wrapper? ==> m.inner.Some?)
    && (m.Grant? ==> m.authorization.Some? && !Blocked(rules, m.authorization.value, depth))
  }

  /** The message a path of positions leads to. */
  function NodeAt(ms: seq<Msg>, path: seq<nat>): (m: Option<Msg>)
    decreases |path|
  {
    if path == [] || path[0] >= |ms| then None
    else if |path| == 1 then Some(ms[path[0]])
    else NodeAt(Inner(ms[path[0]]), path[1..])
  }

  /** Every message of the tree, at its depth, passes. */
  ghost predicate EveryNodeOk(rules: seq<Rule>, ms: seq<Msg>, depth: nat) {
    forall path: seq<nat> :: NodeAt(ms, path).Some? ==> NodeOk(rules, NodeAt(ms, path).value, depth + |path| - 1)
  }

  lemma Descend(ms: seq<Msg>, i: nat, path: seq<nat>)
    requires i < |ms| && path != []
    ensures NodeAt(ms, [i] + path) == NodeAt(Inner(ms[i]), path)
  {
    assert ([i] + path)[1..] == path;
  }

  lemma EveryNodeBelow(rules: seq<Rule>, ms: seq<Msg>, depth: nat, i: nat)
    requires EveryNodeOk(rules, ms, depth) && i < |ms|
    ensures NodeOk(rules, ms[i], depth) && EveryNodeOk(rules, Inner(ms[i]), depth + 1)
  {
    hide NodeOk, Inner;
    assert NodeAt(ms, [i]) == Some(ms[i]);
    hide NodeAt;
    forall path: seq<nat> | NodeAt(Inner(ms[i]), path).Some?
      ensures NodeOk(rules, NodeAt(Inner(ms[i]), path).value, depth + 1 + |path| - 1) {
      NoPath(Inner(ms[i]));
      Descend(ms, i, path);
      assert NodeAt(ms, [i] + path).Some?;
    }
  }

  lemma NoPath(ms: seq<Msg>)
    ensures NodeAt(ms, []) == None
  {
  }

  lemma EveryNodeAbove(rules: seq<Rule>, ms: seq<Msg>, depth: nat, path: seq<nat>)
    requires forall i :: 0 <= i < |ms| ==> NodeOk(rules, ms[i], depth) && EveryNodeOk(rules, Inner(ms[i]), depth + 1)
    requires NodeAt(ms, path).Some?
    ensures NodeOk(rules, NodeAt(ms, path).value, depth + |path| - 1)
  {
    hide NodeOk, Inner;
    if |path| > 1 { assert NodeAt(ms, path) == NodeAt(Inner(ms[path[0]]), path[1..]); }
  }

  lemma EveryNodeStep(rules: seq<Rule>, ms: seq<Msg>, depth: nat)
    ensures EveryNodeOk(rules, ms, depth) <==>
              forall i :: 0 <= i < |ms| ==> NodeOk(rules, ms[i], depth) && EveryNodeOk(rules, Inner(ms[i]), depth + 1)
  {
    if EveryNodeOk(rules, ms, depth) {
      hide EveryNodeOk, NodeOk, NodeAt, Inner;
      forall i | 0 <= i < |ms| ensures NodeOk(rules, ms[i], depth) && EveryNodeOk(rules, Inner(ms[i]), depth + 1) {
        EveryNodeBelow(rules, ms, depth, i);
      }
    } else {
      hide NodeOk, NodeAt, Inner;
      NoPath(ms);
      var path: seq<nat> :| path != [] && NodeAt(ms, path).Some?
        && !NodeOk(rules, NodeAt(ms, path).value, depth + |path| - 1);
      if forall i :: 0 <= i < |ms| ==> NodeOk(rules, ms[i], depth) && EveryNodeOk(rules, Inner(ms[i]), depth + 1) {
        EveryNodeAbove(rules, ms, depth, path);
      }
    }
  }

  /** A filter made of lists of types, each blocked from a depth on. */
  function Filters(lists: seq<(nat, set<Text>)>): (rules: seq<Rule>)
    ensures |rules| == |lists|
    ensures forall i :: 0 <= i < |lists| ==> rules[i] == BlockTypeUrls(lists[i].0, lists[i].1)
  {
    if lists == [] then [] else [BlockTypeUrls(lists[0].0, lists[0].1)] + Filters(lists[1..])
  }

  /** The type is on a list that applies on this level, counted from one. */
  ghost predicate Listed(lists: seq<(nat, set<Text>)>, url: Text, level: nat) {
    exists i :: 0 <= i < |lists| && url in lists[i].1 && level > lists[i].0
  }

  ghost predicate Passes(lists: seq<(nat, set<Text>)>, m: Msg, level: nat) {
    && level <= 6 && !m.EthereumTx? && (m.Wrapper? ==> m.inner.Some?) && (m.Grant? ==> m.authorization.Some?)
    && !Listed(lists, m.typeUrl, level) && (m.Grant? ==> !Listed(lists, m.authorization.value, level))
  }

  /** Such a filter accepts exactly the trees of at most six levels that unpack, hold no Ethereum transaction, and on no
      level a type that is listed for it, or a grant of one. */
  lemma AcceptedExactly(lists: seq<(nat, set<Text>)>, ms: seq<Msg>)
    ensures EveryNodeOk(Filters(lists), ms, 0) <==>
              forall path: seq<nat> :: NodeAt(ms, path).Some? ==> Passes(lists, NodeAt(ms, path).value, |path|)
  {
    hide NodeAt, Passes, NodeOk, Filters;
    NoPath(ms);
    forall m: Msg, path: seq<nat> | path != []
      ensures NodeOk(Filters(lists), m, 0 + |path| - 1) <==> Passes(lists, m, |path|) {
      PassesIs(lists, m, |path|);
    }
  }

  lemma PassesIs(lists: seq<(nat, set<Text>)>, m: Msg, level: nat)
    requires level >= 1
    ensures NodeOk(Filters(lists), m, level - 1) <==> Passes(lists, m, level)
  {
    forall url ensures Blocked(Filters(lists), url, level - 1) <==> Listed(lists, url, level) {
      BlockedIs(lists, url, level);
    }
    hide Blocked, Listed, Filters;
  }

  lemma BlockedIs(lists: seq<(nat, set<Text>)>, url: Text, level: nat)
    requires level >= 1
    ensures Blocked(Filters(lists), url, level - 1) <==> Listed(lists, url, level)
  {
    var rules := Filters(lists);
    hide Filters;
    forall i | 0 <= i < |lists| ensures rules[i](url, level - 1) <==> url in lists[i].1 && level > lists[i].0 {
    }
  }

  /** checkMsgs: true is acceptance. A tree is accepted if and only if every message in it passes. */
  method CheckMsgs(rules: seq<Rule>, ms: seq<Msg>, depth: nat) returns (ok: bool)
    requires depth <= MAX_DEPTH
    ensures ok <==> EveryNodeOk(rules, ms, depth)
    decreases MAX_DEPTH - depth, 1
  {
    hide EveryNodeOk, NodeOk;
    EveryNodeStep(rules, ms, depth);
    for i := 0 to |ms|
      invariant forall j :: 0 <= j < i ==> NodeOk(rules, ms[j], depth) && EveryNodeOk(rules, Inner(ms[j]), depth + 1)
    {
      var good := CheckMsg(rules, ms[i], depth);
      if !good { return false; }
    }
    ok := true;
  }

  /** checkMsg. */
  method CheckMsg(rules: seq<Rule>, m: Msg, depth: nat) returns (ok: bool)
    requires depth <= MAX_DEPTH
    ensures ok <==> NodeOk(rules, m, depth) && EveryNodeOk(rules, Inner(m), depth + 1)
    decreases MAX_DEPTH - depth, 0
  {
    hide EveryNodeOk;
    if depth >= MAX_DEPTH { return false; }
    if m.EthereumTx? { return false; }
    var blocked := AnyBlocks(rules, m.typeUrl, depth);
    if blocked { return false; }
    var inner := [];
    if m.Wrapper? {
      if m.inner.None? { return false; }
      inner := m.inner.value;
    } else if m.Grant? {
      if m.authorization.None? { return false; }
      blocked := AnyBlocks(rules, m.authorization.value, depth);
      if blocked { return false; }
    }
    ok := CheckMsgs(rules, inner, depth + 1);
  }

  // ---------------------------------------------------------------- calling back

  /** What the walk meets: a leaf at a depth, or something it stops at. */
  datatype Meeting = AtLeaf(m: Msg, depth: nat) | Stop

  /** All meetings in order. A wrapper without contents is a leaf. */
  function Meetings(ms: seq<Msg>, depth: nat): (vs: seq<Meeting>)
    requires depth <= MAX_DEPTH
    decreases MAX_DEPTH - depth, |ms| + 1
  {
    if ms == [] then [] else MeetingsOf(ms[0], depth) + Meetings(ms[1..], depth)
  }

  function MeetingsOf(m: Msg, depth: nat): (vs: seq<Meeting>)
    requires depth <= MAX_DEPTH
    decreases MAX_DEPTH - depth, 0
  {
    if depth >= MAX_DEPTH || (m.Wrapper? && m.inner.None?) then [Stop]
    else if Inner(m) != [] then Meetings(Inner(m), depth + 1)
    else [AtLeaf(m, depth)]
  }

  // ---------------------------------------------------------------- the meetings are the leaves

  type Path = seq<nat>

  /** Left to right, depth first. */
  predicate Before(a: Path, b: Path)
    decreases |a|
  {
    b != [] && (a == [] || a[0] < b[0] || (a[0] == b[0] && Before(a[1..], b[1..])))
  }

  /** The walk ends at the node of this path: a message without contents, or one at the depth limit. */
  ghost predicate EndsAt(ms: seq<Msg>, depth: nat, path: Path) {
    var d := depth + |path| - 1;
    NodeAt(ms, path).Some? && d <= MAX_DEPTH && (d == MAX_DEPTH || Inner(NodeAt(ms, path).value) == [])
  }

  function MeetingAt(m: Msg, depth: nat): Meeting {
    if depth >= MAX_DEPTH || (m.Wrapper? && m.inner.None?) then Stop else AtLeaf(m, depth)
  }

  /** The paths list the meetings one for one. */
  ghost predicate Lists(ms: seq<Msg>, depth: nat, paths: seq<Path>, vs: seq<Meeting>) {
    |paths| == |vs| && forall i :: 0 <= i < |paths| ==>
      && paths[i] != [] && EndsAt(ms, depth, paths[i])
      && vs[i] == MeetingAt(NodeAt(ms, paths[i]).value, depth + |paths[i]| - 1)
  }

  ghost predicate InOrder(paths: seq<Path>) { forall i, j :: 0 <= i < j < |paths| ==> Before(paths[i], paths[j]) }

  /** The walk meets, from left to right and each once, exactly the nodes it can end at. */
  ghost predicate Enumerates(ms: seq<Msg>, depth: nat, paths: seq<Path>, vs: seq<Meeting>) {
    && Lists(ms, depth, paths, vs) && InOrder(paths)
    && forall path: Path :: EndsAt(ms, depth, path) ==> path in paths
  }

  function Under(i: nat, paths: seq<Path>): (r: seq<Path>)
    ensures |r| == |paths| && forall k :: 0 <= k < |paths| ==> r[k] == [i] + paths[k]
  {
    seq(|paths|, k requires 0 <= k < |paths| => [i] + paths[k])
  }

  lemma {:induction false} BeforeUnder(x: Path, a: Path, b: Path)
    ensures Before(x + a, x + b) <==> Before(a, b)
  {
    if x == [] {
      assert x + a == a && x + b == b;
    } else {
      assert (x + a)[1..] == x[1..] + a && (x + b)[1..] == x[1..] + b;
      BeforeUnder(x[1..], a, b);
    }
  }

  /** What is below one message of the list. */
  lemma ListsUnder(ms: seq<Msg>, depth: nat, i: nat, paths: seq<Path>, vs: seq<Meeting>)
    requires i < |ms| && Lists(Inner(ms[i]), depth + 1, paths, vs) && InOrder(paths)
    ensures Lists(ms, depth, Under(i, paths), vs) && InOrder(Under(i, paths))
  {
    hide MeetingAt, Inner, NodeAt;
    forall k | 0 <= k < |paths|
      ensures EndsAt(ms, depth, [i] + paths[k]) && NodeAt(ms, [i] + paths[k]) == NodeAt(Inner(ms[i]), paths[k]) {
      Descend(ms, i, paths[k]);
    }
    forall k, l | 0 <= k < l < |paths| ensures Before([i] + paths[k], [i] + paths[l]) {
      BeforeUnder([i], paths[k], paths[l]);
    }
  }

  /** One message and all it contains. */
  lemma MessagePaths(ms: seq<Msg>, depth: nat, i: nat) returns (paths: seq<Path>)
    requires depth <= MAX_DEPTH && i < |ms|
    ensures Lists(ms, depth, paths, MeetingsOf(ms[i], depth)) && InOrder(paths)
    ensures forall k :: 0 <= k < |paths| ==> paths[k][0] == i
    ensures forall path: Path :: path != [] && path[0] == i && EndsAt(ms, depth, path) ==> path in paths
    decreases MAX_DEPTH - depth, 0
  {
    hide Before;
    if depth < MAX_DEPTH && Inner(ms[i]) != [] {
      var below := TreePaths(Inner(ms[i]), depth + 1);
      paths := Under(i, below);
      ListsUnder(ms, depth, i, below, Meetings(Inner(ms[i]), depth + 1));
      forall path: Path | path != [] && path[0] == i && EndsAt(ms, depth, path) ensures path in paths {
        EndsBelow(ms, depth, i, path);
        var k :| 0 <= k < |below| && below[k] == path[1..];
        assert paths[k] == path;
      }
    } else {
      paths := [[i]];
      forall path: Path | path != [] && path[0] == i && EndsAt(ms, depth, path) ensures path == [i] {
        EndsHere(ms, depth, i, path);
      }
      assert [i] in paths;
    }
  }

  lemma EndsBelow(ms: seq<Msg>, depth: nat, i: nat, path: Path)
    requires path != [] && path[0] == i && EndsAt(ms, depth, path) && depth < MAX_DEPTH && i < |ms|
             && Inner(ms[i]) != []
    ensures path == [i] + path[1..] && EndsAt(Inner(ms[i]), depth + 1, path[1..])
  {
  }

  lemma EndsHere(ms: seq<Msg>, depth: nat, i: nat, path: Path)
    requires path != [] && path[0] == i && EndsAt(ms, depth, path) && i < |ms|
             && (depth == MAX_DEPTH || Inner(ms[i]) == [])
    ensures path == [i]
  {
    assert |path| > 1 ==> NodeAt(ms, path) == NodeAt(Inner(ms[i]), path[1..]);
  }

  lemma ListsJoin(ms: seq<Msg>, depth: nat, a: seq<Path>, va: seq<Meeting>, b: seq<Path>, vb: seq<Meeting>)
    requires Lists(ms, depth, a, va) && Lists(ms, depth, b, vb)
    ensures Lists(ms, depth, a + b, va + vb)
  {
    hide MeetingAt, NodeAt, Inner;
  }

  lemma OrderJoins(a: seq<Path>, b: seq<Path>, n: nat)
    requires InOrder(a) && InOrder(b)
    requires forall k :: 0 <= k < |a| ==> a[k] != [] && a[k][0] < n
    requires forall k :: 0 <= k < |b| ==> b[k] != [] && b[k][0] == n
    ensures InOrder(a + b)
  {
  }

  /** The messages up to one of the list. */
  lemma {:induction false} FrontPaths(ms: seq<Msg>, depth: nat, n: nat) returns (paths: seq<Path>)
    requires depth <= MAX_DEPTH && n <= |ms|
    ensures Lists(ms, depth, paths, Meetings(ms[..n], depth)) && InOrder(paths)
    ensures forall k :: 0 <= k < |paths| ==> paths[k] != [] && paths[k][0] < n
    ensures forall path: Path :: path != [] && path[0] < n && EndsAt(ms, depth, path) ==> path in paths
    decreases MAX_DEPTH - depth, 1, n
  {
    hide MeetingsOf, EndsAt, MeetingAt, NodeAt, Before;
    if n == 0 {
      paths := [];
    } else {
      var front := FrontPaths(ms, depth, n - 1);
      var last := MessagePaths(ms, depth, n - 1);
      MeetingsSnoc(ms, n - 1, depth);
      ListsJoin(ms, depth, front, Meetings(ms[..n - 1], depth), last, MeetingsOf(ms[n - 1], depth));
      OrderJoins(front, last, n - 1);
      paths := front + last;
    }
  }

  lemma TreePaths(ms: seq<Msg>, depth: nat) returns (paths: seq<Path>)
    requires depth <= MAX_DEPTH
    ensures Enumerates(ms, depth, paths, Meetings(ms, depth))
    decreases MAX_DEPTH - depth, 2
  {
    hide Meetings, Lists, InOrder, MeetingAt;
    paths := FrontPaths(ms, depth, |ms|);
    assert ms[..|ms|] == ms;
  }

  /** The decorator meets every leaf once, from left to right, and on the way everything it has to stop at. */
  lemma MeetingsAreLeaves(ms: seq<Msg>)
    ensures exists paths :: Enumerates(ms, 0, paths, Meetings(ms, 0))
  {
    hide Enumerates, Meetings;
    var paths := TreePaths(ms, 0);
  }

  // ---------------------------------------------------------------- the callbacks

  /** A callback returns the new context and whether there was no error. */
  type Callback<!C> = (C, Msg, nat) -> (C, bool)

  datatype Walk<C> = Walk(ctx: C, ok: bool)

  /** All callbacks on one leaf, each with the context the last one left. */
  function CallAll<C>(cbs: seq<Callback<C>>, ctx: C, m: Msg, depth: nat): (w: Walk<C>) {
    if cbs == [] then Walk(ctx, true) else
    var (c, ok) := cbs[0](ctx, m, depth);
    if !ok then Walk(c, false) else CallAll(cbs[1..], c, m, depth)
  }

  /** The callbacks over a list of meetings, until something fails. */
  function CallOver<C>(cbs: seq<Callback<C>>, ctx: C, vs: seq<Meeting>): (w: Walk<C>)
    decreases |vs|
  {
    if vs == [] then Walk(ctx, true)
    else if vs[0].Stop? then Walk(ctx, false)
    else
      var w := CallAll(cbs, ctx, vs[0].m, vs[0].depth);
      if w.ok then CallOver(cbs, w.ctx, vs[1..]) else w
  }

  lemma {:induction false} CallOverAppend<C>(cbs: seq<Callback<C>>, ctx: C, a: seq<Meeting>, b: seq<Meeting>)
    ensures var w := CallOver(cbs, ctx, a);
            CallOver(cbs, ctx, a + b) == if w.ok then CallOver(cbs, w.ctx, b) else w
    decreases |a|
  {
    hide CallAll;
    if a == [] {
      assert a + b == b;
    } else {
      assert (a + b)[1..] == a[1..] + b;
      if a[0].AtLeaf? {
        CallOverAppend(cbs, CallAll(cbs, ctx, a[0].m, a[0].depth).ctx, a[1..], b);
      }
    }
  }

  lemma {:induction false} MeetingsAppend(a: seq<Msg>, b: seq<Msg>, depth: nat)
    requires depth <= MAX_DEPTH
    ensures Meetings(a + b, depth) == Meetings(a, depth) + Meetings(b, depth)
    decreases |a|
  {
    hide MeetingsOf;
    if a == [] {
      assert a + b == b;
    } else {
      assert (a + b)[1..] == a[1..] + b;
      MeetingsAppend(a[1..], b, depth);
      var x := MeetingsOf(a[0], depth);
      assert x + (Meetings(a[1..], depth) + Meetings(b, depth)) == x + Meetings(a[1..], depth) + Meetings(b, depth);
    }
  }

  lemma MeetingsSnoc(ms: seq<Msg>, i: nat, depth: nat)
    requires i < |ms| && depth <= MAX_DEPTH
    ensures Meetings(ms[..i + 1], depth) == Meetings(ms[..i], depth) + MeetingsOf(ms[i], depth)
  {
    hide MeetingsOf;
    assert ms[..i + 1] == ms[..i] + [ms[i]];
    MeetingsAppend(ms[..i], [ms[i]], depth);
    assert Meetings([ms[i]][1..], depth) == [];
    assert MeetingsOf(ms[i], depth) + [] == MeetingsOf(ms[i], depth);
  }

  /** handleMsgs: every leaf is called for once, from left to right, until something fails. */
  method HandleMsgs<C>(cbs: seq<Callback<C>>, ctx: C, ms: seq<Msg>, depth: nat) returns (w: Walk<C>)
    requires depth <= MAX_DEPTH
    ensures w == CallOver(cbs, ctx, Meetings(ms, depth))
    decreases MAX_DEPTH - depth, 1
  {
    hide Meetings, MeetingsOf, CallOver;
    w := Walk(ctx, true);
    NoMeetings(cbs, ctx, depth);
    assert ms[..0] == [];
    for i := 0 to |ms|
      invariant w.ok && w == CallOver(cbs, ctx, Meetings(ms[..i], depth))
    {
      MeetingsSnoc(ms, i, depth);
      CallOverAppend(cbs, ctx, Meetings(ms[..i], depth), MeetingsOf(ms[i], depth));
      w := HandleMsg(cbs, w.ctx, ms[i], depth);
      if !w.ok {
        assert ms == ms[..i + 1] + ms[i + 1..];
        MeetingsAppend(ms[..i + 1], ms[i + 1..], depth);
        CallOverAppend(cbs, ctx, Meetings(ms[..i + 1], depth), Meetings(ms[i + 1..], depth));
        return;
      }
    }
    assert ms[..|ms|] == ms;
  }

  lemma NoMeetings<C>(cbs: seq<Callback<C>>, ctx: C, depth: nat)
    requires depth <= MAX_DEPTH
    ensures CallOver(cbs, ctx, Meetings([], depth)) == Walk(ctx, true)
  {
  }

  /** handleMsg. */
  method HandleMsg<C>(cbs: seq<Callback<C>>, ctx: C, m: Msg, depth: nat) returns (w: Walk<C>)
    requires depth <= MAX_DEPTH
    ensures w == CallOver(cbs, ctx, MeetingsOf(m, depth))
    decreases MAX_DEPTH - depth, 0
  {
    if depth >= MAX_DEPTH { return Walk(ctx, false); }
    if m.Wrapper? && m.inner.None? { return Walk(ctx, false); }
    var inner := if m.Wrapper? then m.inner.value else [];
    if |inner| > 0 {
      w := HandleMsgs(cbs, ctx, inner, depth + 1);
      return;
    }
    w := Walk(ctx, true);
    for i := 0 to |cbs|
      invariant w.ok && CallAll(cbs, ctx, m, depth) == CallAll(cbs[i..], w.ctx, m, depth)
    {
      var (c, ok) := cbs[i](w.ctx, m, depth);
      w := Walk(c, ok);
      if !ok { break; }
      assert cbs[i..][1..] == cbs[i + 1..];
    }
    LeafOver(cbs, ctx, m, depth);
  }

  lemma LeafOver<C>(cbs: seq<Callback<C>>, ctx: C, m: Msg, depth: nat)
    ensures CallOver(cbs, ctx, [AtLeaf(m, depth)]) == CallAll(cbs, ctx, m, depth)
  {
    hide CallAll;
    var vs := [AtLeaf(m, depth)];
    assert vs[1..] == [];
  }

  // ---------------------------------------------------------------- the two together

  /** A tree the filter accepts never stops the decorator: only a callback can. */
  lemma {:induction false} AcceptedNeverStops(rules: seq<Rule>, ms: seq<Msg>, depth: nat, v: Meeting)
    requires depth <= MAX_DEPTH && EveryNodeOk(rules, ms, depth) && v in Meetings(ms, depth)
    ensures v.AtLeaf? && NodeOk(rules, v.m, v.depth)
    decreases MAX_DEPTH - depth, |ms|
  {
    hide EveryNodeOk, NodeOk;
    EveryNodeStep(rules, ms, depth);
    assert ms != [] ==> NodeOk(rules, ms[0], depth) && EveryNodeOk(rules, Inner(ms[0]), depth + 1);
    NodeIsOpen(rules, ms, depth);
    if v in MeetingsOf(ms[0], depth) {
      if Inner(ms[0]) != [] { AcceptedNeverStops(rules, Inner(ms[0]), depth + 1, v); }
    } else {
      EveryNodeStep(rules, ms[1..], depth);
      AcceptedNeverStops(rules, ms[1..], depth, v);
    }
  }

  lemma NodeIsOpen(rules: seq<Rule>, ms: seq<Msg>, depth: nat)
    ensures forall m :: NodeOk(rules, m, depth) ==> depth < MAX_DEPTH && (m.Wrapper? ==> m.inner.Some?)
  {
  }
}
