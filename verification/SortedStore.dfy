/** A key-value store as a map, and the order in which an iterator visits it. */
module SortedStore {
  import opened Bytes

  predicate Ascending(ks: seq<bytes>) {
    forall i, j :: 0 <= i < j < |ks| ==> Less(ks[i], ks[j])
  }

  predicate IsLeast(m: bytes, s: set<bytes>) {
    m in s && forall k :: k in s && k != m ==> Less(m, k)
  }

  lemma {:induction false} LeastExists(s: set<bytes>)
    requires s != {}
    ensures exists m :: IsLeast(m, s)
    decreases |s|
  {
    var x :| x in s;
    var rest := s - {x};
    if rest == {} {
      assert s == {x};
      assert IsLeast(x, s);
    } else {
      LeastExists(rest);
      var m :| IsLeast(m, rest);
      LessTotal(x, m);
      if Less(x, m) {
        forall k | k in s && k != x ensures Less(x, k) {
          if k != m { LessTransitive(x, m, k); }
        }
        assert IsLeast(x, s);
      } else {
        assert IsLeast(m, s);
      }
    }
  }

  lemma LeastIsUnique(a: bytes, b: bytes, s: set<bytes>)
    requires IsLeast(a, s) && IsLeast(b, s)
    ensures a == b
  {
    if a != b { LessTransitive(a, b, a); LessIrreflexive(a); }
  }

  function Least(s: set<bytes>): (m: bytes)
    requires s != {}
    ensures IsLeast(m, s)
  {
    LeastExists(s);
    assert forall a, b :: IsLeast(a, s) && IsLeast(b, s) ==> a == b by {
      forall a, b | IsLeast(a, s) && IsLeast(b, s) ensures a == b { LeastIsUnique(a, b, s); }
    }
    var m :| IsLeast(m, s);
    m
  }

  /** The keys in iteration order. */
  function Keys(s: set<bytes>): (ks: seq<bytes>)
    ensures Ascending(ks)
    ensures forall k :: k in ks <==> k in s
    ensures |ks| == |s|
    decreases |s|
  {
    if s == {} then [] else
    var m := Least(s);
    var rest := Keys(s - {m});
    assert forall k :: k in rest ==> Less(m, k);
    [m] + rest
  }

  lemma AscendingDistinct(ks: seq<bytes>, i: nat, j: nat)
    requires Ascending(ks) && i < |ks| && j < |ks| && ks[i] == ks[j]
    ensures i == j
  {
    LessIrreflexive(ks[i]);
  }

  /** The iteration order is determined by the set of keys. */
  lemma {:induction false} AscendingUnique(a: seq<bytes>, b: seq<bytes>)
    requires Ascending(a) && Ascending(b)
    requires forall k :: k in a <==> k in b
    ensures a == b
  {
    assert b != [] ==> b[0] in a;
    if a != [] {
      assert a[0] in b;
      var i :| 0 <= i < |b| && b[i] == a[0];
      var j :| 0 <= j < |a| && a[j] == b[0];
      if i > 0 {
        assert Less(b[0], a[0]);
        if j > 0 { assert Less(a[0], b[0]); LessTransitive(a[0], b[0], a[0]); LessIrreflexive(a[0]); }
        LessIrreflexive(a[0]);
      }
      assert a[0] == b[0];
      forall k ensures k in a[1..] <==> k in b[1..] {
        if k in a[1..] { TailExcludesHead(a); assert k in a; }
        if k in b[1..] { TailExcludesHead(b); assert k in b; }
        assert a == [a[0]] + a[1..] && b == [b[0]] + b[1..];
      }
      AscendingUnique(a[1..], b[1..]);
      assert a == [a[0]] + a[1..] && b == [b[0]] + b[1..];
    }
  }

  lemma TailExcludesHead(a: seq<bytes>)
    requires Ascending(a) && a != []
    ensures a[0] !in a[1..]
  {
    if a[0] in a[1..] {
      var i :| 0 <= i < |a[1..]| && a[1..][i] == a[0];
      AscendingDistinct(a, 0, i + 1);
    }
  }

  /** Keys an iterator over [start, end) visits, in order. */
  function RangeKeys(s: set<bytes>, start: bytes, end: Option<bytes>): (ks: seq<bytes>)
    ensures Ascending(ks)
    ensures forall k :: k in ks <==> k in s && InRange(k, start, end)
  {
    Keys(set k | k in s && InRange(k, start, end))
  }

  function Filter<T(!new)>(xs: seq<T>, f: T -> bool): (ys: seq<T>)
    ensures forall x :: x in ys <==> x in xs && f(x)
    ensures |ys| <= |xs|
  {
    if xs == [] then []
    else (if f(xs[0]) then [xs[0]] else []) + Filter(xs[1..], f)
  }

  lemma {:induction false} FilterAppend<T(!new)>(xs: seq<T>, ys: seq<T>, f: T -> bool)
    ensures Filter(xs + ys, f) == Filter(xs, f) + Filter(ys, f)
  {
    if xs == [] {
      assert xs + ys == ys;
    } else {
      assert (xs + ys)[1..] == xs[1..] + ys;
      FilterAppend(xs[1..], ys, f);
    }
  }
}
