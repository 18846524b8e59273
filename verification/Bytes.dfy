/** Byte strings in the store's lexicographic order, the end of a prefix range, and big-endian words.
    Go strings are byte strings too, so identifiers, channels and addresses share the type. */
module Bytes {

  type byte = x: int | 0 <= x < 256
  type bytes = seq<byte>

  const U64_SIZE: int := 0x1_0000_0000_0000_0000
  type u64 = x: int | 0 <= x < U64_SIZE

  const SLASH: byte := 0x2f

  datatype Option<+T> = None | Some(value: T)

  function Take<T>(s: seq<T>, n: nat): (r: seq<T>)
    ensures |r| <= |s| && |r| <= n
  {
    if n <= |s| then s[..n] else s
  }

  /** A word free of a separator ends at the first one. */
  lemma SplitFirst(sep: byte, x: bytes, y: bytes, a: bytes, b: bytes)
    requires sep !in x && sep !in y && x + [sep] + a == y + [sep] + b
    ensures x == y && a == b
  {
    var u, v := x + [sep] + a, y + [sep] + b;
    assert u[|x|] == sep && v[|y|] == sep;
    assert forall i :: 0 <= i < |x| ==> u[i] == x[i];
    assert forall i :: 0 <= i < |y| ==> v[i] == y[i];
    assert x == u[..|x|] && y == v[..|y|] && a == u[|x| + 1..] && b == v[|y| + 1..];
  }

  lemma Cancel(p: bytes, a: bytes, q: bytes, b: bytes)
    requires |p| == |q| && p + a == q + b
    ensures p == q && a == b
  {
    var u, v := p + a, q + b;
    assert p == u[..|p|] && q == v[..|q|] && a == u[|p|..] && b == v[|q|..];
  }

  /** The order in which the key-value store iterates. */
  predicate Less(a: bytes, b: bytes) {
    && b != []
    && (a == [] || a[0] < b[0] || (a[0] == b[0] && Less(a[1..], b[1..])))
  }

  lemma {:induction false} LessIrreflexive(a: bytes)
    ensures !Less(a, a)
  {
    if a != [] { LessIrreflexive(a[1..]); }
  }

  lemma {:induction false} LessTransitive(a: bytes, b: bytes, c: bytes)
    requires Less(a, b) && Less(b, c)
    ensures Less(a, c)
  {
    if a != [] && a[0] == b[0] == c[0] { LessTransitive(a[1..], b[1..], c[1..]); }
  }

  lemma {:induction false} LessTotal(a: bytes, b: bytes)
    ensures Less(a, b) || a == b || Less(b, a)
  {
    if a != [] && b != [] && a[0] == b[0] {
      LessTotal(a[1..], b[1..]);
      assert a == [a[0]] + a[1..] && b == [b[0]] + b[1..];
    }
  }

  /** A common prefix does not influence the order. */
  lemma {:induction false} LessCommonPrefix(p: bytes, a: bytes, b: bytes)
    ensures Less(p + a, p + b) <==> Less(a, b)
  {
    if p == [] {
      assert p + a == a && p + b == b;
    } else {
      LessCommonPrefix(p[1..], a, b);
      assert (p + a)[1..] == p[1..] + a && (p + b)[1..] == p[1..] + b;
    }
  }

  /** For words of equal length the first words decide, then what follows. */
  lemma {:induction false} LessSameLength(x: bytes, y: bytes, a: bytes, b: bytes)
    requires |x| == |y|
    ensures Less(x + a, y + b) <==> Less(x, y) || (x == y && Less(a, b))
  {
    if x == [] {
      assert x + a == a && y + b == b;
    } else {
      LessSameLength(x[1..], y[1..], a, b);
      assert (x + a)[1..] == x[1..] + a && (y + b)[1..] == y[1..] + b;
      assert x == [x[0]] + x[1..] && y == [y[0]] + y[1..];
    }
  }

  /** A proper prefix comes first. */
  lemma LessExtension(p: bytes, a: bytes)
    ensures !Less(p + a, p)
    ensures a != [] ==> Less(p, p + a)
  {
    LessCommonPrefix(p, a, []);
    LessCommonPrefix(p, [], a);
    assert p + [] == p;
  }

  /** Half-open key range of an iterator; no end means the end of the store. */
  predicate InRange(k: bytes, start: bytes, end: Option<bytes>) {
    !Less(k, start) && (end.None? || Less(k, end.value))
  }

  /** The least byte string above everything that starts with p, when there is one. */
  function PrefixEnd(p: bytes): (end: Option<bytes>) {
    if p == [] then None
    else if p[|p| - 1] != 255 then Some(p[..|p| - 1] + [p[|p| - 1] + 1])
    else PrefixEnd(p[..|p| - 1])
  }

  /** The range [p, PrefixEnd(p)) holds exactly the keys that start with p. */
  lemma {:induction false} PrefixEndIsExact(p: bytes, k: bytes)
    ensures InRange(k, p, PrefixEnd(p)) <==> p <= k
    ensures PrefixEnd(p).None? <==> (forall i :: 0 <= i < |p| ==> p[i] == 255)
  {
    hide Less;
    if p == [] {
      NothingBelow(k);
    } else if p[|p| - 1] != 255 {
      LastByteBounds(p, k);
    } else {
      var q := p[..|p| - 1];
      assert p == q + [255];
      PrefixEndIsExact(q, k);
      CarryStep(q, k, PrefixEnd(q));
    }
  }

  lemma NothingBelow(k: bytes)
    ensures !Less(k, [])
  {
  }

  /** A trailing 0xff adds nothing to the end of a range. */
  lemma CarryStep(q: bytes, k: bytes, end: Option<bytes>)
    requires InRange(k, q, end) <==> q <= k
    ensures InRange(k, q + [255], end) <==> q + [255] <= k
  {
    hide Less;
    var p := q + [255];
    assert p[..|p| - 1] == q;
    LastByteBounds(p, k);
    LessExtension(q, [255]);
    if Less(k, q) { LessTransitive(k, q, p); }
    assert p <= k ==> q <= k;
  }

  /** Keys from p upwards either start with p or differ from it, upwards, within its length. */
  lemma {:induction false} LastByteBounds(p: bytes, k: bytes)
    requires p != []
    ensures p <= k ==> !Less(k, p)
    ensures p[|p| - 1] == 255 && p[..|p| - 1] <= k && !Less(k, p) ==> p <= k
    ensures p[|p| - 1] != 255 ==> (p <= k <==> !Less(k, p) && Less(k, p[..|p| - 1] + [p[|p| - 1] + 1]))
  {
    if |p| > 1 && k != [] {
      assert p[1..][..|p| - 2] == p[..|p| - 1][1..];
      if p[0] == k[0] {
        LastByteBounds(p[1..], k[1..]);
        assert p <= k <==> p[1..] <= k[1..] by { assert p == [p[0]] + p[1..] && k == [k[0]] + k[1..]; }
        assert p[..|p| - 1] <= k <==> p[1..][..|p| - 2] <= k[1..] by {
          assert p[..|p| - 1] == [p[0]] + p[1..][..|p| - 2] && k == [k[0]] + k[1..];
        }
        if p[|p| - 1] != 255 {
          var e := p[..|p| - 1] + [p[|p| - 1] + 1];
          assert e[1..] == p[1..][..|p| - 2] + [p[1..][|p| - 2] + 1];
        }
      } else {
        assert !(p <= k) && !(p[..|p| - 1] <= k);
      }
    } else if |p| == 1 && k != [] {
      assert p <= k <==> p[0] == k[0];
    }
  }

  /** The loop of the source: carry through trailing 0xff bytes of a copied buffer. */
  method PrefixEndBytes(prefix: bytes) returns (r: Option<bytes>)
    ensures r == PrefixEnd(prefix)
  {
    if |prefix| == 0 { return None; }
    var end := new byte[|prefix|](i requires 0 <= i < |prefix| => prefix[i]);
    var n := |prefix|;
    assert end[..n] == prefix;
    while true
      invariant 0 < n <= end.Length == |prefix|
      invariant end[..n] == prefix[..n]
      invariant PrefixEnd(prefix) == PrefixEnd(prefix[..n])
      decreases n
    {
      assert prefix[..n][..n - 1] == prefix[..n - 1];
      assert end[n - 1] == end[..n][n - 1] == prefix[..n][n - 1];
      if end[n - 1] != 255 {
        ghost var before := end[..n];
        end[n - 1] := end[n - 1] + 1;
        assert end[..n] == before[..n - 1] + [before[n - 1] + 1];
        return Some(end[..n]);
      }
      n := n - 1;
      assert end[..n] == end[..n + 1][..n];
      if n == 0 { return None; }
    }
  }

  function Pow256(w: nat): (r: nat)
    ensures r > 0
  {
    if w == 0 then 1 else 256 * Pow256(w - 1)
  }

  /** The low w bytes of n, most significant first. */
  function BigEndian(n: nat, w: nat): (r: bytes)
    ensures |r| == w
  {
    if w == 0 then [] else BigEndian(n / 256, w - 1) + [n % 256]
  }

  function Uint64ToBigEndian(n: u64): (r: bytes)
    ensures |r| == 8
  {
    BigEndian(n, 8)
  }

  /** Byte order of fixed-width words is numeric order. */
  lemma {:induction false} BigEndianOrder(a: nat, b: nat, w: nat)
    requires a < Pow256(w) && b < Pow256(w)
    ensures Less(BigEndian(a, w), BigEndian(b, w)) <==> a < b
    ensures BigEndian(a, w) == BigEndian(b, w) <==> a == b
  {
    if w > 0 {
      BigEndianOrder(a / 256, b / 256, w - 1);
      LessSameLength(BigEndian(a / 256, w - 1), BigEndian(b / 256, w - 1), [a % 256], [b % 256]);
      assert Less([a % 256], [b % 256]) <==> a % 256 < b % 256;
      var x, y := BigEndian(a, w), BigEndian(b, w);
      assert x[w - 1] == a % 256 && y[w - 1] == b % 256;
      assert x[..w - 1] == BigEndian(a / 256, w - 1) && y[..w - 1] == BigEndian(b / 256, w - 1);
    }
  }

  lemma Pow256Of8()
    ensures Pow256(8) == U64_SIZE
  {
    assert Pow256(2) == 0x1_0000;
    assert Pow256(4) == 0x1_0000_0000;
    assert Pow256(6) == 0x1_0000_0000_0000;
  }

  lemma Uint64Order(a: u64, b: u64)
    ensures Less(Uint64ToBigEndian(a), Uint64ToBigEndian(b)) <==> a < b
    ensures Uint64ToBigEndian(a) == Uint64ToBigEndian(b) <==> a == b
  {
    Pow256Of8();
    BigEndianOrder(a, b, 8);
  }
}
