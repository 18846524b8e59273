/** Protocol-buffer varints: base 128, low digits first, at most ten bytes, 64-bit arithmetic. */
module Varint {
  import opened Bytes

  const MAX_BYTES := 10

  function Encode(v: nat): (r: bytes)
    ensures |r| >= 1
  {
    if v < 128 then [v] else [v % 128 + 128] + Encode(v / 128)
  }

  /** bits.Len64. */
  function Len64(x: nat): (n: nat) { if x == 0 then 0 else 1 + Len64(x / 2) }

  function OrOne(x: nat): nat { if x % 2 == 0 then x + 1 else x }

  /** The size the generated code reserves for a varint. */
  function Sov(x: nat): (n: nat) { (Len64(OrOne(x)) + 6) / 7 }

  /** The number a byte string spells. */
  function Value(s: bytes): (v: nat) { if s == [] then 0 else s[0] % 128 + 128 * Value(s[1..]) }

  /** The bytes of the varint at the front, within a budget. */
  function Extent(s: bytes, budget: nat): (n: Option<nat>)
    ensures n.Some? ==> 1 <= n.value <= |s| && n.value <= budget
    decreases budget
  {
    if budget == 0 || s == [] then None
    else if s[0] < 128 then Some(1)
    else var n := Extent(s[1..], budget - 1); if n.None? then None else Some(n.value + 1)
  }

  datatype Number = Number(value: u64, size: nat)

  /** The varint at the front of a byte string; None when it does not end or is too long. */
  function Read(s: bytes): (r: Option<Number>)
    ensures r.Some? ==> 1 <= r.value.size <= |s|
  {
    var n := Extent(s, MAX_BYTES);
    if n.None? then None else Some(Number(Value(s[..n.value]) % U64_SIZE, n.value))
  }

  function Pow128(k: nat): (r: nat)
    ensures r > 0
  {
    if k == 0 then 1 else 128 * Pow128(k - 1)
  }

  function Pow2(n: nat): (r: nat)
    ensures r > 0
  {
    if n == 0 then 1 else 2 * Pow2(n - 1)
  }

  // ---------------------------------------------------------------- writing

  lemma {:induction false} LenOrOne(y: nat)
    requires y >= 1
    ensures Len64(OrOne(y)) == Len64(y)
  {
    assert OrOne(y) / 2 == y / 2;
  }

  lemma LenShift(y: nat)
    requires y >= 128
    ensures Len64(y) == 7 + Len64(y / 128)
  {
    assert Len64(y) == 1 + Len64(y / 2);
    assert Len64(y / 2) == 1 + Len64(y / 2 / 2);
    assert Len64(y / 4) == 1 + Len64(y / 4 / 2);
    assert Len64(y / 8) == 1 + Len64(y / 8 / 2);
    assert Len64(y / 16) == 1 + Len64(y / 16 / 2);
    assert Len64(y / 32) == 1 + Len64(y / 32 / 2);
    assert Len64(y / 64) == 1 + Len64(y / 64 / 2);
    assert y / 2 / 2 == y / 4 && y / 4 / 2 == y / 8 && y / 8 / 2 == y / 16;
    assert y / 16 / 2 == y / 32 && y / 32 / 2 == y / 64 && y / 64 / 2 == y / 128;
  }

  lemma LenSmall(y: nat)
    requires 1 <= y < 128
    ensures 1 <= Len64(y) <= 7
  {
    var n := y;
    ghost var k, bound := 0, 128;
    while n > 0
      invariant Len64(y) == k + Len64(n)
      invariant 0 <= k <= 7 && n < bound && (y > 0 && k == 0 ==> n == y)
      invariant bound == if k == 0 then 128 else if k == 1 then 64 else if k == 2 then 32 else if k == 3 then 16
                         else if k == 4 then 8 else if k == 5 then 4 else if k == 6 then 2 else 1
    {
      n := n / 2;
      k := k + 1;
      bound := bound / 2;
    }
  }

  /** The reserved size is the size. */
  lemma {:induction false} SovIsLength(v: nat)
    ensures |Encode(v)| == Sov(v)
  {
    hide Len64;
    LenSmallOr(v);
    if v >= 128 {
      SovIsLength(v / 128);
      LenOrOne(v);
      LenShift(v);
      LenOrOne(v / 128);
    }
  }

  lemma LenSmallOr(v: nat)
    ensures v < 128 ==> 1 <= Len64(OrOne(v)) <= 7
  {
    if v < 128 { LenSmall(OrOne(v)); }
  }

  lemma EncodeStep(x: nat)
    ensures Encode(x) == if x < 128 then [x] else [x % 128 + 128] + Encode(x / 128)
  {
  }

  /** A buffer with the bytes between two offsets replaced. */
  function Splice(s: bytes, from: nat, b: bytes, to: nat): (r: bytes)
    requires from <= to <= |s|
    ensures |b| == to - from ==> |r| == |s|
  {
    s[..from] + b + s[to..]
  }

  lemma SpliceByte(s: bytes, from: nat, done: bytes, at: nat, d: byte)
    requires from <= at < |s| && |done| == at - from
    ensures Splice(s, from, done, at)[at := d] == Splice(s, from, done + [d], at + 1)
  {
  }

  lemma SpliceTwice(s: bytes, start: nat, t: bytes, from: nat, b: bytes, to: nat)
    requires start <= from <= to <= |s| && |t| == from - start && |b| == to - from
    ensures Splice(Splice(s, from, b, to), start, t, from) == Splice(s, start, t + b, to)
  {
    var r := Splice(s, from, b, to);
    assert r[..start] == s[..start] && r[from..] == b + s[to..];
  }

  /** encodeVarint: writes the number so that it ends at an offset, and nothing else. */
  method EncodeAt(buf: array<byte>, offset: nat, v: u64) returns (start: nat)
    requires Sov(v) <= offset <= buf.Length
    modifies buf
    ensures start == offset - Sov(v) && |Encode(v)| == Sov(v)
    ensures buf[..] == Splice(old(buf[..]), start, Encode(v), offset)
  {
    hide Sov, Encode, Splice;
    SovIsLength(v);
    start := offset - Sov(v);
    var x, at := v, start;
    ghost var before, done: bytes := buf[..], [];
    assert buf[..] == Splice(before, start, done, at) by { SpliceNothing(before, start); }
    while x >= 128
      invariant start <= at && |done| == at - start && at + |Encode(x)| == offset
      invariant buf[..] == Splice(before, start, done, at)
      invariant done + Encode(x) == Encode(v)
      decreases x
    {
      DigitPut(before, start, done, at, x);
      PutByte(buf, at, x % 128 + 128);
      done := done + [x % 128 + 128];
      x := x / 128;
      at := at + 1;
    }
    LastPut(before, start, done, at, x);
    PutByte(buf, at, x);
  }

  method PutByte(buf: array<byte>, at: nat, d: byte)
    requires at < buf.Length
    modifies buf
    ensures buf[..] == old(buf[..])[at := d]
  {
    buf[at] := d;
  }

  /** One digit more, with a continuation bit ... */
  lemma DigitPut(before: bytes, start: nat, done: bytes, at: nat, x: nat)
    requires start <= at && |done| == at - start && at + |Encode(x)| <= |before| && x >= 128
    ensures var d: byte := x % 128 + 128;
            && Splice(before, start, done, at)[at := d] == Splice(before, start, done + [d], at + 1)
            && done + Encode(x) == done + [d] + Encode(x / 128) && |Encode(x)| == 1 + |Encode(x / 128)|
  {
    hide Encode, Splice;
    EncodeStep(x);
    var d: byte := x % 128 + 128;
    SpliceByte(before, start, done, at, d);
    assert done + ([d] + Encode(x / 128)) == done + [d] + Encode(x / 128);
  }

  /** ... and the last one. */
  lemma LastPut(before: bytes, start: nat, done: bytes, at: nat, x: nat)
    requires start <= at < |before| && |done| == at - start && x < 128
    ensures Splice(before, start, done, at)[at := x] == Splice(before, start, done + Encode(x), at + 1)
            && |Encode(x)| == 1
  {
    hide Encode, Splice;
    EncodeStep(x);
    SpliceByte(before, start, done, at, x);
  }

  lemma SpliceNothing(s: bytes, at: nat)
    requires at <= |s|
    ensures Splice(s, at, [], at) == s
  {
  }

  // ---------------------------------------------------------------- reading back

  lemma {:induction false} ReadEncode(v: nat, budget: nat, rest: bytes)
    requires |Encode(v)| <= budget
    ensures Extent(Encode(v) + rest, budget) == Some(|Encode(v)|) && Value(Encode(v)) == v
  {
    if v >= 128 {
      var e := Encode(v);
      assert (e + rest)[1..] == Encode(v / 128) + rest && e[1..] == Encode(v / 128);
      ReadEncode(v / 128, budget - 1, rest);
    }
  }

  lemma {:induction false} EncodeSize(v: nat, k: nat)
    requires v < Pow128(k) && k >= 1
    ensures |Encode(v)| <= k
  {
    if v >= 128 { EncodeSize(v / 128, k - 1); }
  }

  lemma Pow128Of10()
    ensures U64_SIZE == 2 * Pow128(9) && Pow128(10) > U64_SIZE
  {
    assert Pow128(2) == 0x4000;
    assert Pow128(4) == 0x1000_0000;
    assert Pow128(6) == 0x400_0000_0000;
    assert Pow128(8) == 0x100_0000_0000_0000;
  }

  /** Every 64-bit number survives, whatever follows it. */
  lemma RoundTrip(v: u64, rest: bytes)
    ensures Read(Encode(v) + rest) == Some(Number(v, |Encode(v)|))
  {
    Pow128Of10();
    EncodeSize(v, 10);
    ReadEncode(v, MAX_BYTES, rest);
    assert (Encode(v) + rest)[..|Encode(v)|] == Encode(v);
  }

  /** What has been read does not depend on what follows. */
  lemma {:induction false} ExtentIsLocal(s: bytes, rest: bytes, budget: nat)
    requires Extent(s, budget).Some?
    ensures Extent(s + rest, budget) == Extent(s, budget)
    decreases budget
  {
    if s[0] >= 128 {
      assert (s + rest)[1..] == s[1..] + rest;
      ExtentIsLocal(s[1..], rest, budget - 1);
    }
  }

  lemma ReadIsLocal(s: bytes, rest: bytes)
    requires Read(s).Some?
    ensures Read(s + rest) == Read(s)
  {
    ExtentIsLocal(s, rest, MAX_BYTES);
    var n := Extent(s, MAX_BYTES).value;
    assert (s + rest)[..n] == s[..n];
  }

  // ---------------------------------------------------------------- which bytes these are

  /** Every byte but the last has its high bit set, and there is no needless one. */
  predicate Ends(s: bytes) { s != [] && s[|s| - 1] < 128 && forall i :: 0 <= i < |s| - 1 ==> s[i] >= 128 }

  /** A varint holds seven bits of the number to a byte, the low ones first, and has no digit too many. */
  lemma EncodeExactly(v: nat, s: bytes)
    ensures s == Encode(v) <==> Ends(s) && Value(s) == v && (|s| > 1 ==> s[|s| - 1] != 0)
  {
    hide Encode, Value, Ends;
    EncodeIsTight(v);
    if Ends(s) && Value(s) == v && (|s| > 1 ==> s[|s| - 1] != 0) { TightIsUnique(s, Encode(v)); }
  }

  lemma EncodeIsTight(v: nat)
    ensures var s := Encode(v); Ends(s) && Value(s) == v && (|s| > 1 ==> s[|s| - 1] != 0)
  {
    hide Encode, Value, Ends;
    EncodeEnds(v);
    ReadEncode(v, |Encode(v)|, []);
    if v == 0 { EncodeStep(0); }
  }

  lemma {:induction false} EncodeEnds(v: nat)
    ensures Ends(Encode(v)) && (v > 0 ==> Encode(v)[|Encode(v)| - 1] != 0)
  {
    hide Encode;
    EncodeStep(v);
    var s := Encode(v);
    if v >= 128 {
      EncodeEnds(v / 128);
      assert s[1..] == Encode(v / 128) && s[|s| - 1] == s[1..][|s| - 2];
      EndsTail(s);
    }
  }

  /** Two byte strings of one number, without a needless digit, are the same. */
  lemma {:induction false} TightIsUnique(s: bytes, t: bytes)
    requires Ends(s) && (|s| > 1 ==> s[|s| - 1] != 0) && Ends(t) && (|t| > 1 ==> t[|t| - 1] != 0)
    requires Value(s) == Value(t)
    ensures s == t
    decreases |s|
  {
    ValueParts(s);
    ValueParts(t);
    hide Value;
    assert s == [s[0]] + s[1..] && t == [t[0]] + t[1..];
    if |s| > 1 && |t| > 1 {
      EndsTail(s);
      EndsTail(t);
      assert s[1..][|s| - 2] == s[|s| - 1] && t[1..][|t| - 2] == t[|t| - 1];
      TightIsUnique(s[1..], t[1..]);
    } else if |s| > 1 {
      TailIsPositive(s);
    } else if |t| > 1 {
      TailIsPositive(t);
    }
  }

  lemma ValueParts(s: bytes)
    requires s != []
    ensures Value(s) % 128 == s[0] % 128 && Value(s) / 128 == Value(s[1..]) && (|s| == 1 ==> Value(s[1..]) == 0)
  {
  }

  lemma TailIsPositive(s: bytes)
    requires |s| > 1 && Ends(s) && s[|s| - 1] != 0
    ensures Value(s[1..]) > 0
  {
    assert s[1..][|s| - 2] == s[|s| - 1];
    ValueIsPositive(s[1..]);
  }

  lemma EndsTail(s: bytes)
    requires |s| > 1
    ensures Ends(s) <==> s[0] >= 128 && Ends(s[1..])
  {
    var t := s[1..];
    assert forall i :: 0 <= i < |t| ==> t[i] == s[i + 1];
    if s[0] >= 128 && Ends(t) {
      forall i | 0 <= i < |s| - 1 ensures s[i] >= 128 { if i > 0 { assert s[i] == t[i - 1]; } }
    }
  }

  lemma {:induction false} ValueIsPositive(s: bytes)
    requires s != [] && s[|s| - 1] % 128 != 0
    ensures Value(s) > 0
  {
    if |s| > 1 { ValueIsPositive(s[1..]); }
  }

  /** What is read is the shortest run of bytes that ends, of at most ten, and its number in 64 bits. */
  lemma ReadExactly(s: bytes, r: Number)
    ensures Read(s) == Some(r) <==>
              1 <= r.size <= |s| && r.size <= 10 && Ends(s[..r.size]) && r.value == Value(s[..r.size]) % U64_SIZE
  {
    hide Value, Ends;
    if 1 <= r.size <= |s| { ExtentExactly(s, 10, r.size); }
    if Extent(s, 10).Some? { ExtentExactly(s, 10, Extent(s, 10).value); }
  }

  lemma {:induction false} ExtentExactly(s: bytes, budget: nat, n: nat)
    requires 1 <= n <= |s|
    ensures Extent(s, budget) == Some(n) <==> n <= budget && Ends(s[..n])
    decreases budget
  {
    if budget > 0 {
      assert s[..n][0] == s[0];
      if n > 1 {
        ExtentExactly(s[1..], budget - 1, n - 1);
        EndsTail(s[..n]);
        assert s[..n][1..] == s[1..][..n - 1];
      } else if s[0] >= 128 {
        assert Extent(s, budget) != Some(1);
      }
    }
  }

  // ---------------------------------------------------------------- the decoding loop

  lemma {:induction false} ValueSnoc(s: bytes, b: byte)
    ensures Value(s + [b]) == Value(s) + b % 128 * Pow128(|s|)
    ensures Value(s) < Pow128(|s|)
  {
    if s == [] {
      assert s + [b] == [b] && Value([b][1..]) == 0;
    } else {
      assert (s + [b])[1..] == s[1..] + [b];
      ValueSnoc(s[1..], b);
      var w := b % 128;
      assert 128 * (w * Pow128(|s| - 1)) == w * (128 * Pow128(|s| - 1));
    }
  }

  lemma {:induction false} Pow2Is128(k: nat)
    ensures Pow2(7 * k) == Pow128(k)
  {
    if k > 0 {
      Pow2Is128(k - 1);
      Pow2By7(7 * (k - 1));
    }
  }

  lemma Pow2By7(n: nat)
    ensures Pow2(n + 7) == 128 * Pow2(n)
  {
    assert Pow2(n + 7) == 2 * Pow2(n + 6);
    assert Pow2(n + 6) == 2 * Pow2(n + 5);
    assert Pow2(n + 5) == 2 * Pow2(n + 4);
    assert Pow2(n + 4) == 2 * Pow2(n + 3);
    assert Pow2(n + 3) == 2 * Pow2(n + 2);
    assert Pow2(n + 2) == 2 * Pow2(n + 1);
  }

  /** All bytes so far ask for more. */
  predicate Open(s: bytes) { forall i :: 0 <= i < |s| ==> s[i] >= 128 }

  lemma {:induction false} ExtentPast(s: bytes, k: nat, budget: nat)
    requires k <= |s| && k <= budget && Open(s[..k])
    ensures Extent(s, budget) ==
              var n := Extent(s[k..], budget - k);
              if n.None? then None else Some(n.value + k)
  {
    if k == 0 {
      assert s[0..] == s;
    } else {
      assert s[0] == s[..k][0] && s[1..][..k - 1] == s[..k][1..];
      ExtentPast(s[1..], k - 1, budget - 1);
      assert s[1..][k - 1..] == s[k..];
    }
  }

  /** The shift loop of the decoders. A digit lands above all bits read before, so adding it is or-ing it. */
  method Decode(s: bytes, at: nat) returns (r: Option<Number>)
    requires at <= |s|
    ensures r == Read(s[at..])
  {
    hide Value, Extent, Pow2, Pow128;
    ghost var t := s[at..];
    var i, shift, v := at, 0, 0;
    ghost var k := 0;
    assert Value([]) == 0 by { ValueNone(); }
    while true
      invariant 0 <= k <= MAX_BYTES && k <= |t| && i == at + k && shift == 7 * k
      invariant Open(t[..k]) && v == Value(t[..k]) % U64_SIZE
      decreases MAX_BYTES - k
    {
      ExtentPast(t, k, MAX_BYTES);
      if shift >= 64 {
        NoBudget(t[k..]);
        return None;
      }
      if i >= |s| {
        NoBytes(MAX_BYTES - k);
        return None;
      }
      var b := s[i];
      assert b == t[k] && t[k..][0] == b;
      i := i + 1;
      DigitStep(t, k, v);
      v := (v + b % 128 * Pow2(shift) % U64_SIZE) % U64_SIZE;
      if b < 128 {
        OneByte(t[k..], MAX_BYTES - k);
        return Some(Number(v, i - at));
      }
      k := k + 1;
      shift := shift + 7;
    }
  }

  /** One more digit. It lands above all bits read before. */
  lemma DigitStep(t: bytes, k: nat, v: nat)
    requires k < |t| && v == Value(t[..k]) % U64_SIZE
    ensures v < Pow2(7 * k)
    ensures (v + t[k] % 128 * Pow2(7 * k) % U64_SIZE) % U64_SIZE == Value(t[..k + 1]) % U64_SIZE
  {
    hide Value, Pow2, Pow128;
    assert t[..k + 1] == t[..k] + [t[k]];
    ValueSnoc(t[..k], t[k]);
    Pow2Is128(k);
    AddWraps(Value(t[..k]), t[k] % 128 * Pow2(7 * k));
    ModAtMost(Value(t[..k]));
  }

  lemma ModAtMost(a: nat)
    ensures a % U64_SIZE <= a
  {
  }

  lemma ValueNone()
    ensures Value([]) == 0
  {
  }

  lemma NoBudget(s: bytes)
    ensures Extent(s, 0) == None
  {
  }

  lemma NoBytes(budget: nat)
    ensures Extent([], budget) == None
  {
  }

  lemma OneByte(s: bytes, budget: nat)
    requires s != [] && s[0] < 128 && budget > 0
    ensures Extent(s, budget) == Some(1)
  {
  }

  lemma AddWraps(a: nat, b: nat)
    ensures (a % U64_SIZE + b % U64_SIZE) % U64_SIZE == (a + b) % U64_SIZE
  {
  }
}
