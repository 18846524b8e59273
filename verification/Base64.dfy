/** Standard base64, section 4 of RFC 4648: the encoder, the decoder, and which texts these are. */
module Base64 {
  import opened Bytes
  import opened SortedStore
  import opened Packets

  const PAD: byte := 61

  function Sym(v: nat): (c: byte)
    requires v < 64
    ensures c != PAD && !IsBreak(c) && Val(c) == Some(v)
  {
    if v < 26 then 65 + v else if v < 52 then 71 + v else if v < 62 then v - 4 else if v == 62 then 43 else 47
  }

  function Val(c: byte): (v: Option<nat>)
    ensures v.Some? ==> v.value < 64
    ensures c == PAD ==> v.None?
  {
    if 65 <= c <= 90 then Some(c - 65)
    else if 97 <= c <= 122 then Some(c - 71)
    else if 48 <= c <= 57 then Some(c + 4)
    else if c == 43 then Some(62)
    else if c == 47 then Some(63)
    else None
  }

  predicate IsBreak(c: byte) { c == 10 || c == 13 }

  /** Three bytes as four symbols; a short last group is filled up with zero bits and padding. */
  function Group(x: byte, y: byte, z: byte): (g: Text)
    ensures |g| == 4
    ensures forall i :: 0 <= i < 4 ==> Val(g[i]).Some? && !IsBreak(g[i])
  {
    [Sym(x / 4), Sym(x % 4 * 16 + y / 16), Sym(y % 16 * 4 + z / 64), Sym(z % 64)]
  }

  /** EncodePacketKey. */
  function Encode(k: bytes): (t: Text)
    ensures |t| % 4 == 0
    ensures t == [] <==> k == []
  {
    if k == [] then []
    else if |k| == 1 then Group(k[0], 0, 0)[..2] + [PAD, PAD]
    else if |k| == 2 then Group(k[0], k[1], 0)[..3] + [PAD]
    else Group(k[0], k[1], k[2]) + Encode(k[3..])
  }

  /** Line breaks are skipped anywhere. */
  function Strip(t: Text): (u: Text) {
    if t == [] then [] else if IsBreak(t[0]) then Strip(t[1..]) else [t[0]] + Strip(t[1..])
  }

  function Byte0(a: nat, b: nat): (r: byte) requires a < 64 && b < 64 { a * 4 + b / 16 }
  function Byte1(b: nat, c: nat): (r: byte) requires b < 64 && c < 64 { b % 16 * 16 + c / 4 }
  function Byte2(c: nat, d: nat): (r: byte) requires c < 64 && d < 64 { c % 4 * 64 + d }

  /** Groups of four; padding only closes the last one, and the bits it leaves over are not looked at. */
  function DecodeGroups(t: Text): (k: Option<bytes>) {
    if t == [] then Some([])
    else if |t| < 4 || Val(t[0]).None? || Val(t[1]).None? then None
    else
      var a, b := Val(t[0]).value, Val(t[1]).value;
      if |t| == 4 && t[3] == PAD then
        if t[2] == PAD then Some([Byte0(a, b)])
        else if Val(t[2]).None? then None
        else Some([Byte0(a, b), Byte1(b, Val(t[2]).value)])
      else if Val(t[2]).None? || Val(t[3]).None? then None
      else
        var c, d := Val(t[2]).value, Val(t[3]).value;
        var rest := DecodeGroups(t[4..]);
        if rest.None? then None else Some([Byte0(a, b), Byte1(b, c), Byte2(c, d)] + rest.value)
  }

  /** StdEncoding.DecodeString. */
  function Decode(t: Text): (k: Option<bytes>) { DecodeGroups(Strip(t)) }

  // ---------------------------------------------------------------- round trip

  lemma {:induction false} EncodeHasNoBreaks(k: bytes)
    ensures Strip(Encode(k)) == Encode(k)
  {
    if |k| >= 3 {
      EncodeHasNoBreaks(k[3..]);
      StripSymbols(Encode(k)[..4], Encode(k[3..]));
      assert Encode(k) == Encode(k)[..4] + Encode(k[3..]);
    } else {
      StripSymbols(Encode(k), []);
      assert Encode(k) + [] == Encode(k);
    }
  }

  lemma {:induction false} StripSymbols(x: Text, t: Text)
    requires forall i :: 0 <= i < |x| ==> !IsBreak(x[i])
    ensures Strip(x + t) == x + Strip(t)
  {
    if x == [] {
      assert x + t == t;
    } else {
      assert (x + t)[1..] == x[1..] + t;
      StripSymbols(x[1..], t);
    }
  }

  lemma GroupBytes(x: byte, y: byte, z: byte)
    ensures var g := Group(x, y, z);
            var a, b, c, d := Val(g[0]).value, Val(g[1]).value, Val(g[2]).value, Val(g[3]).value;
            Byte0(a, b) == x && Byte1(b, c) == y && Byte2(c, d) == z
  {
    hide Sym, Val;
  }

  lemma {:induction false} GroupsOfEncode(k: bytes)
    ensures DecodeGroups(Encode(k)) == Some(k)
  {
    hide Group, Val, Byte0, Byte1, Byte2;
    if |k| >= 3 {
      GroupBytes(k[0], k[1], k[2]);
      GroupsOfEncode(k[3..]);
      assert Encode(k)[4..] == Encode(k[3..]);
      assert k == [k[0], k[1], k[2]] + k[3..];
    } else if |k| == 2 {
      GroupBytes(k[0], k[1], 0);
      assert k == [k[0], k[1]];
    } else if |k| == 1 {
      GroupBytes(k[0], 0, 0);
      assert k == [k[0]];
    }
  }

  /** Every byte string survives base64. */
  lemma DecodeEncode(k: bytes)
    ensures Decode(Encode(k)) == Some(k)
  {
    EncodeHasNoBreaks(k);
    GroupsOfEncode(k);
  }

  // ---------------------------------------------------------------- what base64 is

  /** Table 1 of RFC 4648, and the padding. */
  const UPPER: string := "ABCDEFGHIJKLMNOPQRSTUVWXYZ"
  const LOWER: string := "abcdefghijklmnopqrstuvwxyz"
  const DIGITS: string := "0123456789"
  const ALPHABET: string := UPPER + LOWER + DIGITS + "+/"

  predicate Digit(c: byte, v: nat) { v < |ALPHABET| && c == ALPHABET[v] as int }

  predicate Padding(c: byte) { c == '=' as int }

  lemma UpperCode(v: nat)
    requires v < 26
    ensures |UPPER| == 26 && UPPER[v] as int == 65 + v
  {
  }

  lemma LowerCode(v: nat)
    requires v < 26
    ensures |LOWER| == 26 && LOWER[v] as int == 97 + v
  {
  }

  lemma DigitCode(v: nat)
    requires v < 10
    ensures |DIGITS| == 10 && DIGITS[v] as int == 48 + v
  {
  }

  lemma AlphabetParts()
    ensures |UPPER| == 26 && |LOWER| == 26 && |DIGITS| == 10 && |ALPHABET| == 64
    ensures forall v :: 0 <= v < 26 ==> ALPHABET[v] == UPPER[v]
    ensures forall v :: 26 <= v < 52 ==> ALPHABET[v] == LOWER[v - 26]
    ensures forall v :: 52 <= v < 62 ==> ALPHABET[v] == DIGITS[v - 52]
    ensures ALPHABET[62] == '+' && ALPHABET[63] == '/'
  {
    UpperCode(0);
    LowerCode(0);
    DigitCode(0);
  }

  /** The encoder's symbols are the alphabet's, and the decoder reads exactly these. */
  lemma SymbolIs(v: nat)
    requires v < 64
    ensures Digit(Sym(v), v)
  {
    AlphabetParts();
    if v < 26 { UpperCode(v); } else if v < 52 { LowerCode(v - 26); } else if v < 62 { DigitCode(v - 52); }
  }

  lemma DigitIsVal(c: byte, v: nat)
    ensures Digit(c, v) <==> Val(c) == Some(v)
  {
    AlphabetParts();
    hide ALPHABET;
    if v < 64 { SymbolIs(v); }
    if Val(c) == Some(v) { assert Sym(v) == c; }
  }

  /** Six bits to a symbol, most significant first. */
  ghost predicate FullGroup(x: byte, y: byte, z: byte, g: Text) {
    exists a: nat, b: nat, c: nat, d: nat ::
      && |g| == 4 && Digit(g[0], a) && Digit(g[1], b) && Digit(g[2], c) && Digit(g[3], d)
      && x * 65536 + y * 256 + z == a * 262144 + b * 4096 + c * 64 + d
  }

  /** Two bytes in three symbols; the last one has two bits left over. */
  ghost predicate PairGroup(x: byte, y: byte, g: Text, spare: nat) {
    exists a: nat, b: nat, c: nat ::
      && |g| == 4 && Digit(g[0], a) && Digit(g[1], b) && Digit(g[2], c) && Padding(g[3])
      && (x * 256 + y) * 4 + spare == a * 4096 + b * 64 + c && spare < 4
  }

  /** One byte in two symbols; the last one has four bits left over. */
  ghost predicate LoneGroup(x: byte, g: Text, spare: nat) {
    exists a: nat, b: nat ::
      && |g| == 4 && Digit(g[0], a) && Digit(g[1], b) && Padding(g[2]) && Padding(g[3])
      && x * 16 + spare == a * 64 + b && spare < 16
  }

  /** The text of a byte string. The bits left over are zero, but a reader need not mind them. */
  ghost predicate IsBase64(k: bytes, t: Text, strict: bool)
    decreases |k|
  {
    if k == [] then t == []
    else if |k| == 1 then exists spare: nat :: LoneGroup(k[0], t, spare) && (strict ==> spare == 0)
    else if |k| == 2 then exists spare: nat :: PairGroup(k[0], k[1], t, spare) && (strict ==> spare == 0)
    else |t| >= 4 && FullGroup(k[0], k[1], k[2], t[..4]) && IsBase64(k[3..], t[4..], strict)
  }

  lemma FullGroupIs(x: byte, y: byte, z: byte, g: Text)
    ensures FullGroup(x, y, z, g) <==>
              && |g| == 4 && Val(g[0]).Some? && Val(g[1]).Some? && Val(g[2]).Some? && Val(g[3]).Some?
              && x == Byte0(Val(g[0]).value, Val(g[1]).value) && y == Byte1(Val(g[1]).value, Val(g[2]).value)
              && z == Byte2(Val(g[2]).value, Val(g[3]).value)
  {
    hide Val, Digit;
    forall c: byte, v: nat ensures Digit(c, v) <==> Val(c) == Some(v) { DigitIsVal(c, v); }
  }

  lemma PairGroupIs(x: byte, y: byte, g: Text)
    ensures (exists spare: nat :: PairGroup(x, y, g, spare)) <==>
              && |g| == 4 && Val(g[0]).Some? && Val(g[1]).Some? && Val(g[2]).Some? && g[3] == PAD
              && x == Byte0(Val(g[0]).value, Val(g[1]).value) && y == Byte1(Val(g[1]).value, Val(g[2]).value)
  {
    hide Val, Digit;
    forall c: byte, v: nat ensures Digit(c, v) <==> Val(c) == Some(v) { DigitIsVal(c, v); }
    if |g| == 4 && Val(g[0]).Some? && Val(g[1]).Some? && Val(g[2]).Some? && g[3] == PAD
       && x == Byte0(Val(g[0]).value, Val(g[1]).value) && y == Byte1(Val(g[1]).value, Val(g[2]).value) {
      assert PairGroup(x, y, g, Val(g[2]).value % 4);
    }
  }

  lemma LoneGroupIs(x: byte, g: Text)
    ensures (exists spare: nat :: LoneGroup(x, g, spare)) <==>
              && |g| == 4 && Val(g[0]).Some? && Val(g[1]).Some? && g[2] == PAD && g[3] == PAD
              && x == Byte0(Val(g[0]).value, Val(g[1]).value)
  {
    hide Val, Digit;
    forall c: byte, v: nat ensures Digit(c, v) <==> Val(c) == Some(v) { DigitIsVal(c, v); }
    if |g| == 4 && Val(g[0]).Some? && Val(g[1]).Some? && g[2] == PAD && g[3] == PAD
       && x == Byte0(Val(g[0]).value, Val(g[1]).value) {
      assert LoneGroup(x, g, Val(g[1]).value % 16);
    }
  }

  lemma {:induction false} GroupsAre(t: Text, k: bytes)
    ensures DecodeGroups(t) == Some(k) <==> IsBase64(k, t, false)
    decreases |t|
  {
    hide Val, Byte0, Byte1, Byte2, FullGroup, PairGroup, LoneGroup;
    if |k| == 1 {
      LoneGroupIs(k[0], t);
      assert k == [k[0]];
    } else if |k| == 2 {
      PairGroupIs(k[0], k[1], t);
      assert k == [k[0], k[1]];
    } else if |k| >= 3 && |t| >= 4 {
      FullGroupIs(k[0], k[1], k[2], t[..4]);
      GroupsAre(t[4..], k[3..]);
      assert k == [k[0], k[1], k[2]] + k[3..];
    }
  }

  lemma {:induction false} StripIsFilter(t: Text)
    ensures Strip(t) == Filter(t, (c: byte) => c != '\n' as int && c != '\r' as int)
  {
    if t != [] { StripIsFilter(t[1..]); }
  }

  /** The decoder accepts exactly base64, whatever the bits left over, with line breaks anywhere. */
  lemma DecodeExactly(t: Text, k: bytes)
    ensures Decode(t) == Some(k) <==>
              IsBase64(k, Filter(t, (c: byte) => c != '\n' as int && c != '\r' as int), false)
  {
    hide IsBase64, DecodeGroups;
    StripIsFilter(t);
    GroupsAre(Strip(t), k);
  }

  lemma LastDigit(p: nat, d: nat, q: nat, e: nat)
    requires d < 64 && e < 64 && p * 64 + d == q * 64 + e
    ensures p == q && d == e
  {
  }

  /** A number has one expansion in base 64. */
  lemma SameDigits(a: nat, b: nat, c: nat, d: nat, a': nat, b': nat, c': nat, d': nat)
    requires b < 64 && c < 64 && d < 64 && b' < 64 && c' < 64 && d' < 64
    requires a * 262144 + b * 4096 + c * 64 + d == a' * 262144 + b' * 4096 + c' * 64 + d'
    ensures a == a' && b == b' && c == c' && d == d'
  {
    LastDigit(a * 4096 + b * 64 + c, d, a' * 4096 + b' * 64 + c', d');
    LastDigit(a * 64 + b, c, a' * 64 + b', c');
    LastDigit(a, b, a', b');
  }

  /** The digits of three bytes. */
  lemma GroupBits(x: byte, y: byte, z: byte)
    ensures x * 65536 + y * 256 + z ==
              x / 4 * 262144 + (x % 4 * 16 + y / 16) * 4096 + (y % 16 * 4 + z / 64) * 64 + z % 64
  {
    assert x == x / 4 * 4 + x % 4 && y == y / 16 * 16 + y % 16 && z == z / 64 * 64 + z % 64;
  }

  lemma PairBits(x: byte, y: byte)
    ensures (x * 256 + y) * 4 == x / 4 * 4096 + (x % 4 * 16 + y / 16) * 64 + y % 16 * 4
    ensures x * 16 == x / 4 * 64 + x % 4 * 16
  {
    assert x == x / 4 * 4 + x % 4 && y == y / 16 * 16 + y % 16;
  }

  lemma AllDigits()
    ensures forall c: byte, v: nat :: Digit(c, v) <==> v < 64 && c == Sym(v)
  {
    hide Digit, Sym;
    forall c: byte, v: nat ensures Digit(c, v) <==> v < 64 && c == Sym(v) {
      DigitIsVal(c, v);
      if v < 64 { SymbolIsOnly(c, v); }
    }
  }

  lemma GroupIsFull(x: byte, y: byte, z: byte, g: Text)
    ensures FullGroup(x, y, z, g) <==> g == Group(x, y, z)
  {
    hide Digit, Sym;
    AllDigits();
    GroupBits(x, y, z);
    var n := x * 65536 + y * 256 + z;
    if FullGroup(x, y, z, g) {
      var a: nat, b: nat, c: nat, d: nat :|
        && |g| == 4 && Digit(g[0], a) && Digit(g[1], b) && Digit(g[2], c) && Digit(g[3], d)
        && n == a * 262144 + b * 4096 + c * 64 + d;
      SameDigits(a, b, c, d, x / 4, x % 4 * 16 + y / 16, y % 16 * 4 + z / 64, z % 64);
    }
    if g == Group(x, y, z) {
      assert Digit(g[0], x / 4) && Digit(g[1], x % 4 * 16 + y / 16);
      assert Digit(g[2], y % 16 * 4 + z / 64) && Digit(g[3], z % 64);
    }
  }

  /** The three symbols of two bytes. */
  lemma PairIs(x: byte, y: byte)
    ensures Group(x, y, 0)[..3] + [PAD] == [Sym(x / 4), Sym(x % 4 * 16 + y / 16), Sym(y % 16 * 4), PAD]
  {
    hide Sym;
  }

  lemma GroupIsPair(x: byte, y: byte, g: Text)
    ensures PairGroup(x, y, g, 0) <==> g == Group(x, y, 0)[..3] + [PAD]
  {
    hide Digit, Sym, Group;
    AllDigits();
    PairBits(x, y);
    PairIs(x, y);
    var a', b', c' := x / 4, x % 4 * 16 + y / 16, y % 16 * 4;
    if PairGroup(x, y, g, 0) {
      var a: nat, b: nat, c: nat :|
        && |g| == 4 && Digit(g[0], a) && Digit(g[1], b) && Digit(g[2], c) && Padding(g[3])
        && (x * 256 + y) * 4 == a * 4096 + b * 64 + c;
      SameDigits(0, a, b, c, 0, a', b', c');
    }
    if g == [Sym(a'), Sym(b'), Sym(c'), PAD] { assert Digit(g[0], a') && Digit(g[1], b') && Digit(g[2], c'); }
  }

  lemma GroupIsLone(x: byte, g: Text)
    ensures LoneGroup(x, g, 0) <==> g == Group(x, 0, 0)[..2] + [PAD, PAD]
  {
    hide Digit, Sym;
    AllDigits();
    PairBits(x, 0);
    if LoneGroup(x, g, 0) {
      var a: nat, b: nat :|
        && |g| == 4 && Digit(g[0], a) && Digit(g[1], b) && Padding(g[2]) && Padding(g[3]) && x * 16 == a * 64 + b;
      SameDigits(0, 0, a, b, 0, 0, x / 4, x % 4 * 16);
    }
    if g == Group(x, 0, 0)[..2] + [PAD, PAD] { assert Digit(g[0], x / 4) && Digit(g[1], x % 4 * 16); }
  }

  lemma SymbolIsOnly(c: byte, v: nat)
    requires v < 64
    ensures Digit(c, v) <==> c == Sym(v)
  {
    hide ALPHABET;
    SymbolIs(v);
  }

  /** The encoder's text of a byte string is its base64, and there is no other with zero bits left over. */
  lemma {:induction false} EncodeExactly(k: bytes, t: Text)
    ensures t == Encode(k) <==> IsBase64(k, t, true)
    decreases |k|
  {
    hide FullGroup, PairGroup, LoneGroup, Group;
    if |k| == 1 {
      GroupIsLone(k[0], t);
    } else if |k| == 2 {
      GroupIsPair(k[0], k[1], t);
    } else if |k| >= 3 {
      if |t| >= 4 {
        GroupIsFull(k[0], k[1], k[2], t[..4]);
        EncodeExactly(k[3..], t[4..]);
        assert t == t[..4] + t[4..];
      }
      assert Encode(k)[..4] == Group(k[0], k[1], k[2]) && Encode(k)[4..] == Encode(k[3..]);
    }
  }
}
