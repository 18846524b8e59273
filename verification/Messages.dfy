/** The generated codecs of CompletionHookCall and RollappPacket: marshalling backwards into a sized buffer, and the
    unmarshalling loops, against the wire format. */
module Messages {
  import opened Bytes
  import opened Proto
  import Varint

  // ---------------------------------------------------------------- messages as lists of optional fields

  type Optional = Option<Value>

  /** The fields that are present, numbered from a first number. */
  function ListOf(opts: seq<Optional>, from: int): (fs: FieldList) {
    if opts == [] then [] else (if opts[0].Some? then [(from, opts[0].value)] else []) + ListOf(opts[1..], from + 1)
  }

  predicate OptionsFit(schema: Schema, opts: seq<Optional>, from: int) {
    forall i :: 0 <= i < |opts| ==> opts[i].Some? ==> Fits(schema, from + i, opts[i].value)
  }

  lemma OptionsTail(schema: Schema, opts: seq<Optional>, from: int)
    requires opts != [] && OptionsFit(schema, opts, from)
    ensures OptionsFit(schema, opts[1..], from + 1) && (opts[0].Some? ==> Fits(schema, from, opts[0].value))
  {
    hide Fits;
    forall i | 0 <= i < |opts[1..]| && opts[1..][i].Some? ensures Fits(schema, from + 1 + i, opts[1..][i].value) {
      assert opts[1..][i] == opts[i + 1];
      assert Fits(schema, from + (i + 1), opts[i + 1].value);
    }
    assert opts[0].Some? ==> Fits(schema, from + 0, opts[0].value);
  }

  lemma {:induction false} ListFits(schema: Schema, opts: seq<Optional>, from: int)
    requires OptionsFit(schema, opts, from)
    ensures AllFit(schema, ListOf(opts, from))
  {
    hide Fits;
    if opts != [] {
      OptionsTail(schema, opts, from);
      ListFits(schema, opts[1..], from + 1);
    }
  }

  function Get(m: Fields, n: int): (o: Optional) { if n in m then Some(m[n]) else None }

  /** What a field holds after another value was read into it: a message goes on, anything else is replaced. */
  function After(schema: Schema, n: int, before: Optional, o: Optional): Optional {
    if o.None? then before
    else if n in schema && schema[n].MsgKind? && before.Some? && before.value.Len? && o.value.Len? then
      Some(Len(before.value.b + o.value.b))
    else o
  }

  lemma GetPutOne(schema: Schema, m: Fields, num: int, v: Value, n: int)
    ensures Get(PutOne(schema, m, num, v), n) == if n == num then After(schema, n, Get(m, n), Some(v)) else Get(m, n)
  {
  }

  /** Reading the list sets each present field under its number, and no other. */
  lemma {:induction false} PutList(schema: Schema, m: Fields, opts: seq<Optional>, from: int, n: int)
    ensures Get(PutAll(schema, m, ListOf(opts, from)), n) ==
              if from <= n < from + |opts| then After(schema, n, Get(m, n), opts[n - from]) else Get(m, n)
    decreases |opts|
  {
    hide PutOne, Get;
    if opts != [] {
      var fs := ListOf(opts, from);
      assert from < n < from + |opts| ==> opts[1..][n - from - 1] == opts[n - from];
      if opts[0].Some? {
        assert fs == [(from, opts[0].value)] + ListOf(opts[1..], from + 1);
        assert fs[1..] == ListOf(opts[1..], from + 1);
        GetPutOne(schema, m, from, opts[0].value, n);
        PutList(schema, PutOne(schema, m, from, opts[0].value), opts[1..], from + 1, n);
      } else {
        assert fs == ListOf(opts[1..], from + 1);
        PutList(schema, m, opts[1..], from + 1, n);
      }
    }
  }

  /** The bytes of one optional field. */
  function Text(num: int, o: Optional): (s: bytes)
    requires o.Some? ==> Writable(num, o.value)
  {
    if o.Some? then WriteField(num, o.value) else []
  }

  lemma WriteListStep(schema: Schema, opts: seq<Optional>, from: int)
    requires opts != [] && OptionsFit(schema, opts, from)
    ensures opts[0].Some? ==> Writable(from, opts[0].value)
    ensures AllFit(schema, ListOf(opts, from)) && AllFit(schema, ListOf(opts[1..], from + 1))
    ensures WriteAll(schema, ListOf(opts, from)) == Text(from, opts[0]) + WriteAll(schema, ListOf(opts[1..], from + 1))
  {
    hide WriteField, OptionsFit;
    OptionsTail(schema, opts, from);
    ListFits(schema, opts, from);
    ListFits(schema, opts[1..], from + 1);
    var fs, rest := ListOf(opts, from), ListOf(opts[1..], from + 1);
    if opts[0].Some? {
      assert fs == [(from, opts[0].value)] + rest && fs[1..] == rest;
    } else {
      assert fs == rest;
    }
  }

  // ---------------------------------------------------------------- writing backwards

  function SizeOf(o: Optional): (n: nat) {
    match o
    case None => 0
    case Some(Num(n)) => 1 + Varint.Sov(n)
    case Some(Len(b)) => 1 + |b| + Varint.Sov(|b|)
  }

  lemma TextSize(num: int, o: Optional)
    requires 1 <= num < 16 && (o.Some? ==> Writable(num, o.value))
    ensures |Text(num, o)| == SizeOf(o)
  {
    hide Varint.Sov;
    if o.Some? {
      TagByte(num, WireType(o.value));
      match o.value {
        case Num(n) => Varint.SovIsLength(n);
        case Len(b) => Varint.SovIsLength(|b|);
      }
    }
  }

  lemma TagByte(num: int, w: nat)
    requires 1 <= num < 16 && w < 8
    ensures Varint.Encode(num * 8 + w) == [num * 8 + w]
  {
  }

  /** The builtin copy, to end at an offset. */
  method PutBytes(buf: array<byte>, i: nat, b: bytes) returns (j: nat)
    requires |b| <= i <= buf.Length
    modifies buf
    ensures j == i - |b| && buf[..] == Varint.Splice(old(buf[..]), j, b, i)
  {
    j := i - |b|;
    forall k | 0 <= k < |b| { buf[j + k] := b[k]; }
  }

  /** The content and its length. */
  method PutPayload(buf: array<byte>, i: nat, v: Value) returns (j: nat)
    requires (v.Len? ==> |v.b| < I64_LIMIT) && |Payload(v)| <= i <= buf.Length
    modifies buf
    ensures j == i - |Payload(v)| && buf[..] == Varint.Splice(old(buf[..]), j, Payload(v), i)
  {
    hide Varint.Encode, Varint.Sov, Varint.Splice;
    match v {
      case Num(n) =>
        Varint.SovIsLength(n);
        j := Varint.EncodeAt(buf, i, n);
      case Len(b) =>
        Varint.SovIsLength(|b|);
        ghost var before := buf[..];
        ghost var m := i - |b|;
        Varint.SpliceTwice(before, m - |Varint.Encode(|b|)|, Varint.Encode(|b|), m, b, i);
        j := PutBytes(buf, i, b);
        j := Varint.EncodeAt(buf, j, |b|);
    }
  }

  /** One step of MarshalToSizedBuffer: the field's content, its length, its tag, each in front of the last. */
  method PutField(buf: array<byte>, i: nat, num: nat, o: Optional) returns (j: nat)
    requires 1 <= num < 16 && (o.Some? ==> Writable(num, o.value))
    requires SizeOf(o) <= i <= buf.Length
    modifies buf
    ensures j == i - SizeOf(o) && |Text(num, o)| == SizeOf(o)
            && buf[..] == Varint.Splice(old(buf[..]), j, Text(num, o), i)
  {
    hide SizeOf, Payload, WriteField, Varint.Splice;
    TextSize(num, o);
    Varint.SpliceNothing(buf[..], i);
    if o.None? { return i; }
    TextShape(num, o.value);
    var tag: byte := num * 8 + WireType(o.value);
    ghost var before := buf[..];
    ghost var m := i - |Payload(o.value)|;
    Varint.SpliceTwice(before, m - 1, [tag], m, Payload(o.value), i);
    j := PutPayload(buf, i, o.value);
    j := PutBytes(buf, j, [tag]);
  }

  lemma TextShape(num: int, v: Value)
    requires 1 <= num < 16 && Writable(num, v)
    ensures WriteField(num, v) == [num * 8 + WireType(v)] + Payload(v)
  {
    TagByte(num, WireType(v));
  }

  // ---------------------------------------------------------------- CompletionHookCall

  datatype HookCall = HookCall(name: bytes, data: bytes)

  const HOOK_SCHEMA: Schema := map[1 := LenKind, 2 := LenKind]

  function Present(b: bytes): Optional { if |b| > 0 then Some(Len(b)) else None }

  function HookOptions(m: HookCall): seq<Optional> { [Present(m.name), Present(m.data)] }

  /** Slices are shorter than the largest int. */
  predicate HookSized(m: HookCall) { |m.name| < I64_LIMIT && |m.data| < I64_LIMIT }

  lemma HookFits(m: HookCall)
    requires HookSized(m)
    ensures OptionsFit(HOOK_SCHEMA, HookOptions(m), 1) && AllFit(HOOK_SCHEMA, ListOf(HookOptions(m), 1))
  {
    ListFits(HOOK_SCHEMA, HookOptions(m), 1);
  }

  /** The bytes of a hook call on the wire. */
  function HookBytes(m: HookCall): (s: bytes)
    requires HookSized(m)
  {
    HookFits(m);
    WriteAll(HOOK_SCHEMA, ListOf(HookOptions(m), 1))
  }

  function BytesAt(m: Fields, n: int): bytes { if n in m && m[n].Len? then m[n].b else [] }

  function ReadHook(s: bytes, into: HookCall): (r: Option<HookCall>) {
    var m := Parse(HOOK_SCHEMA, s, map[1 := Len(into.name), 2 := Len(into.data)]);
    if m.None? then None else Some(HookCall(BytesAt(m.value, 1), BytesAt(m.value, 2)))
  }

  /** Size. */
  function HookSize(m: HookCall): (n: nat) { SizeOf(Present(m.name)) + SizeOf(Present(m.data)) }

  lemma HookShape(m: HookCall)
    requires HookSized(m)
    ensures HookBytes(m) == Text(1, Present(m.name)) + Text(2, Present(m.data))
    ensures |HookBytes(m)| == HookSize(m)
  {
    hide WriteField, SizeOf;
    var opts := HookOptions(m);
    HookFits(m);
    WriteListStep(HOOK_SCHEMA, opts, 1);
    assert OptionsFit(HOOK_SCHEMA, opts[1..], 2);
    WriteListStep(HOOK_SCHEMA, opts[1..], 2);
    assert opts[1..][1..] == [] && WriteAll(HOOK_SCHEMA, ListOf([], 3)) == [];
    TextSize(1, Present(m.name));
    TextSize(2, Present(m.data));
  }

  /** A byte string that is not empty, behind its tag and its length. */
  function Delimited(tag: byte, b: bytes): bytes { if b == [] then [] else [tag] + Varint.Encode(|b|) + b }

  /** The name under tag 0x0a, the data under 0x12, and neither if it is empty. */
  lemma HookLayout(m: HookCall)
    requires HookSized(m)
    ensures HookBytes(m) == Delimited(0x0a, m.name) + Delimited(0x12, m.data)
  {
    hide HookBytes, WriteField, Varint.Encode;
    HookShape(m);
    DelimitedIs(1, m.name);
    DelimitedIs(2, m.data);
  }

  lemma DelimitedIs(num: nat, b: bytes)
    requires 1 <= num < 16 && |b| < I64_LIMIT
    ensures Text(num, Present(b)) == Delimited(num * 8 + 2, b)
  {
    hide WriteField;
    if b != [] {
      TextShape(num, Len(b));
      assert [num * 8 + 2] + (Varint.Encode(|b|) + b) == [num * 8 + 2] + Varint.Encode(|b|) + b;
    }
  }

  /** MarshalToSizedBuffer: the message fills the end of the buffer, and exactly its size. */
  method MarshalHookTo(buf: array<byte>, m: HookCall) returns (n: nat)
    requires HookSized(m) && HookSize(m) <= buf.Length
    modifies buf
    ensures n == HookSize(m) && buf[buf.Length - n..] == HookBytes(m)
            && buf[..buf.Length - n] == old(buf[..buf.Length - n])
  {
    hide WriteField, Text, SizeOf, HookBytes, Varint.Splice;
    HookShape(m);
    ghost var before := buf[..];
    var i := PutField(buf, buf.Length, 2, Present(m.data));
    ghost var mid := i;
    i := PutField(buf, i, 1, Present(m.name));
    Varint.SpliceTwice(before, i, Text(1, Present(m.name)), mid, Text(2, Present(m.data)), buf.Length);
    n := buf.Length - i;
    SpliceEnd(before, i, HookBytes(m), buf[..]);
  }

  lemma SpliceEnd(s: bytes, at: nat, b: bytes, r: bytes)
    requires at + |b| == |s| && r == Varint.Splice(s, at, b, |s|)
    ensures |r| == |s| && r[at..] == b && r[..at] == s[..at]
  {
  }

  /** Marshal: the buffer of the announced size is filled to the last byte. */
  method MarshalHook(m: HookCall) returns (s: bytes)
    requires HookSized(m)
    ensures s == HookBytes(m)
  {
    hide HookBytes, HookSize;
    var buf := new byte[HookSize(m)](_ => 0);
    var n := MarshalHookTo(buf, m);
    s := buf[..n];
  }

  /** Reading a written call into any call overwrites what was not empty. */
  lemma HookMerge(m: HookCall, into: HookCall)
    requires HookSized(m)
    ensures ReadHook(HookBytes(m), into) ==
            Some(HookCall(if m.name == [] then into.name else m.name, if m.data == [] then into.data else m.data))
  {
    var start: Fields := map[1 := Len(into.name), 2 := Len(into.data)];
    hide Parse, WriteField;
    HookFits(m);
    ListRoundTrip(HOOK_SCHEMA, ListOf(HookOptions(m), 1), start);
    var opts := HookOptions(m);
    hide PutAll, ListOf;
    PutList(HOOK_SCHEMA, start, opts, 1, 1);
    PutList(HOOK_SCHEMA, start, opts, 1, 2);
  }

  /** What is marshalled is unmarshalled. */
  lemma HookRoundTrip(m: HookCall)
    requires HookSized(m)
    ensures ReadHook(HookBytes(m), HookCall([], [])) == Some(m)
  {
    hide HookBytes, ReadHook;
    HookMerge(m, HookCall([], []));
  }

  /** Reading a concatenation is reading its parts one into the other; in particular the last call wins. */
  lemma HookAppend(s: bytes, rest: bytes, into: HookCall)
    requires ReadHook(s, into).Some?
    ensures ReadHook(s + rest, into) == ReadHook(rest, ReadHook(s, into).value)
  {
    hide NextField;
    var start: Fields := map[1 := Len(into.name), 2 := Len(into.data)];
    ParseAppend(HOOK_SCHEMA, s, rest, start);
    HookDomain(s, start);
    var m := Parse(HOOK_SCHEMA, s, start).value;
    assert m == map[1 := Len(BytesAt(m, 1)), 2 := Len(BytesAt(m, 2))];
  }

  /** Two calls one after the other give their merge, field by field, the last one winning. */
  lemma HookConcat(a: HookCall, b: HookCall)
    requires HookSized(a) && HookSized(b)
    ensures ReadHook(HookBytes(a) + HookBytes(b), HookCall([], [])) ==
              Some(HookCall(if b.name == [] then a.name else b.name, if b.data == [] then a.data else b.data))
  {
    hide HookBytes, ReadHook;
    HookRoundTrip(a);
    HookAppend(HookBytes(a), HookBytes(b), HookCall([], []));
    HookMerge(b, a);
  }

  lemma {:induction false} HookDomain(s: bytes, m: Fields)
    requires m.Keys == {1, 2} && m[1].Len? && m[2].Len? && Parse(HOOK_SCHEMA, s, m).Some?
    ensures var r := Parse(HOOK_SCHEMA, s, m).value; r.Keys == {1, 2} && r[1].Len? && r[2].Len?
    decreases |s|
  {
    if s != [] {
      KnownFields(HOOK_SCHEMA, s);
      hide NextField;
      var f := NextField(HOOK_SCHEMA, s).value;
      HookDomain(s[f.size..], Put(HOOK_SCHEMA, m, f));
    }
  }

  lemma KnownFields(schema: Schema, s: bytes)
    ensures var f := NextField(schema, s);
            f.Some? && f.value.Known? ==>
              f.value.num in schema && (schema[f.value.num].NumKind? <==> f.value.value.Num?)
  {
    hide Varint.Read, Skip, ToInt32;
  }

  // ---------------------------------------------------------------- the reading loops

  /** Longer slices than this do not exist; sums of an index and one field's size stay below 2^64. */
  const MAX_INPUT: int := I64_LIMIT - 32

  lemma TokenBound(s: bytes)
    ensures NextToken(s).Some? ==> NextToken(s).value.size < I64_LIMIT + 32
  {
    hide Varint.Read, Varint.Extent;
    ReadBound(s);
    if Varint.Read(s).Some? { ReadBound(s[Varint.Read(s).value.size..]); }
  }

  lemma ReadBound(s: bytes)
    ensures Varint.Read(s).Some? ==> Varint.Read(s).value.size <= 10
    ensures Varint.Extent(s, Varint.MAX_BYTES).Some? ==> Varint.Extent(s, Varint.MAX_BYTES).value <= 10
  {
  }

  lemma WrapFacts(x: int)
    requires 0 <= x < U64_SIZE
    ensures Wrap64(x) == if x < I64_LIMIT then x else x - U64_SIZE
  {
  }

  lemma ReadExtent(s: bytes)
    ensures Varint.Read(s).Some? <==> Varint.Extent(s, Varint.MAX_BYTES).Some?
    ensures Varint.Read(s).Some? ==> Varint.Read(s).value.size == Varint.Extent(s, Varint.MAX_BYTES).value
  {
  }

  /** One round of the skipping loop, up to the signed bounds check. */
  method ReadToken(s: bytes, at: nat) returns (r: Option<Token>)
    requires at <= |s|
    ensures r == NextToken(s[at..])
  {
    hide Varint.Read, Varint.Extent;
    var tag := Varint.Decode(s, at);
    if tag.None? { return None; }
    var n := tag.value.size;
    assert s[at..][n..] == s[at + n..];
    var wireType := tag.value.value % 8;
    if wireType == 0 {
      var x := Varint.Decode(s, at + n);
      ReadExtent(s[at + n..]);
      if x.None? { return None; }
      return Some(Token(n + x.value.size, 0));
    } else if wireType == 1 {
      return Some(Token(n + 8, 0));
    } else if wireType == 2 {
      var len := Varint.Decode(s, at + n);
      if len.None? { return None; }
      WrapFacts(len.value.value);
      var length := Wrap64(len.value.value);
      if length < 0 { return None; }
      return Some(Token(n + len.value.size + length, 0));
    } else if wireType == 3 {
      return Some(Token(n, 1));
    } else if wireType == 4 {
      return Some(Token(n, -1));
    } else if wireType == 5 {
      return Some(Token(n + 4, 0));
    }
    r := None;
  }

  /** After i bytes at a depth, what is left of a skip. */
  function SkipLeft(t: bytes, i: int, depth: nat): Option<nat> {
    if !(0 <= i <= |t|) then None else
    var c := Skip(t[i..], depth);
    if c.None? then None else Some(c.value + i)
  }

  predicate SameWithin(a: Option<nat>, b: Option<nat>, size: nat) {
    if b.Some? && b.value <= size then a == b else a.None? || a.value > size
  }

  /** The skipping loop: it finds the end of the field if that lies within the input. */
  method SkipAt(s: bytes, start: nat) returns (r: Option<nat>)
    requires start <= |s| <= MAX_INPUT
    ensures r.Some? ==> r.value < I64_LIMIT
    ensures SameWithin(r, Skip(s[start..], 0), |s| - start)
  {
    hide NextToken, Wrap64;
    ghost var t := s[start..];
    var l := |s| - start;
    var i: int, depth: nat := 0, 0;
    assert t[0..] == t;
    while i < l
      invariant 0 <= i < I64_LIMIT
      invariant Skip(t, 0) == SkipLeft(t, i, depth)
      decreases l - i
    {
      var tok := ReadToken(s, start + i);
      assert s[start + i..] == t[i..];
      if tok.None? { return None; }
      if tok.value.change < 0 && depth == 0 { return None; }
      SkipStep(t, i, depth);
      TokenBound(t[i..]);
      WrapFacts(i + tok.value.size);
      i := Wrap64(i + tok.value.size);
      depth := depth + tok.value.change;
      if i < 0 { return None; }
      if depth == 0 { return Some(i); }
    }
    r := None;
  }

  lemma SkipStep(t: bytes, i: nat, depth: nat)
    requires i < |t| && NextToken(t[i..]).Some? && depth + NextToken(t[i..]).value.change >= 0
    ensures var tok := NextToken(t[i..]).value;
            var d := depth + tok.change;
            SkipLeft(t, i, depth) == if d == 0 then Some(i + tok.size) else SkipLeft(t, i + tok.size, d)
  {
    hide NextToken;
    var tok := NextToken(t[i..]).value;
    if i + tok.size <= |t| { assert t[i..][tok.size..] == t[i + tok.size..]; }
  }

  /** Unmarshal of CompletionHookCall, into a call that may already have fields. */
  method UnmarshalHook(s: bytes, into: HookCall) returns (r: Option<HookCall>)
    requires |s| <= MAX_INPUT
    ensures r == ReadHook(s, into)
  {
    hide NextField, Wrap64, Varint.Read, ToInt32, Skip;
    var l := |s|;
    var i, name, data := 0, into.name, into.data;
    ghost var m0: Fields := map[1 := Len(name), 2 := Len(data)];
    assert s[0..] == s;
    while i < l
      invariant 0 <= i <= l
      invariant Parse(HOOK_SCHEMA, s[i..], map[1 := Len(name), 2 := Len(data)]) == Parse(HOOK_SCHEMA, s, m0)
      decreases l - i
    {
      var f := ReadField(HOOK_SCHEMA, s, i);
      if f.None? { return None; }
      ghost var m: Fields := map[1 := Len(name), 2 := Len(data)];
      assert s[i..][f.value.size..] == s[i + f.value.size..];
      match f.value {
        case Known(num, v, size) =>
          KnownFields(HOOK_SCHEMA, s[i..]);
          if num == 1 { name := v.b; } else { data := v.b; }
          i := i + size;
          assert m[num := v] == map[1 := Len(name), 2 := Len(data)];
        case Unknown(size) => i := i + size;
      }
    }
    assert s[i..] == [];
    r := Some(HookCall(name, data));
  }

  lemma SliceOfRest(s: bytes, i: nat, from: nat, to: nat)
    requires i <= from <= to <= |s|
    ensures s[i..][from - i..to - i] == s[from..to]
  {
  }

  /** The body of the unmarshalling loops: one field, read with the bounds checks of signed 64-bit arithmetic. */
  method ReadField(schema: Schema, s: bytes, i: nat) returns (f: Option<Field>)
    requires i < |s| <= MAX_INPUT
    ensures f == NextField(schema, s[i..])
  {
    hide Wrap64, Varint.Read, ToInt32, Skip;
    ghost var t := s[i..];
    var tag := Varint.Decode(s, i);
    if tag.None? { return None; }
    var n := tag.value.size;
    assert t[n..] == s[i + n..];
    var fieldNum, wireType := ToInt32(tag.value.value / 8), tag.value.value % 8;
    if wireType == 4 || fieldNum <= 0 { return None; }
    if fieldNum in schema {
      if wireType != (if schema[fieldNum].NumKind? then 0 else 2) { return None; }
      var x := Varint.Decode(s, i + n);
      if x.None? { return None; }
      if schema[fieldNum].NumKind? { return Some(Known(fieldNum, Num(x.value.value), n + x.value.size)); }
      WrapFacts(x.value.value);
      var length := Wrap64(x.value.value);
      if length < 0 { return None; }
      var at := i + n + x.value.size;
      WrapFacts(at + length);
      var post := Wrap64(at + length);
      if post < 0 || post > |s| { return None; }
      SliceOfRest(s, i, at, post);
      return Some(Known(fieldNum, Len(s[at..post]), post - i));
    }
    var skipped := SkipAt(s, i);
    if skipped.None? { return None; }
    WrapFacts(i + skipped.value);
    if Wrap64(i + skipped.value) < 0 || Wrap64(i + skipped.value) > |s| { return None; }
    f := Some(Unknown(skipped.value));
  }
}
