/** The wire format of the generated message codecs: fields, unknown fields, concatenation of messages. */
module Proto {
  import opened Bytes
  import Varint

  const I64_LIMIT: int := 0x8000_0000_0000_0000
  const I32_LIMIT: int := 0x8000_0000
  const MAX_FIELD: int := 0x2000_0000

  /** A 64-bit sum as a signed integer. */
  function Wrap64(x: int): int { (x + I64_LIMIT) % U64_SIZE - I64_LIMIT }

  /** Conversion to int32. */
  function ToInt32(x: int): int { (x + I32_LIMIT) % 0x1_0000_0000 - I32_LIMIT }

  /** Both take the representative of the low bits that is in range. */
  lemma WrapsAre(x: int)
    ensures -0x8000_0000_0000_0000 <= Wrap64(x) < 0x8000_0000_0000_0000
    ensures (Wrap64(x) - x) % 0x1_0000_0000_0000_0000 == 0
    ensures -0x8000_0000 <= ToInt32(x) < 0x8000_0000 && (ToInt32(x) - x) % 0x1_0000_0000 == 0
  {
  }

  datatype Value = Num(n: u64) | Len(b: bytes)

  /** Numbers, strings and bytes, and messages. */
  datatype Kind = NumKind | LenKind | MsgKind

  type Fields = map<int, Value>
  type Schema = map<int, Kind>

  // ---------------------------------------------------------------- skipping

  /** One token of an unknown field: its size, and whether it opens or closes a group. */
  datatype Token = Token(size: nat, change: int)

  function NextToken(s: bytes): (t: Option<Token>)
    ensures t.Some? ==> t.value.size >= 1 && -1 <= t.value.change <= 1
  {
    var tag := Varint.Read(s);
    if tag.None? then None else
    var n := tag.value.size;
    match tag.value.value % 8
    case 0 =>
      var e := Varint.Extent(s[n..], Varint.MAX_BYTES);
      if e.None? then None else Some(Token(n + e.value, 0))
    case 1 => Some(Token(n + 8, 0))
    case 2 =>
      var len := Varint.Read(s[n..]);
      if len.None? || len.value.value >= I64_LIMIT then None else Some(Token(n + len.value.size + len.value.value, 0))
    case 3 => Some(Token(n, 1))
    case 4 => Some(Token(n, -1))
    case 5 => Some(Token(n + 4, 0))
    case _ => None
  }

  /** The size of the field at the front, groups included; it may point past the end. */
  function Skip(s: bytes, depth: nat): (c: Option<nat>)
    ensures c.Some? ==> c.value >= 1
    decreases |s|
  {
    var t := NextToken(s);
    if s == [] || t.None? || depth + t.value.change < 0 then None
    else if depth + t.value.change == 0 then Some(t.value.size)
    else if t.value.size > |s| then None
    else
      var c := Skip(s[t.value.size..], depth + t.value.change);
      if c.None? then None else Some(c.value + t.value.size)
  }

  // ---------------------------------------------------------------- parsing

  /** A field as it stands in the input: where it ends, and what it sets. */
  datatype Field = Known(num: int, value: Value, size: nat) | Unknown(size: nat)

  function NextField(schema: Schema, s: bytes): (f: Option<Field>)
    ensures f.Some? ==> 1 <= f.value.size <= |s|
  {
    var tag := Varint.Read(s);
    if tag.None? then None else
    var n, wireType, num := tag.value.size, tag.value.value % 8, ToInt32(tag.value.value / 8);
    if wireType == 4 || num <= 0 then None
    else if num !in schema then
      var c := Skip(s, 0);
      if c.None? || c.value > |s| then None else Some(Unknown(c.value))
    else
      var x := Varint.Read(s[n..]);
      match schema[num]
      case NumKind => if wireType != 0 || x.None? then None else Some(Known(num, Num(x.value.value), n + x.value.size))
      case _ =>
        if wireType != 2 || x.None? || x.value.value >= I64_LIMIT || n + x.value.size + x.value.value > |s| then None
        else
          var from := n + x.value.size;
          Some(Known(num, Len(s[from..from + x.value.value]), from + x.value.value))
  }

  /** A field set again replaces the old value; a message is read into the old one, which for its bytes, by
      ParseAppend, is the same as putting the new ones behind the old. */
  function PutOne(schema: Schema, m: Fields, num: int, v: Value): (r: Fields) {
    if num in schema && schema[num].MsgKind? && num in m && m[num].Len? && v.Len? then m[num := Len(m[num].b + v.b)]
    else m[num := v]
  }

  function Put(schema: Schema, m: Fields, f: Field): Fields {
    match f
    case Known(num, v, _) => PutOne(schema, m, num, v)
    case Unknown(_) => m
  }

  /** Unmarshal into a message that already has some fields; None is an error. */
  function Parse(schema: Schema, s: bytes, m: Fields): (r: Option<Fields>)
    decreases |s|
  {
    if s == [] then Some(m) else
    var f := NextField(schema, s);
    if f.None? then None else Parse(schema, s[f.value.size..], Put(schema, m, f.value))
  }

  // ---------------------------------------------------------------- what follows does not matter

  lemma TokenIsLocal(s: bytes, rest: bytes)
    requires NextToken(s).Some?
    ensures NextToken(s + rest) == NextToken(s)
  {
    hide Varint.Extent, Varint.Read;
    Varint.ReadIsLocal(s, rest);
    var n := Varint.Read(s).value.size;
    assert (s + rest)[n..] == s[n..] + rest;
    if Varint.Extent(s[n..], Varint.MAX_BYTES).Some? { Varint.ExtentIsLocal(s[n..], rest, Varint.MAX_BYTES); }
    if Varint.Read(s[n..]).Some? { Varint.ReadIsLocal(s[n..], rest); }
  }

  lemma {:induction false} SkipIsLocal(s: bytes, rest: bytes, depth: nat)
    requires Skip(s, depth).Some? && Skip(s, depth).value <= |s|
    ensures Skip(s + rest, depth) == Skip(s, depth)
    decreases |s|
  {
    hide NextToken;
    TokenIsLocal(s, rest);
    var t := NextToken(s).value;
    if depth + t.change != 0 {
      assert (s + rest)[t.size..] == s[t.size..] + rest;
      SkipIsLocal(s[t.size..], rest, depth + t.change);
    }
  }

  lemma FieldIsLocal(schema: Schema, s: bytes, rest: bytes)
    requires NextField(schema, s).Some?
    ensures NextField(schema, s + rest) == NextField(schema, s)
  {
    hide Varint.Read, Skip;
    Varint.ReadIsLocal(s, rest);
    var n := Varint.Read(s).value.size;
    assert (s + rest)[n..] == s[n..] + rest;
    if Varint.Read(s[n..]).Some? { Varint.ReadIsLocal(s[n..], rest); }
    if Skip(s, 0).Some? && Skip(s, 0).value <= |s| { SkipIsLocal(s, rest, 0); }
    var f := NextField(schema, s).value;
    if f.Known? && f.value.Len? {
      var from := f.size - |f.value.b|;
      assert (s + rest)[from..f.size] == s[from..f.size];
    }
  }

  /** Parsing a concatenation is parsing the second part into the message the first part gave. */
  lemma {:induction false} ParseAppend(schema: Schema, s: bytes, rest: bytes, m: Fields)
    requires Parse(schema, s, m).Some?
    ensures Parse(schema, s + rest, m) == Parse(schema, rest, Parse(schema, s, m).value)
    decreases |s|
  {
    hide NextField;
    if s == [] {
      assert s + rest == rest;
    } else {
      FieldIsLocal(schema, s, rest);
      var f := NextField(schema, s).value;
      assert (s + rest)[f.size..] == s[f.size..] + rest;
      ParseAppend(schema, s[f.size..], rest, Put(schema, m, f));
    }
  }

  /** A field the schema does not know. */
  predicate IsUnknown(schema: Schema, u: bytes) {
    NextField(schema, u) == Some(Unknown(|u|))
  }

  /** Unknown fields, nested groups included, can stand anywhere between fields without changing the message. */
  lemma UnknownIsIgnored(schema: Schema, s: bytes, u: bytes, rest: bytes, m: Fields)
    requires Parse(schema, s, m).Some? && IsUnknown(schema, u)
    ensures Parse(schema, s + u + rest, m) == Parse(schema, s + rest, m)
  {
    hide NextField;
    assert s + u + rest == s + (u + rest);
    ParseAppend(schema, s, u + rest, m);
    ParseAppend(schema, s, rest, m);
    var m1 := Parse(schema, s, m).value;
    NoFields(schema, u, m1);
    ParseAppend(schema, u, rest, m1);
  }

  lemma NoFields(schema: Schema, u: bytes, m: Fields)
    requires IsUnknown(schema, u)
    ensures Parse(schema, u, m) == Some(m)
  {
    hide NextField;
    assert u[|u|..] == [];
  }

  // ---------------------------------------------------------------- writing

  function WireType(v: Value): nat { if v.Num? then 0 else 2 }

  predicate Writable(num: int, v: Value) { 1 <= num < MAX_FIELD && (v.Len? ==> |v.b| < I64_LIMIT) }

  /** What follows a field's tag. */
  function Payload(v: Value): (s: bytes)
    ensures |s| >= 1
  {
    match v
    case Num(n) => Varint.Encode(n)
    case Len(b) => Varint.Encode(|b|) + b
  }

  function WriteField(num: int, v: Value): (s: bytes)
    requires Writable(num, v)
    ensures |s| >= 2
  {
    Varint.Encode(num * 8 + WireType(v)) + Payload(v)
  }

  predicate Fits(schema: Schema, num: int, v: Value) {
    Writable(num, v) && num in schema && (schema[num].NumKind? <==> v.Num?)
  }

  lemma TagFacts(num: int, w: nat)
    requires 0 <= num < MAX_FIELD && w < 8
    ensures (num * 8 + w) % 8 == w && ToInt32((num * 8 + w) / 8) == num && num * 8 + w < U64_SIZE
  {
  }

  /** A written field is read back as it was written. */
  lemma FieldRoundTrip(schema: Schema, num: int, v: Value)
    requires Fits(schema, num, v)
    ensures NextField(schema, WriteField(num, v)) == Some(Known(num, v, |WriteField(num, v)|))
  {
    hide Varint.Read, Varint.Encode, Skip, ToInt32;
    var s := WriteField(num, v);
    var tag := Varint.Encode(num * 8 + WireType(v));
    TagFacts(num, WireType(v));
    assert s == tag + s[|tag|..];
    Varint.RoundTrip(num * 8 + WireType(v), s[|tag|..]);
    match v {
      case Num(n) =>
        assert s[|tag|..] == Varint.Encode(n) + [];
        Varint.RoundTrip(n, []);
      case Len(b) =>
        assert s[|tag|..] == Varint.Encode(|b|) + b;
        Varint.RoundTrip(|b|, b);
        var from := |tag| + |Varint.Encode(|b|)|;
        assert s[from..from + |b|] == b;
    }
  }

  type FieldList = seq<(int, Value)>

  predicate AllFit(schema: Schema, fs: FieldList) { forall i :: 0 <= i < |fs| ==> Fits(schema, fs[i].0, fs[i].1) }

  function WriteAll(schema: Schema, fs: FieldList): (s: bytes)
    requires AllFit(schema, fs)
  {
    if fs == [] then [] else WriteField(fs[0].0, fs[0].1) + WriteAll(schema, fs[1..])
  }

  function PutAll(schema: Schema, m: Fields, fs: FieldList): (r: Fields)
    decreases |fs|
  {
    if fs == [] then m else PutAll(schema, PutOne(schema, m, fs[0].0, fs[0].1), fs[1..])
  }

  lemma ParseOne(schema: Schema, num: int, v: Value, m: Fields)
    requires Fits(schema, num, v)
    ensures Parse(schema, WriteField(num, v), m) == Some(PutOne(schema, m, num, v))
  {
    hide NextField;
    FieldRoundTrip(schema, num, v);
    var s := WriteField(num, v);
    hide WriteField;
    assert s[|s|..] == [];
  }

  /** Writing a list of fields and reading it into a message sets exactly those fields, later ones winning. */
  lemma {:induction false} ListRoundTrip(schema: Schema, fs: FieldList, m: Fields)
    requires AllFit(schema, fs)
    ensures Parse(schema, WriteAll(schema, fs), m) == Some(PutAll(schema, m, fs))
    decreases |fs|
  {
    hide WriteField, NextField;
    if fs != [] {
      var first := WriteField(fs[0].0, fs[0].1);
      ParseOne(schema, fs[0].0, fs[0].1, m);
      ParseAppend(schema, first, WriteAll(schema, fs[1..]), m);
      ListRoundTrip(schema, fs[1..], PutOne(schema, m, fs[0].0, fs[0].1));
    }
  }

  // ---------------------------------------------------------------- fields of other schemas

  /** A field of any wire type; groups hold fields of their own. */
  datatype Foreign =
    | VarintField(num: int, n: u64)
    | Fixed64Field(num: int, b: bytes)
    | LenField(num: int, b: bytes)
    | GroupField(num: int, fields: seq<Foreign>)
    | Fixed32Field(num: int, b: bytes)

  predicate WellFormed(f: Foreign) {
    && 1 <= f.num < MAX_FIELD
    && match f
       case VarintField(_, _) => true
       case Fixed64Field(_, b) => |b| == 8
       case LenField(_, b) => |b| < I64_LIMIT
       case GroupField(_, fs) => forall i :: 0 <= i < |fs| ==> WellFormed(fs[i])
       case Fixed32Field(_, b) => |b| == 4
  }

  /** How the wire format writes it: the tag holds the number and the wire type, and a group has an end tag too. */
  function WriteForeign(f: Foreign): (s: bytes)
    requires WellFormed(f)
    decreases f, 0
  {
    match f
    case VarintField(num, n) => Varint.Encode(num * 8) + Varint.Encode(n)
    case Fixed64Field(num, b) => Varint.Encode(num * 8 + 1) + b
    case LenField(num, b) => Varint.Encode(num * 8 + 2) + (Varint.Encode(|b|) + b)
    case GroupField(num, fs) => Varint.Encode(num * 8 + 3) + (WriteForeigns(fs) + Varint.Encode(num * 8 + 4))
    case Fixed32Field(num, b) => Varint.Encode(num * 8 + 5) + b
  }

  function WriteForeigns(fs: seq<Foreign>): (s: bytes)
    requires forall i :: 0 <= i < |fs| ==> WellFormed(fs[i])
    decreases fs
  {
    if fs == [] then [] else WriteForeign(fs[0]) + WriteForeigns(fs[1..])
  }

  function Plus(n: nat, c: Option<nat>): Option<nat> { if c.None? then None else Some(n + c.value) }

  /** One token more at the front of a group. */
  lemma SkipToken(s: bytes, rest: bytes, depth: nat, change: int)
    requires s != [] && NextToken(s + rest) == Some(Token(|s|, change)) && depth + change > 0
    ensures Skip(s + rest, depth) == Plus(|s|, Skip(rest, depth + change))
  {
    hide NextToken;
    assert (s + rest)[|s|..] == rest;
  }

  /** A tag with no content of its own, or in front of it. */
  lemma TagIs(num: int, w: nat, rest: bytes)
    requires 0 <= num < MAX_FIELD && w < 8
    ensures var tag := Varint.Encode(num * 8 + w);
            && Varint.Read(tag + rest) == Some(Varint.Number(num * 8 + w, |tag|)) && (tag + rest)[|tag|..] == rest
            && (num * 8 + w) % 8 == w
  {
    hide Varint.Encode, Varint.Read;
    TagFacts(num, w);
    Varint.RoundTrip(num * 8 + w, rest);
  }

  /** A field that is not a group is one token. */
  lemma FlatIsToken(f: Foreign, rest: bytes)
    requires WellFormed(f) && !f.GroupField?
    ensures NextToken(WriteForeign(f) + rest) == Some(Token(|WriteForeign(f)|, 0)) && WriteForeign(f) != []
  {
    hide Varint.Encode, Varint.Read, Varint.Extent;
    match f {
      case VarintField(num, n) =>
        var x := Varint.Encode(n);
        TagIs(num, 0, x + rest);
        assert WriteForeign(f) + rest == Varint.Encode(num * 8) + (x + rest);
        NumberExtent(n, rest);
      case Fixed64Field(num, b) =>
        TagIs(num, 1, b + rest);
        assert WriteForeign(f) + rest == Varint.Encode(num * 8 + 1) + (b + rest);
      case LenField(num, b) =>
        var x := Varint.Encode(|b|) + b;
        TagIs(num, 2, x + rest);
        assert WriteForeign(f) + rest == Varint.Encode(num * 8 + 2) + (x + rest);
        assert x + rest == Varint.Encode(|b|) + (b + rest);
        Varint.RoundTrip(|b|, b + rest);
      case Fixed32Field(num, b) =>
        TagIs(num, 5, b + rest);
        assert WriteForeign(f) + rest == Varint.Encode(num * 8 + 5) + (b + rest);
    }
  }

  lemma NumberExtent(n: u64, rest: bytes)
    ensures Varint.Extent(Varint.Encode(n) + rest, Varint.MAX_BYTES) == Some(|Varint.Encode(n)|)
  {
    Varint.Pow128Of10();
    Varint.EncodeSize(n, 10);
    Varint.ReadEncode(n, Varint.MAX_BYTES, rest);
  }

  /** Inside a group, a field is passed over whole ... */
  lemma {:induction false} ForeignInside(f: Foreign, rest: bytes, depth: nat)
    requires WellFormed(f) && depth >= 1
    ensures Skip(WriteForeign(f) + rest, depth) == Plus(|WriteForeign(f)|, Skip(rest, depth))
    decreases f, 1
  {
    hide NextToken, Skip, Varint.Encode;
    if f.GroupField? {
      GroupOpens(f, rest, depth);
      var close := Varint.Encode(f.num * 8 + 4);
      ForeignsInside(f.fields, close + rest, depth + 1);
      GroupCloses(f.num, rest);
      SkipToken(close, rest, depth + 1, -1);
    } else {
      FlatIsToken(f, rest);
      SkipToken(WriteForeign(f), rest, depth, 0);
    }
  }

  /** ... and so are all its fields. */
  lemma {:induction false} ForeignsInside(fs: seq<Foreign>, rest: bytes, depth: nat)
    requires (forall i :: 0 <= i < |fs| ==> WellFormed(fs[i])) && depth >= 1
    ensures Skip(WriteForeigns(fs) + rest, depth) == Plus(|WriteForeigns(fs)|, Skip(rest, depth))
    decreases fs
  {
    hide Skip, WriteForeign;
    if fs == [] {
      assert WriteForeigns(fs) + rest == rest;
    } else {
      var head, tail := WriteForeign(fs[0]), WriteForeigns(fs[1..]);
      assert WriteForeigns(fs) + rest == head + (tail + rest);
      ForeignInside(fs[0], tail + rest, depth);
      ForeignsInside(fs[1..], rest, depth);
    }
  }

  lemma GroupOpens(f: Foreign, rest: bytes, depth: nat)
    requires WellFormed(f) && f.GroupField?
    ensures var open, close := Varint.Encode(f.num * 8 + 3), Varint.Encode(f.num * 8 + 4);
            && WriteForeign(f) + rest == open + (WriteForeigns(f.fields) + (close + rest))
            && Skip(WriteForeign(f) + rest, depth) ==
                 Plus(|open|, Skip(WriteForeigns(f.fields) + (close + rest), depth + 1))
  {
    hide Varint.Encode, Varint.Read, Skip, WriteForeigns;
    var open, close := Varint.Encode(f.num * 8 + 3), Varint.Encode(f.num * 8 + 4);
    var inner := WriteForeigns(f.fields) + (close + rest);
    assert WriteForeign(f) + rest == open + inner;
    TagIs(f.num, 3, inner);
    assert NextToken(open + inner) == Some(Token(|open|, 1));
    SkipToken(open, inner, depth, 1);
  }

  lemma GroupCloses(num: int, rest: bytes)
    requires 1 <= num < MAX_FIELD
    ensures var close := Varint.Encode(num * 8 + 4); NextToken(close + rest) == Some(Token(|close|, -1))
  {
    hide Varint.Encode, Varint.Read;
    TagIs(num, 4, rest);
  }

  /** Skipping finds the end of every field the format can write, whatever its wire type and however deep its groups. */
  lemma SkipsForeign(f: Foreign, rest: bytes)
    requires WellFormed(f)
    ensures Skip(WriteForeign(f) + rest, 0) == Some(|WriteForeign(f)|)
  {
    hide NextToken, Varint.Encode, WriteForeigns;
    if f.GroupField? {
      var close := Varint.Encode(f.num * 8 + 4);
      GroupOpens(f, rest, 0);
      ForeignsInside(f.fields, close + rest, 1);
      GroupCloses(f.num, rest);
      assert Skip(close + rest, 1) == Some(|close|);
    } else {
      FlatIsToken(f, rest);
    }
  }

  function WireOf(f: Foreign): nat {
    match f
    case VarintField(_, _) => 0
    case Fixed64Field(_, _) => 1
    case LenField(_, _) => 2
    case GroupField(_, _) => 3
    case Fixed32Field(_, _) => 5
  }

  /** So every field under a number the schema does not know is passed over, and nothing else of the input is. */
  lemma ForeignIsUnknown(schema: Schema, f: Foreign)
    requires WellFormed(f) && f.num !in schema
    ensures IsUnknown(schema, WriteForeign(f))
  {
    hide Varint.Encode, Varint.Read, Skip;
    SkipsForeign(f, []);
    assert WriteForeign(f) + [] == WriteForeign(f);
    var w := WireOf(f);
    var rest := WriteForeign(f)[|Varint.Encode(f.num * 8 + w)|..];
    TagIs(f.num, w, rest);
    assert WriteForeign(f) == Varint.Encode(f.num * 8 + w) + rest;
    TagFacts(f.num, w);
  }

  /** A field whose wire type is not its kind's, an end tag without a group, and the field number zero are errors. */
  lemma WrongWireFails(schema: Schema, num: int, w: nat, rest: bytes)
    requires 0 <= num < MAX_FIELD && w < 8
    requires num == 0 || w == 4 || (num in schema && w != if schema[num].NumKind? then 0 else 2)
    ensures NextField(schema, Varint.Encode(num * 8 + w) + rest).None?
  {
    hide Varint.Encode, Varint.Read, Skip;
    TagIs(num, w, rest);
    TagFacts(num, w);
  }

  /** So is a field that is cut off. */
  lemma CutFieldFails(schema: Schema, num: int, v: Value, k: nat)
    requires Fits(schema, num, v) && 0 < k < |WriteField(num, v)|
    ensures NextField(schema, WriteField(num, v)[..k]).None?
  {
    var w := WriteField(num, v);
    FieldRoundTrip(schema, num, v);
    hide WriteField, NextField;
    if NextField(schema, w[..k]).Some? { CutIsShorter(schema, w, k); }
  }

  lemma CutIsShorter(schema: Schema, w: bytes, k: nat)
    requires k <= |w| && NextField(schema, w[..k]).Some?
    ensures NextField(schema, w).Some? && NextField(schema, w).value.size <= k
  {
    hide NextField;
    FieldIsLocal(schema, w[..k], w[k..]);
    assert w[..k] + w[k..] == w;
  }
}
