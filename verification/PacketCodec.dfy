/** The generated codec of RollappPacket. The IBC packet inside is a message of another module and stays as bytes. */
module PacketCodec {
  import opened Bytes
  import opened Proto
  import opened Messages
  import Varint

  type i32 = x: int | -I32_LIMIT <= x < I32_LIMIT

  /** The record as the store keeps it. The enums are int32; the type UNDEFINED is -1. */
  datatype Record = Record(rollappId: bytes, packet: Option<bytes>, acknowledgement: bytes, status: i32,
                           proofHeight: u64, relayer: bytes, ptype: i32, error: bytes, originalTarget: bytes)

  const SCHEMA: Schema := map[1 := LenKind, 2 := MsgKind, 3 := LenKind, 4 := NumKind, 5 := NumKind, 6 := LenKind,
                              7 := NumKind, 8 := LenKind, 9 := LenKind]

  /** Conversion of an enum or a height to uint64; zero is left out. */
  function Number(x: int): Optional { if x == 0 then None else Some(Num(x % U64_SIZE)) }

  function Message(p: Option<bytes>): Optional { if p.Some? then Some(Len(p.value)) else None }

  function Options(p: Record): (opts: seq<Optional>)
    ensures |opts| == 9
  {
    [Present(p.rollappId), Message(p.packet), Present(p.acknowledgement), Number(p.status), Number(p.proofHeight),
     Present(p.relayer), Number(p.ptype), Present(p.error), Present(p.originalTarget)]
  }

  /** Slices are shorter than the largest int. */
  predicate Sized(p: Record) {
    && |p.rollappId| < I64_LIMIT && (p.packet.Some? ==> |p.packet.value| < I64_LIMIT) && |p.acknowledgement| < I64_LIMIT
    && |p.relayer| < I64_LIMIT && |p.error| < I64_LIMIT && |p.originalTarget| < I64_LIMIT
  }

  lemma RecordFits(p: Record)
    requires Sized(p)
    ensures OptionsFit(SCHEMA, Options(p), 1) && AllFit(SCHEMA, ListOf(Options(p), 1))
  {
    hide Fits, Present, Message, Number;
    BytesFit(p.rollappId);
    BytesFit(p.acknowledgement);
    BytesFit(p.relayer);
    BytesFit(p.error);
    BytesFit(p.originalTarget);
    MessageFits(p.packet);
    NumbersFit(p.status);
    NumbersFit(p.proofHeight);
    NumbersFit(p.ptype);
    ListFits(SCHEMA, Options(p), 1);
  }

  lemma BytesFit(b: bytes)
    requires |b| < I64_LIMIT
    ensures Present(b).Some? ==> forall n :: n in {1, 3, 6, 8, 9} ==> Fits(SCHEMA, n, Present(b).value)
  {
  }

  lemma MessageFits(p: Option<bytes>)
    requires p.Some? ==> |p.value| < I64_LIMIT
    ensures Message(p).Some? ==> Fits(SCHEMA, 2, Message(p).value)
  {
  }

  lemma NumbersFit(x: int)
    ensures Number(x).Some? ==> forall n :: n in {4, 5, 7} ==> Fits(SCHEMA, n, Number(x).value)
  {
  }

  function RecordBytes(p: Record): (s: bytes)
    requires Sized(p)
  {
    RecordFits(p);
    WriteAll(SCHEMA, ListOf(Options(p), 1))
  }

  // ---------------------------------------------------------------- layout

  /** A number that is not zero, behind its tag; a negative one as its 64-bit complement. */
  function Numbered(tag: byte, x: int): bytes
    requires -U64_SIZE <= x
  {
    if x == 0 then [] else [tag] + Varint.Encode(if x < 0 then x + U64_SIZE else x)
  }

  /** An embedded message is written even if it is empty. */
  function Embedded(tag: byte, p: Option<bytes>): bytes {
    if p.None? then [] else [tag] + Varint.Encode(|p.value|) + p.value
  }

  function Layout(p: Record): bytes {
    Delimited(0x0a, p.rollappId) + (Embedded(0x12, p.packet) + (Delimited(0x1a, p.acknowledgement)
    + (Numbered(0x20, p.status) + (Numbered(0x28, p.proofHeight) + (Delimited(0x32, p.relayer)
    + (Numbered(0x38, p.ptype) + (Delimited(0x42, p.error) + Delimited(0x4a, p.originalTarget))))))))
  }

  /** Each field stands under the tag the schema gives it, in this order. */
  lemma RecordLayout(p: Record)
    requires Sized(p)
    ensures RecordBytes(p) == Layout(p)
  {
    hide WriteField, WriteAll, ListOf, OptionsFit, AllFit, Text, Delimited, Embedded, Numbered, Present, Message,
      Number;
    var opts := Options(p);
    RecordFits(p);
    LastTail(opts);
    var w9 := Before(opts, 9, []);
    DelimitedIs(9, p.originalTarget);
    var w8 := Before(opts, 8, w9);
    DelimitedIs(8, p.error);
    var w7 := Before(opts, 7, w8);
    NumberedIs(7, p.ptype);
    var w6 := Before(opts, 6, w7);
    DelimitedIs(6, p.relayer);
    var w5 := Before(opts, 5, w6);
    NumberedIs(5, p.proofHeight);
    var w4 := Before(opts, 4, w5);
    NumberedIs(4, p.status);
    var w3 := Before(opts, 3, w4);
    DelimitedIs(3, p.acknowledgement);
    var w2 := Before(opts, 2, w3);
    EmbeddedIs(p.packet);
    var w1 := Before(opts, 1, w2);
    DelimitedIs(1, p.rollappId);
    assert opts[0..] == opts;
    assert w9 == Delimited(0x4a, p.originalTarget) + [] == Delimited(0x4a, p.originalTarget);
  }

  lemma LastTail(opts: seq<Optional>)
    requires OptionsFit(SCHEMA, opts, 1)
    ensures Tail(opts, |opts|, [])
  {
    assert opts[|opts|..] == [];
  }

  lemma Before(opts: seq<Optional>, num: nat, w: bytes) returns (w': bytes)
    requires 1 <= num <= |opts| && Tail(opts, num, w)
    ensures opts[num - 1].Some? ==> Writable(num, opts[num - 1].value)
    ensures w' == Text(num, opts[num - 1]) + w && Tail(opts, num - 1, w')
  {
    hide Text, Tail;
    TailStep(opts, num, w);
    w' := Text(num, opts[num - 1]) + w;
  }

  lemma NumberedIs(num: nat, x: int)
    requires 1 <= num < 16 && -I32_LIMIT <= x < U64_SIZE
    ensures Text(num, Number(x)) == Numbered(num * 8, x)
  {
    hide WriteField;
    if x != 0 {
      assert x % U64_SIZE == if x < 0 then x + U64_SIZE else x;
      TextShape(num, Num(x % U64_SIZE));
    }
  }

  lemma EmbeddedIs(p: Option<bytes>)
    requires p.Some? ==> |p.value| < I64_LIMIT
    ensures Text(2, Message(p)) == Embedded(0x12, p)
  {
    hide WriteField;
    if p.Some? {
      TextShape(2, Len(p.value));
      assert [0x12] + (Varint.Encode(|p.value|) + p.value) == [0x12] + Varint.Encode(|p.value|) + p.value;
    }
  }

  // ---------------------------------------------------------------- reading

  function BytesOf(o: Optional): bytes { if o.Some? && o.value.Len? then o.value.b else [] }

  function MessageOf(o: Optional): Option<bytes> { if o.Some? && o.value.Len? then Some(o.value.b) else None }

  /** An enum keeps the low 32 bits of what was read. */
  function EnumOf(o: Optional): (x: i32) { if o.Some? && o.value.Num? then ToInt32(o.value.n) else 0 }

  function HeightOf(o: Optional): u64 { if o.Some? && o.value.Num? then o.value.n else 0 }

  function FromFields(m: Fields): (p: Record) {
    Record(BytesOf(Get(m, 1)), MessageOf(Get(m, 2)), BytesOf(Get(m, 3)), EnumOf(Get(m, 4)), HeightOf(Get(m, 5)),
           BytesOf(Get(m, 6)), EnumOf(Get(m, 7)), BytesOf(Get(m, 8)), BytesOf(Get(m, 9)))
  }

  /** Unmarshal into an empty record. */
  function ReadRecord(s: bytes): (r: Option<Record>) {
    var m := Parse(SCHEMA, s, map[]);
    if m.None? then None else Some(FromFields(m.value))
  }

  lemma EnumRoundTrip(x: i32)
    ensures EnumOf(Number(x)) == x
  {
    assert x < 0 ==> x % U64_SIZE == x + U64_SIZE;
  }

  lemma FieldsRoundTrip(p: Record, m: Fields)
    requires forall n :: 1 <= n <= 9 ==> Get(m, n) == Options(p)[n - 1]
    ensures FromFields(m) == p
  {
    hide Get, EnumOf, Number;
    EnumRoundTrip(p.status);
    EnumRoundTrip(p.ptype);
    HeightRoundTrip(p.proofHeight);
    var opts := Options(p);
    assert Get(m, 1) == opts[0] && Get(m, 2) == opts[1] && Get(m, 3) == opts[2];
    assert Get(m, 4) == opts[3] && Get(m, 5) == opts[4] && Get(m, 6) == opts[5];
    assert Get(m, 7) == opts[6] && Get(m, 8) == opts[7] && Get(m, 9) == opts[8];
  }

  lemma HeightRoundTrip(h: u64)
    ensures HeightOf(Number(h)) == h && (Number(h).None? <==> h == 0)
  {
  }

  /** What the store writes it reads back: every field, a missing packet as missing, an undefined type as -1. */
  lemma RecordRoundTrip(p: Record)
    requires Sized(p)
    ensures ReadRecord(RecordBytes(p)) == Some(p)
  {
    hide Parse, WriteAll, ListOf, PutAll, Options, FromFields, Get;
    RecordFits(p);
    var fs := ListOf(Options(p), 1);
    ListRoundTrip(SCHEMA, fs, map[]);
    var m := PutAll(SCHEMA, map[], fs);
    forall n | 1 <= n <= 9 ensures Get(m, n) == Options(p)[n - 1] {
      PutList(SCHEMA, map[], Options(p), 1, n);
      GetNone(n);
      AfterNone(n, Options(p)[n - 1]);
    }
    FieldsRoundTrip(p, m);
  }

  lemma GetNone(n: int)
    ensures Get(map[], n) == None
  {
  }

  function Later<T(==)>(before: T, after: T, empty: T): T { if after == empty then before else after }

  /** The merge of two records: later fields win, and the bytes of an embedded packet go on. */
  function Merge(a: Record, b: Record): Record {
    Record(Later(a.rollappId, b.rollappId, []),
           if b.packet.None? then a.packet else if a.packet.None? then b.packet
             else Some(a.packet.value + b.packet.value),
           Later(a.acknowledgement, b.acknowledgement, []), Later(a.status, b.status, 0),
             Later(a.proofHeight, b.proofHeight, 0),
           Later(a.relayer, b.relayer, []), Later(a.ptype, b.ptype, 0), Later(a.error, b.error, []),
           Later(a.originalTarget, b.originalTarget, []))
  }

  lemma FieldsMerge(a: Record, b: Record, m: Fields)
    requires forall n :: 1 <= n <= 9 ==> Get(m, n) == After(SCHEMA, n, Options(a)[n - 1], Options(b)[n - 1])
    ensures FromFields(m) == Merge(a, b)
  {
    hide Get, After, Later, Present, Number, Message, BytesOf, EnumOf, HeightOf, MessageOf;
    var x, y := Options(a), Options(b);
    assert Get(m, 1) == After(SCHEMA, 1, x[0], y[0]) && Get(m, 2) == After(SCHEMA, 2, x[1], y[1])
      && Get(m, 3) == After(SCHEMA, 3, x[2], y[2]);
    assert Get(m, 4) == After(SCHEMA, 4, x[3], y[3]) && Get(m, 5) == After(SCHEMA, 5, x[4], y[4])
      && Get(m, 6) == After(SCHEMA, 6, x[5], y[5]);
    assert Get(m, 7) == After(SCHEMA, 7, x[6], y[6]) && Get(m, 8) == After(SCHEMA, 8, x[7], y[7])
      && Get(m, 9) == After(SCHEMA, 9, x[8], y[8]);
    BytesMerge(1, a.rollappId, b.rollappId);
    MessagesMerge(a.packet, b.packet);
    BytesMerge(3, a.acknowledgement, b.acknowledgement);
    EnumsMerge(4, a.status, b.status);
    HeightsMerge(a.proofHeight, b.proofHeight);
    BytesMerge(6, a.relayer, b.relayer);
    EnumsMerge(7, a.ptype, b.ptype);
    BytesMerge(8, a.error, b.error);
    BytesMerge(9, a.originalTarget, b.originalTarget);
  }

  lemma BytesMerge(n: int, x: bytes, y: bytes)
    requires n in SCHEMA && SCHEMA[n].LenKind?
    ensures BytesOf(After(SCHEMA, n, Present(x), Present(y))) == Later(x, y, [])
  {
  }

  lemma MessagesMerge(x: Option<bytes>, y: Option<bytes>)
    ensures MessageOf(After(SCHEMA, 2, Message(x), Message(y))) ==
              if y.None? then x else if x.None? then y else Some(x.value + y.value)
  {
  }

  lemma EnumsMerge(n: int, x: i32, y: i32)
    requires n in SCHEMA && SCHEMA[n].NumKind?
    ensures EnumOf(After(SCHEMA, n, Number(x), Number(y))) == Later(x, y, 0)
  {
    hide EnumOf, Number;
    NumberRoundTrip(x);
    NumberRoundTrip(y);
  }

  lemma HeightsMerge(x: u64, y: u64)
    ensures HeightOf(After(SCHEMA, 5, Number(x), Number(y))) == Later(x, y, 0)
  {
    hide Number;
    HeightRoundTrip(x);
    HeightRoundTrip(y);
  }

  lemma NumberRoundTrip(x: i32)
    ensures EnumOf(Number(x)) == x && (Number(x).None? <==> x == 0)
  {
    EnumRoundTrip(x);
  }

  /** Two records one after the other give their merge. */
  lemma RecordConcat(a: Record, b: Record)
    requires Sized(a) && Sized(b)
    ensures ReadRecord(RecordBytes(a) + RecordBytes(b)) == Some(Merge(a, b))
  {
    hide Parse, WriteAll, ListOf, PutAll, Options, FromFields, Get, Merge, After;
    RecordFits(a);
    RecordFits(b);
    var fa, fb := ListOf(Options(a), 1), ListOf(Options(b), 1);
    var m := PutAll(SCHEMA, map[], fa);
    ListRoundTrip(SCHEMA, fa, map[]);
    ListRoundTrip(SCHEMA, fb, m);
    ParseAppend(SCHEMA, RecordBytes(a), RecordBytes(b), map[]);
    var r := PutAll(SCHEMA, m, fb);
    forall n | 1 <= n <= 9 ensures Get(r, n) == After(SCHEMA, n, Options(a)[n - 1], Options(b)[n - 1]) {
      PutList(SCHEMA, map[], Options(a), 1, n);
      GetNone(n);
      AfterNone(n, Options(a)[n - 1]);
      PutList(SCHEMA, m, Options(b), 1, n);
    }
    FieldsMerge(a, b, r);
  }

  lemma AfterNone(n: int, o: Optional)
    ensures After(SCHEMA, n, None, o) == o
  {
  }

  /** Distinct records have distinct bytes. */
  lemma RecordBytesInjective(p: Record, q: Record)
    requires Sized(p) && Sized(q) && RecordBytes(p) == RecordBytes(q)
    ensures p == q
  {
    hide RecordBytes, ReadRecord;
    RecordRoundTrip(p);
    RecordRoundTrip(q);
  }

  // ---------------------------------------------------------------- the reading loop

  /** The assignment each case of the switch makes. */
  function SetField(p: Record, num: int, v: Value): (q: Record)
    requires num in SCHEMA && (SCHEMA[num].NumKind? <==> v.Num?)
  {
    match num
    case 1 => p.(rollappId := v.b)
    case 2 => p.(packet := Some((if p.packet.Some? then p.packet.value else []) + v.b))
    case 3 => p.(acknowledgement := v.b)
    case 4 => p.(status := ToInt32(v.n))
    case 5 => p.(proofHeight := v.n)
    case 6 => p.(relayer := v.b)
    case 7 => p.(ptype := ToInt32(v.n))
    case 8 => p.(error := v.b)
    case _ => p.(originalTarget := v.b)
  }

  ghost predicate WellTyped(m: Fields) { forall n :: n in m && n in SCHEMA ==> (SCHEMA[n].NumKind? <==> m[n].Num?) }

  lemma GetPut(m: Fields, num: int, v: Value, n: int)
    requires WellTyped(m) && num in SCHEMA && (SCHEMA[num].NumKind? <==> v.Num?)
    ensures WellTyped(PutOne(SCHEMA, m, num, v))
    ensures Get(PutOne(SCHEMA, m, num, v), n) ==
              if n != num then Get(m, n)
              else if num == 2 then Some(Len((if 2 in m then m[2].b else []) + v.b))
              else Some(v)
  {
    if num == 2 && 2 !in m { assert [] + v.b == v.b; }
  }

  lemma SetFieldIsPut(m: Fields, num: int, v: Value)
    requires WellTyped(m) && num in SCHEMA && (SCHEMA[num].NumKind? <==> v.Num?)
    ensures FromFields(PutOne(SCHEMA, m, num, v)) == SetField(FromFields(m), num, v)
  {
    var r := PutOne(SCHEMA, m, num, v);
    assert Get(m, 2) == if 2 in m then Some(m[2]) else None;
    forall n ensures Get(r, n) == if n != num then Get(m, n)
      else if num == 2 then Some(Len((if 2 in m then m[2].b else []) + v.b)) else Some(v) {
      GetPut(m, num, v, n);
    }
    hide PutOne, Get, ToInt32;
  }

  /** Unmarshal of RollappPacket. */
  method UnmarshalRecord(s: bytes) returns (r: Option<Record>)
    requires |s| <= MAX_INPUT
    ensures r == ReadRecord(s)
  {
    hide NextField, ToInt32, PutOne, FromFields, SetField;
    var i := 0;
    var p := Record([], None, [], 0, 0, [], 0, [], []);
    ghost var m: Fields := map[];
    EmptyRecord();
    assert s[0..] == s;
    while i < |s|
      invariant 0 <= i <= |s|
      invariant Parse(SCHEMA, s[i..], m) == Parse(SCHEMA, s, map[])
      invariant WellTyped(m) && FromFields(m) == p
      decreases |s| - i
    {
      var f := ReadField(SCHEMA, s, i);
      if f.None? { return None; }
      assert s[i..][f.value.size..] == s[i + f.value.size..];
      match f.value {
        case Known(num, v, size) =>
          KnownFields(SCHEMA, s[i..]);
          GetPut(m, num, v, 0);
          SetFieldIsPut(m, num, v);
          p := SetField(p, num, v);
          m := PutOne(SCHEMA, m, num, v);
          i := i + size;
        case Unknown(size) => i := i + size;
      }
    }
    assert s[i..] == [];
    r := Some(p);
  }

  lemma EmptyRecord()
    ensures FromFields(map[]) == Record([], None, [], 0, 0, [], 0, [], [])
  {
  }

  // ---------------------------------------------------------------- writing

  /** Size. */
  function RecordSize(p: Record): (n: nat) { Total(Options(p)) }

  function Total(opts: seq<Optional>): (n: nat) { if opts == [] then 0 else SizeOf(opts[0]) + Total(opts[1..]) }

  /** The fields from a number on, as they are written. */
  ghost predicate Tail(opts: seq<Optional>, from: nat, w: bytes) {
    && from <= |opts| && OptionsFit(SCHEMA, opts, 1) && OptionsFit(SCHEMA, opts[from..], 1 + from)
    && AllFit(SCHEMA, ListOf(opts[from..], 1 + from)) && w == WriteAll(SCHEMA, ListOf(opts[from..], 1 + from))
  }

  lemma {:induction false} OptionsDrop(opts: seq<Optional>, from: int, k: nat)
    requires OptionsFit(SCHEMA, opts, from) && k <= |opts|
    ensures OptionsFit(SCHEMA, opts[k..], from + k)
  {
    forall i | 0 <= i < |opts[k..]| && opts[k..][i].Some? ensures Fits(SCHEMA, from + k + i, opts[k..][i].value) {
      assert opts[k..][i] == opts[k + i];
      assert Fits(SCHEMA, from + (k + i), opts[k + i].value);
    }
  }

  lemma TailStep(opts: seq<Optional>, num: nat, w: bytes)
    requires 1 <= num <= |opts| && Tail(opts, num, w)
    ensures opts[num - 1].Some? ==> Writable(num, opts[num - 1].value)
    ensures Tail(opts, num - 1, Text(num, opts[num - 1]) + w)
    ensures Total(opts[num - 1..]) == SizeOf(opts[num - 1]) + Total(opts[num..])
  {
    hide WriteField, SizeOf, OptionsFit, AllFit, WriteAll;
    OptionsDrop(opts, 1, num - 1);
    var rest := opts[num - 1..];
    assert rest[0] == opts[num - 1] && rest[1..] == opts[num..];
    OptionsTail(SCHEMA, rest, num);
    WriteListStep(SCHEMA, rest, num);
  }

  /** The buffer when the fields from a number on are in place, and nothing else has changed. */
  ghost predicate Placed(before: bytes, buf: bytes, i: nat, opts: seq<Optional>, from: nat, w: bytes) {
    && Tail(opts, from, w) && i + |w| == |before| && |w| == Total(opts[from..])
    && buf == Varint.Splice(before, i, w, |before|)
  }

  /** One more field in front, as MarshalToSizedBuffer goes from the last field to the first. */
  method PutNext(buf: array<byte>, i: nat, num: nat, o: Optional, ghost before: bytes, ghost opts: seq<Optional>,
                 ghost w: bytes)
    returns (j: nat, ghost w': bytes)
    requires 1 <= num <= |opts| < 15 && o == opts[num - 1] && Placed(before, buf[..], i, opts, num, w)
    requires Total(opts) <= buf.Length == |before|
    modifies buf
    ensures Placed(before, buf[..], j, opts, num - 1, w')
  {
    hide WriteField, SizeOf, Text, Tail, Varint.Splice, Total;
    TailStep(opts, num, w);
    TotalSplit(opts, num - 1);
    j := PutField(buf, i, num, o);
    w' := Text(num, o) + w;
    Varint.SpliceTwice(before, j, Text(num, o), i, w, |before|);
  }

  lemma {:induction false} TotalSplit(opts: seq<Optional>, k: nat)
    requires k <= |opts|
    ensures Total(opts) >= Total(opts[k..])
  {
    if k == 0 {
      assert opts[0..] == opts;
    } else {
      TotalSplit(opts[1..], k - 1);
      assert opts[1..][k - 1..] == opts[k..];
    }
  }

  /** MarshalToSizedBuffer: the record fills the end of the buffer, and exactly its announced size. */
  method MarshalRecordTo(buf: array<byte>, p: Record) returns (n: nat)
    requires Sized(p) && RecordSize(p) <= buf.Length
    modifies buf
    ensures n == RecordSize(p) && buf[buf.Length - n..] == RecordBytes(p)
            && buf[..buf.Length - n] == old(buf[..buf.Length - n])
  {
    hide Placed, Total, Varint.Splice, RecordBytes, Present, Number, Message;
    ghost var opts, before := Options(p), buf[..];
    ghost var w: bytes := [];
    RecordFits(p);
    PlacedStart(before, opts);
    var i := buf.Length;
    i, w := PutNext(buf, i, 9, Present(p.originalTarget), before, opts, w);
    i, w := PutNext(buf, i, 8, Present(p.error), before, opts, w);
    i, w := PutNext(buf, i, 7, Number(p.ptype), before, opts, w);
    i, w := PutNext(buf, i, 6, Present(p.relayer), before, opts, w);
    i, w := PutNext(buf, i, 5, Number(p.proofHeight), before, opts, w);
    i, w := PutNext(buf, i, 4, Number(p.status), before, opts, w);
    i, w := PutNext(buf, i, 3, Present(p.acknowledgement), before, opts, w);
    i, w := PutNext(buf, i, 2, Message(p.packet), before, opts, w);
    i, w := PutNext(buf, i, 1, Present(p.rollappId), before, opts, w);
    PlacedEnd(before, buf[..], i, p, w);
    n := buf.Length - i;
  }

  lemma PlacedStart(buf: bytes, opts: seq<Optional>)
    requires OptionsFit(SCHEMA, opts, 1)
    ensures Placed(buf, buf, |buf|, opts, |opts|, [])
  {
    assert opts[|opts|..] == [];
    Varint.SpliceNothing(buf, |buf|);
  }

  lemma PlacedEnd(before: bytes, buf: bytes, i: nat, p: Record, w: bytes)
    requires Sized(p) && Placed(before, buf, i, Options(p), 0, w)
    ensures i <= |before| == |buf| && buf[i..] == RecordBytes(p) && buf[..i] == before[..i]
            && |before| - i == RecordSize(p)
  {
    hide Options, WriteAll, Total, Varint.Splice, OptionsFit, AllFit;
    RecordFits(p);
    assert Options(p)[0..] == Options(p);
    SpliceEnd(before, i, w, buf);
  }

  /** Marshal: the record's bytes have the announced size, no more and no less. */
  method MarshalRecord(p: Record) returns (s: bytes)
    requires Sized(p)
    ensures s == RecordBytes(p) && |s| == RecordSize(p)
  {
    hide RecordBytes, RecordSize;
    var buf := new byte[RecordSize(p)](_ => 0);
    var n := MarshalRecordTo(buf, p);
    s := buf[..n];
  }
}
