// The bridge's self-delimiting binary format: what `SseEncode` writes and what `SseDecode` reads.
// The generated file has one encoder and one decoder per type, all built from the same few shapes;
// a `Schema` names the shape of a type and the functions below give each shape its meaning.
module Codec {
  import opened Wrappers
  import opened Utf8
  import opened FixedInts

  datatype Field = Field(name: string, ty: Schema)

  datatype Case = Case(name: string, fields: seq<Field>)

  datatype Schema =
    | Int(kind: Kind)
    | Bool
    | Str
    | Vec(elem: Schema)
    | Opt(elem: Schema)
    | Enum(variants: seq<string>)
    | Record(fields: seq<Field>)
    | Union(cases: seq<Case>)

  datatype Val =
    | IntV(n: int)
    | BoolV(b: bool)
    | StrV(s: string)
    | VecV(items: seq<Val>)
    | NoneV
    | SomeV(v: Val)
    | EnumV(variant: string)
    | RecordV(members: map<string, Val>)
    | UnionV(tag: string, members: map<string, Val>)

  const I32_LIMIT := 0x8000_0000

  // ---------- names ----------

  function IndexOf(names: seq<string>, name: string): (i: nat)
    requires name in names
    ensures i < |names| && names[i] == name && name !in names[..i]
  {
    if names[0] == name then 0
    else
      var j := IndexOf(names[1..], name);
      assert names[..j + 1] == [names[0]] + names[1..][..j];
      j + 1
  }

  function FieldNames(fields: seq<Field>): (names: set<string>) {
    set f | f in fields :: f.name
  }

  function CaseNames(cases: seq<Case>): (names: seq<string>)
    ensures |names| == |cases| && forall i | 0 <= i < |cases| :: names[i] == cases[i].name
  {
    seq(|cases|, i requires 0 <= i < |cases| => cases[i].name)
  }

  predicate Distinct(names: seq<string>) {
    forall i, j | 0 <= i < j < |names| :: names[i] != names[j]
  }

  lemma IndexOfDistinct(names: seq<string>, i: nat)
    requires i < |names| && Distinct(names)
    ensures IndexOf(names, names[i]) == i
  {
  }

  // ---------- schemas and the values that have them ----------

  predicate WellFormed(t: Schema)
    decreases t, 0
  {
    match t
    case Int(_) => true
    case Bool => true
    case Str => true
    case Vec(e) => WellFormed(e)
    case Opt(e) => WellFormed(e)
    case Enum(names) => Distinct(names) && |names| < I32_LIMIT
    case Record(fields) => WellFormedFields(fields)
    case Union(cases) =>
      Distinct(CaseNames(cases)) && |cases| < I32_LIMIT && forall c | c in cases :: WellFormedFields(c.fields)
  }

  predicate WellFormedFields(fields: seq<Field>)
    decreases fields, 0
  {
    (forall i, j | 0 <= i < j < |fields| :: fields[i].name != fields[j].name) &&
    forall i | 0 <= i < |fields| :: WellFormed(fields[i].ty)
  }

  predicate Typed(t: Schema, v: Val)
    decreases t, 0
  {
    match t
    case Int(k) => v.IntV? && k.InRange(v.n)
    case Bool => v.BoolV?
    case Str => v.StrV?
    case Vec(e) => v.VecV? && forall x | x in v.items :: Typed(e, x)
    case Opt(e) => v.NoneV? || (v.SomeV? && Typed(e, v.v))
    case Enum(names) => v.EnumV? && v.variant in names
    case Record(fields) => v.RecordV? && v.members.Keys == FieldNames(fields) && TypedFields(fields, v.members)
    case Union(cases) =>
      v.UnionV? && v.tag in CaseNames(cases) &&
      var fields := cases[IndexOf(CaseNames(cases), v.tag)].fields;
      v.members.Keys == FieldNames(fields) && TypedFields(fields, v.members)
  }

  predicate TypedFields(fields: seq<Field>, m: map<string, Val>)
    decreases fields, 0
  {
    forall f | f in fields :: f.name in m && Typed(f.ty, m[f.name])
  }

  // Every vector, and every string counted in bytes, is short enough for an i32 length prefix.
  predicate Sized(t: Schema, v: Val)
    requires Typed(t, v)
    decreases t, 0
  {
    match t
    case Int(_) => true
    case Bool => true
    case Str => |Utf8.Encode(v.s)| < I32_LIMIT
    case Vec(e) => |v.items| < I32_LIMIT && forall x | x in v.items :: Sized(e, x)
    case Opt(e) => v.SomeV? ==> Sized(e, v.v)
    case Enum(_) => true
    case Record(fields) => SizedFields(fields, v.members)
    case Union(cases) => SizedFields(cases[IndexOf(CaseNames(cases), v.tag)].fields, v.members)
  }

  predicate SizedFields(fields: seq<Field>, m: map<string, Val>)
    requires TypedFields(fields, m)
    decreases fields, 0
  {
    forall f | f in fields :: Sized(f.ty, m[f.name])
  }

  // ---------- the encoders ----------

  function EncodeBool(b: bool): (bytes: seq<Byte>)
    ensures |bytes| == 1
  {
    [if b then 1 else 0]
  }

  // `self.len() as i32`: the prefix wraps for a length of 2^31 or more.
  function EncodeLength(order: Order, n: nat): (bytes: seq<Byte>) {
    EncodeInt(order, I32, Wrap(I32, n))
  }

  // An enum's index or a union's tag. Both are below 2^31 for a well-formed schema.
  function EncodeIndex(order: Order, i: nat): (bytes: seq<Byte>) {
    EncodeInt(order, I32, Wrap(I32, i))
  }

  function Enc(order: Order, t: Schema, v: Val): (bytes: seq<Byte>)
    requires Typed(t, v)
    decreases t, 0, 0
  {
    match t
    case Int(k) => EncodeInt(order, k, v.n)
    case Bool => EncodeBool(v.b)
    case Str => EncodeLength(order, |Utf8.Encode(v.s)|) + Utf8.Encode(v.s)
    case Vec(e) => EncodeLength(order, |v.items|) + EncAll(order, e, v.items)
    case Opt(e) => if v.SomeV? then EncodeBool(true) + Enc(order, e, v.v) else EncodeBool(false)
    case Enum(names) => EncodeIndex(order, IndexOf(names, v.variant))
    case Record(fields) => EncFields(order, fields, v.members)
    case Union(cases) =>
      var i := IndexOf(CaseNames(cases), v.tag);
      EncodeIndex(order, i) + EncFields(order, cases[i].fields, v.members)
  }

  function EncAll(order: Order, e: Schema, items: seq<Val>): (bytes: seq<Byte>)
    requires forall x | x in items :: Typed(e, x)
    decreases e, 1, |items|
  {
    if items == [] then [] else Enc(order, e, items[0]) + EncAll(order, e, items[1..])
  }

  function EncFields(order: Order, fields: seq<Field>, m: map<string, Val>): (bytes: seq<Byte>)
    requires TypedFields(fields, m)
    decreases fields, 0, 0
  {
    if fields == [] then []
    else Enc(order, fields[0].ty, m[fields[0].name]) + EncFields(order, fields[1..], m)
  }

  // ---------- the decoders ----------

  // A byte other than zero reads as true.
  function DecodeBool(bytes: seq<Byte>): (r: Option<(bool, seq<Byte>)>) {
    if bytes == [] then None else Some((bytes[0] != 0, bytes[1..]))
  }

  // Reads an i32 and iterates `0..len_`, so a negative length is no iteration at all.
  function DecodeLength(order: Order, bytes: seq<Byte>): (r: Option<(nat, seq<Byte>)>) {
    var i := DecodeInt(order, I32, bytes);
    if i.None? then None else Some((if i.value.0 < 0 then 0 else i.value.0, i.value.1))
  }

  function DecodeIndex(order: Order, limit: nat, bytes: seq<Byte>): (r: Option<(nat, seq<Byte>)>)
    ensures r.Some? ==> r.value.0 < limit
  {
    var i := DecodeInt(order, I32, bytes);
    if i.Some? && 0 <= i.value.0 < limit then Some(i.value) else None
  }

  // None stands for the panics of the generated code: a short buffer, an unknown index, bad UTF-8.
  function Dec(order: Order, t: Schema, bytes: seq<Byte>): (r: Option<(Val, seq<Byte>)>)
    decreases t, 0, 0
  {
    match t
    case Int(k) =>
      var i := DecodeInt(order, k, bytes);
      if i.None? then None else Some((IntV(i.value.0), i.value.1))
    case Bool =>
      var b := DecodeBool(bytes);
      if b.None? then None else Some((BoolV(b.value.0), b.value.1))
    case Str =>
      var len := DecodeLength(order, bytes);
      if len.None? || |len.value.1| < len.value.0 then None
      else
        var s := Utf8.Decode(len.value.1[..len.value.0]);
        if s.None? then None else Some((StrV(s.value), len.value.1[len.value.0..]))
    case Vec(e) =>
      var len := DecodeLength(order, bytes);
      if len.None? then None
      else
        var items := DecAll(order, e, len.value.0, len.value.1);
        if items.None? then None else Some((VecV(items.value.0), items.value.1))
    case Opt(e) =>
      var b := DecodeBool(bytes);
      if b.None? then None
      else if !b.value.0 then Some((NoneV, b.value.1))
      else
        var x := Dec(order, e, b.value.1);
        if x.None? then None else Some((SomeV(x.value.0), x.value.1))
    case Enum(names) =>
      var i := DecodeIndex(order, |names|, bytes);
      if i.None? then None else Some((EnumV(names[i.value.0]), i.value.1))
    case Record(fields) =>
      var m := DecFields(order, fields, bytes);
      if m.None? then None else Some((RecordV(m.value.0), m.value.1))
    case Union(cases) =>
      var i := DecodeIndex(order, |cases|, bytes);
      if i.None? then None
      else
        var m := DecFields(order, cases[i.value.0].fields, i.value.1);
        if m.None? then None else Some((UnionV(cases[i.value.0].name, m.value.0), m.value.1))
  }

  function DecAll(order: Order, e: Schema, n: nat, bytes: seq<Byte>): (r: Option<(seq<Val>, seq<Byte>)>)
    decreases e, 1, n
  {
    if n == 0 then Some(([], bytes))
    else
      var x := Dec(order, e, bytes);
      if x.None? then None
      else
        var rest := DecAll(order, e, n - 1, x.value.1);
        if rest.None? then None else Some(([x.value.0] + rest.value.0, rest.value.1))
  }

  function DecFields(order: Order, fields: seq<Field>, bytes: seq<Byte>): (r: Option<(map<string, Val>, seq<Byte>)>)
    decreases fields, 0, 0
  {
    if fields == [] then Some((map[], bytes))
    else
      var x := Dec(order, fields[0].ty, bytes);
      if x.None? then None
      else
        var rest := DecFields(order, fields[1..], x.value.1);
        if rest.None? then None
        else Some((rest.value.0[fields[0].name := x.value.0], rest.value.1))
  }
}
