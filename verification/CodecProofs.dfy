// Encoder and decoder undo each other, for every schema at once.
module CodecProofs {
  import opened Wrappers
  import opened Utf8
  import opened FixedInts
  import opened Codec

  // ---------- decoding what was encoded ----------

  lemma LengthRoundTrip(order: Order, n: nat, rest: seq<Byte>)
    requires n < I32_LIMIT
    ensures DecodeLength(order, EncodeLength(order, n) + rest) == Some((n, rest))
  {
    Pow256Values();
    IntRoundTrip(order, I32, n, rest);
  }

  lemma IndexRoundTrip(order: Order, i: nat, limit: nat, rest: seq<Byte>)
    requires i < limit <= I32_LIMIT
    ensures DecodeIndex(order, limit, EncodeIndex(order, i) + rest) == Some((i, rest))
  {
    Pow256Values();
    IntRoundTrip(order, I32, i, rest);
  }

  lemma {:induction false} ValueRoundTrip(order: Order, t: Schema, v: Val, rest: seq<Byte>)
    requires WellFormed(t) && Typed(t, v) && Sized(t, v)
    ensures Dec(order, t, Enc(order, t, v) + rest) == Some((v, rest))
    decreases t, 0, 0
  {
    match t
    case Int(k) => IntRoundTrip(order, k, v.n, rest);
    case Bool => assert (EncodeBool(v.b) + rest)[1..] == rest;
    case Str =>
      var body := Utf8.Encode(v.s);
      Associate(EncodeLength(order, |body|), body, rest);
      LengthRoundTrip(order, |body|, body + rest);
      Utf8.RoundTrip(v.s);
      assert (body + rest)[..|body|] == body && (body + rest)[|body|..] == rest;
    case Vec(e) =>
      Associate(EncodeLength(order, |v.items|), EncAll(order, e, v.items), rest);
      LengthRoundTrip(order, |v.items|, EncAll(order, e, v.items) + rest);
      ItemsRoundTrip(order, e, v.items, rest);
    case Opt(e) => OptRoundTrip(order, e, v, rest);
    case Enum(names) =>
      IndexRoundTrip(order, IndexOf(names, v.variant), |names|, rest);
    case Record(fields) =>
      FieldsRoundTrip(order, fields, v.members, rest);
      assert Only(fields, v.members) == v.members;
    case Union(cases) => UnionRoundTrip(order, cases, v, rest);
  }

  lemma {:induction false} OptRoundTrip(order: Order, e: Schema, v: Val, rest: seq<Byte>)
    requires WellFormed(e) && Typed(Opt(e), v) && Sized(Opt(e), v)
    ensures Dec(order, Opt(e), Enc(order, Opt(e), v) + rest) == Some((v, rest))
    decreases e, 1, 0
  {
    if v.SomeV? {
      var body := Enc(order, e, v.v);
      Associate([1], body, rest);
      ValueRoundTrip(order, e, v.v, rest);
      OptionStep(order, e, body + rest, v.v, rest);
    } else {
      assert ([0] + rest)[1..] == rest;
    }
  }

  lemma OptionStep(order: Order, e: Schema, bytes: seq<Byte>, x: Val, rest: seq<Byte>)
    requires Dec(order, e, bytes) == Some((x, rest))
    ensures Dec(order, Opt(e), [1] + bytes) == Some((SomeV(x), rest))
  {
    assert ([1] + bytes)[1..] == bytes;
  }

  lemma {:induction false} UnionRoundTrip(order: Order, cases: seq<Case>, v: Val, rest: seq<Byte>)
    requires WellFormed(Union(cases)) && Typed(Union(cases), v) && Sized(Union(cases), v)
    ensures Dec(order, Union(cases), Enc(order, Union(cases), v) + rest) == Some((v, rest))
    decreases cases, 1, 0
  {
    var i := IndexOf(CaseNames(cases), v.tag);
    var fields := cases[i].fields;
    assert cases[i] in cases;
    Associate(EncodeIndex(order, i), EncFields(order, fields, v.members), rest);
    IndexRoundTrip(order, i, |cases|, EncFields(order, fields, v.members) + rest);
    FieldsRoundTrip(order, fields, v.members, rest);
    assert Only(fields, v.members) == v.members;
  }

  lemma Associate(a: seq<Byte>, b: seq<Byte>, c: seq<Byte>)
    ensures a + b + c == a + (b + c)
  {
  }

  lemma {:induction false} ItemsRoundTrip(order: Order, e: Schema, items: seq<Val>, rest: seq<Byte>)
    requires WellFormed(e) && forall x | x in items :: Typed(e, x) && Sized(e, x)
    ensures DecAll(order, e, |items|, EncAll(order, e, items) + rest) == Some((items, rest))
    decreases e, 1, |items|
  {
    if items == [] {
      assert EncAll(order, e, items) + rest == rest;
    } else {
      var x, others := items[0], items[1..];
      assert x in items && forall y | y in others :: y in items;
      FirstItemFirst(order, e, items, rest);
      var body := EncAll(order, e, others) + rest;
      ValueRoundTrip(order, e, x, body);
      ItemsRoundTrip(order, e, others, rest);
      ItemsStep(order, e, |items|, Enc(order, e, x) + body, x, body, others, rest);
      assert items == [x] + others;
    }
  }

  lemma FirstItemFirst(order: Order, e: Schema, items: seq<Val>, rest: seq<Byte>)
    requires items != [] && forall x | x in items :: Typed(e, x)
    ensures items[0] in items && forall y | y in items[1..] :: y in items
    ensures EncAll(order, e, items) + rest == Enc(order, e, items[0]) + (EncAll(order, e, items[1..]) + rest)
  {
    Associate(Enc(order, e, items[0]), EncAll(order, e, items[1..]), rest);
  }

  lemma ItemsStep(order: Order, e: Schema, n: nat, bytes: seq<Byte>, x: Val, body: seq<Byte>, others: seq<Val>, rest: seq<Byte>)
    requires n > 0 && Dec(order, e, bytes) == Some((x, body))
    requires DecAll(order, e, n - 1, body) == Some((others, rest))
    ensures DecAll(order, e, n, bytes) == Some(([x] + others, rest))
  {
  }

  // `m` cut down to the members that `fields` name.
  function Only(fields: seq<Field>, m: map<string, Val>): (r: map<string, Val>)
    requires forall f | f in fields :: f.name in m
  {
    map name | name in FieldNames(fields) :: m[name]
  }

  lemma {:induction false} FieldsRoundTrip(order: Order, fields: seq<Field>, m: map<string, Val>, rest: seq<Byte>)
    requires WellFormedFields(fields) && TypedFields(fields, m) && SizedFields(fields, m)
    ensures DecFields(order, fields, EncFields(order, fields, m) + rest) == Some((Only(fields, m), rest))
    decreases fields, 0, 0
  {
    if fields == [] {
      assert EncFields(order, fields, m) + rest == rest;
    } else {
      var head, tail := Enc(order, fields[0].ty, m[fields[0].name]), EncFields(order, fields[1..], m);
      Associate(head, tail, rest);
      assert fields[0] in fields;
      ValueRoundTrip(order, fields[0].ty, m[fields[0].name], tail + rest);
      FieldsRoundTrip(order, fields[1..], m, rest);
      FieldsStep(order, fields, head + (tail + rest), m[fields[0].name], tail + rest, Only(fields[1..], m), rest);
      assert Only(fields[1..], m)[fields[0].name := m[fields[0].name]] == Only(fields, m);
    }
  }

  lemma FieldsStep(
      order: Order, fields: seq<Field>, bytes: seq<Byte>, x: Val, body: seq<Byte>, m: map<string, Val>, rest: seq<Byte>)
    requires fields != [] && Dec(order, fields[0].ty, bytes) == Some((x, body))
    requires DecFields(order, fields[1..], body) == Some((m, rest))
    ensures DecFields(order, fields, bytes) == Some((m[fields[0].name := x], rest))
  {
  }

  // ---------- encoding what was decoded ----------

  // What one accepted reading of `bytes` as a `t` owes: a value that has the type, a remainder that is
  // a suffix, and exactly as many bytes consumed as the value's own encoding takes.
  predicate Accounted(order: Order, t: Schema, bytes: seq<Byte>, v: Val, rest: seq<Byte>) {
    && Typed(t, v) && Sized(t, v)
    && |bytes| == |Enc(order, t, v)| + |rest|
    && rest == bytes[|bytes| - |rest|..]
  }

  lemma LengthAccounted(order: Order, bytes: seq<Byte>)
    requires DecodeLength(order, bytes).Some?
    ensures DecodeLength(order, bytes).value.0 < I32_LIMIT
    ensures forall n :: |bytes| == |EncodeLength(order, n)| + |DecodeLength(order, bytes).value.1|
    ensures DecodeLength(order, bytes).value.1 == bytes[4..]
  {
    Pow256Values();
    IntReEncodes(order, I32, bytes);
  }

  lemma {:induction false} AcceptedIsAccounted(order: Order, t: Schema, bytes: seq<Byte>)
    requires WellFormed(t) && Dec(order, t, bytes).Some?
    ensures Accounted(order, t, bytes, Dec(order, t, bytes).value.0, Dec(order, t, bytes).value.1)
    decreases t, 2, 0
  {
    match t
    case Int(k) => IntReEncodes(order, k, bytes);
    case Bool =>
    case Str => StringAccounted(order, bytes);
    case Vec(e) => VecAccounted(order, e, bytes);
    case Opt(e) => OptAccounted(order, e, bytes);
    case Enum(names) => EnumAccounted(order, names, bytes);
    case Record(fields) => FieldsAccounted(order, fields, bytes);
    case Union(cases) => UnionAccounted(order, cases, bytes);
  }

  lemma {:induction false} VecAccounted(order: Order, e: Schema, bytes: seq<Byte>)
    requires WellFormed(e) && Dec(order, Vec(e), bytes).Some?
    ensures Accounted(order, Vec(e), bytes, Dec(order, Vec(e), bytes).value.0, Dec(order, Vec(e), bytes).value.1)
    decreases Vec(e), 1, 0
  {
    var (n, body) := DecodeLength(order, bytes).value;
    LengthAccounted(order, bytes);
    ItemsAccounted(order, e, n, body);
  }

  lemma {:induction false} OptAccounted(order: Order, e: Schema, bytes: seq<Byte>)
    requires WellFormed(e) && Dec(order, Opt(e), bytes).Some?
    ensures Accounted(order, Opt(e), bytes, Dec(order, Opt(e), bytes).value.0, Dec(order, Opt(e), bytes).value.1)
    decreases Opt(e), 1, 0
  {
    if bytes[0] != 0 {
      AcceptedIsAccounted(order, e, bytes[1..]);
    }
  }

  lemma EnumAccounted(order: Order, names: seq<string>, bytes: seq<Byte>)
    requires WellFormed(Enum(names)) && Dec(order, Enum(names), bytes).Some?
    ensures Accounted(order, Enum(names), bytes, Dec(order, Enum(names), bytes).value.0, Dec(order, Enum(names), bytes).value.1)
  {
    IntReEncodes(order, I32, bytes);
  }

  lemma {:induction false} UnionAccounted(order: Order, cases: seq<Case>, bytes: seq<Byte>)
    requires WellFormed(Union(cases)) && Dec(order, Union(cases), bytes).Some?
    ensures Accounted(order, Union(cases), bytes, Dec(order, Union(cases), bytes).value.0, Dec(order, Union(cases), bytes).value.1)
    decreases Union(cases), 1, 0
  {
    var (i, body) := DecodeIndex(order, |cases|, bytes).value;
    IndexAccounted(order, |cases|, bytes);
    assert cases[i] in cases;
    FieldsAccounted(order, cases[i].fields, body);
    CaseAccounted(order, cases, i, DecFields(order, cases[i].fields, body).value.0);
  }

  lemma IndexAccounted(order: Order, limit: nat, bytes: seq<Byte>)
    requires DecodeIndex(order, limit, bytes).Some?
    ensures forall i :: |bytes| == |EncodeIndex(order, i)| + |DecodeIndex(order, limit, bytes).value.1|
    ensures DecodeIndex(order, limit, bytes).value.1 == bytes[4..]
  {
    IntReEncodes(order, I32, bytes);
  }

  // The value of the `i`-th case is of the union's type, and encoded as its tag and its fields.
  lemma CaseAccounted(order: Order, cases: seq<Case>, i: nat, m: map<string, Val>)
    requires WellFormed(Union(cases)) && i < |cases|
    requires m.Keys == FieldNames(cases[i].fields) && TypedFields(cases[i].fields, m) && SizedFields(cases[i].fields, m)
    ensures
      var v := UnionV(cases[i].name, m);
      && Typed(Union(cases), v) && Sized(Union(cases), v)
      && Enc(order, Union(cases), v) == EncodeIndex(order, i) + EncFields(order, cases[i].fields, m)
  {
    IndexOfDistinct(CaseNames(cases), i);
  }

  lemma StringAccounted(order: Order, bytes: seq<Byte>)
    requires Dec(order, Str, bytes).Some?
    ensures Accounted(order, Str, bytes, Dec(order, Str, bytes).value.0, Dec(order, Str, bytes).value.1)
  {
    var (n, body) := DecodeLength(order, bytes).value;
    LengthAccounted(order, bytes);
    Utf8.OnlyEncodingsDecode(body[..n]);
  }

  // The same for the items of a vector.
  predicate ItemsAreAccounted(order: Order, e: Schema, n: nat, bytes: seq<Byte>, items: seq<Val>, rest: seq<Byte>) {
    && |items| == n && (forall x | x in items :: Typed(e, x) && Sized(e, x))
    && |bytes| == |EncAll(order, e, items)| + |rest|
    && rest == bytes[|bytes| - |rest|..]
  }

  lemma {:induction false} ItemsAccounted(order: Order, e: Schema, n: nat, bytes: seq<Byte>)
    requires WellFormed(e) && DecAll(order, e, n, bytes).Some?
    ensures ItemsAreAccounted(order, e, n, bytes, DecAll(order, e, n, bytes).value.0, DecAll(order, e, n, bytes).value.1)
    decreases e, 3, n
  {
    if n > 0 {
      AcceptedIsAccounted(order, e, bytes);
      var (x, body) := Dec(order, e, bytes).value;
      ItemsAccounted(order, e, n - 1, body);
      var (items, rest) := DecAll(order, e, n - 1, body).value;
      FirstItemAccounted(order, e, n, bytes, x, body, items, rest);
      ItemsStep(order, e, n, bytes, x, body, items, rest);
    }
  }

  lemma FirstItemAccounted(
      order: Order, e: Schema, n: nat, bytes: seq<Byte>, x: Val, body: seq<Byte>, items: seq<Val>, rest: seq<Byte>)
    requires n > 0 && Accounted(order, e, bytes, x, body) && ItemsAreAccounted(order, e, n - 1, body, items, rest)
    ensures ItemsAreAccounted(order, e, n, bytes, [x] + items, rest)
  {
    OneMoreItem(order, e, x, items);
    SuffixOfSuffix(bytes, body, rest);
  }

  lemma OneMoreItem(order: Order, e: Schema, x: Val, items: seq<Val>)
    requires Typed(e, x) && Sized(e, x) && forall y | y in items :: Typed(e, y) && Sized(e, y)
    ensures forall y | y in [x] + items :: Typed(e, y) && Sized(e, y)
    ensures EncAll(order, e, [x] + items) == Enc(order, e, x) + EncAll(order, e, items)
  {
    assert ([x] + items)[0] == x && ([x] + items)[1..] == items;
  }

  lemma {:induction false} FieldsAccounted(order: Order, fields: seq<Field>, bytes: seq<Byte>)
    requires WellFormedFields(fields) && DecFields(order, fields, bytes).Some?
    ensures
      var (m, rest) := DecFields(order, fields, bytes).value;
      && m.Keys == FieldNames(fields) && TypedFields(fields, m) && SizedFields(fields, m)
      && |bytes| == |EncFields(order, fields, m)| + |rest|
      && rest == bytes[|bytes| - |rest|..]
    decreases fields, 0, 0
  {
    if fields == [] {
    } else {
      var first := fields[0];
      assert first in fields;
      AcceptedIsAccounted(order, first.ty, bytes);
      var (x, body) := Dec(order, first.ty, bytes).value;
      FieldsAccounted(order, fields[1..], body);
      FieldsAccountedStep(order, fields, bytes, x, body);
    }
  }

  lemma FieldsAccountedStep(order: Order, fields: seq<Field>, bytes: seq<Byte>, x: Val, body: seq<Byte>)
    requires WellFormedFields(fields) && fields != [] && DecFields(order, fields, bytes).Some?
    requires Dec(order, fields[0].ty, bytes) == Some((x, body)) && Accounted(order, fields[0].ty, bytes, x, body)
    requires
      var (m, rest) := DecFields(order, fields[1..], body).value;
      && m.Keys == FieldNames(fields[1..]) && TypedFields(fields[1..], m) && SizedFields(fields[1..], m)
      && |body| == |EncFields(order, fields[1..], m)| + |rest|
      && rest == body[|body| - |rest|..]
    ensures
      var (m, rest) := DecFields(order, fields, bytes).value;
      && m.Keys == FieldNames(fields) && TypedFields(fields, m) && SizedFields(fields, m)
      && |bytes| == |EncFields(order, fields, m)| + |rest|
      && rest == bytes[|bytes| - |rest|..]
  {
    var (m, rest) := DecFields(order, fields[1..], body).value;
    var name := fields[0].name;
    EncFieldsIgnoresOthers(order, fields[1..], m, name, x);
    OneMoreField(fields, m, x);
    assert DecFields(order, fields, bytes) == Some((m[name := x], rest));
    assert EncFields(order, fields, m[name := x]) == Enc(order, fields[0].ty, x) + EncFields(order, fields[1..], m[name := x]);
    SuffixOfSuffix(bytes, body, rest);
  }

  lemma SuffixOfSuffix(bytes: seq<Byte>, body: seq<Byte>, rest: seq<Byte>)
    requires |rest| <= |body| <= |bytes|
    requires body == bytes[|bytes| - |body|..] && rest == body[|body| - |rest|..]
    ensures rest == bytes[|bytes| - |rest|..]
  {
  }

  lemma OneMoreField(fields: seq<Field>, m: map<string, Val>, x: Val)
    requires WellFormedFields(fields) && fields != [] && m.Keys == FieldNames(fields[1..])
    requires TypedFields(fields[1..], m) && SizedFields(fields[1..], m) && Typed(fields[0].ty, x) && Sized(fields[0].ty, x)
    requires TypedFields(fields[1..], m[fields[0].name := x])
    ensures m[fields[0].name := x].Keys == FieldNames(fields)
    ensures TypedFields(fields, m[fields[0].name := x]) && SizedFields(fields, m[fields[0].name := x])
  {
    var more := m[fields[0].name := x];
    assert fields == [fields[0]] + fields[1..];
    forall f | f in fields
      ensures f.name in more && Typed(f.ty, more[f.name]) && Sized(f.ty, more[f.name])
    {
      if f != fields[0] {
        var i :| 0 < i < |fields| && fields[i] == f;
        assert f in fields[1..] && f.name != fields[0].name;
      }
    }
  }

  lemma {:induction false} EncFieldsIgnoresOthers(order: Order, fields: seq<Field>, m: map<string, Val>, name: string, x: Val)
    requires TypedFields(fields, m) && name !in FieldNames(fields)
    ensures TypedFields(fields, m[name := x])
    ensures EncFields(order, fields, m[name := x]) == EncFields(order, fields, m)
  {
    if fields == [] {
    } else {
      assert fields[0].name in FieldNames(fields);
      assert FieldNames(fields[1..]) <= FieldNames(fields);
      EncFieldsIgnoresOthers(order, fields[1..], m, name, x);
    }
  }

  // ---------- which bytes ----------

  // The format of the simple shapes: a bool and an option take one byte, 0 or 1.
  lemma SimpleShapesOnTheWire(order: Order, b: bool, e: Schema, v: Val)
    requires Typed(e, v)
    ensures Enc(order, Bool, BoolV(b)) == [if b then 1 else 0]
    ensures Enc(order, Opt(e), NoneV) == [0]
    ensures Enc(order, Opt(e), SomeV(v)) == [1] + Enc(order, e, v)
  {
  }

  // An enum's index, a length and a union's tag are an i32.
  lemma EnumsOnTheWire(order: Order, names: seq<string>, i: nat)
    requires i < |names| < I32_LIMIT && Distinct(names)
    ensures Enc(order, Enum(names), EnumV(names[i])) == I32Bytes(order, i)
  {
    IndexOfDistinct(names, i);
    I32OnTheWire(order, i);
  }

  lemma StringsOnTheWire(order: Order, s: string)
    requires |Utf8.Encode(s)| < I32_LIMIT
    ensures Enc(order, Str, StrV(s)) == I32Bytes(order, |Utf8.Encode(s)|) + Utf8.Encode(s)
  {
    I32OnTheWire(order, |Utf8.Encode(s)|);
  }

  // The encodings of some values, one after another.
  function Joined(encodings: seq<seq<Byte>>): (bytes: seq<Byte>) {
    if encodings == [] then [] else encodings[0] + Joined(encodings[1..])
  }

  lemma {:induction false} ItemsOnTheWire(order: Order, e: Schema, items: seq<Val>)
    requires forall x | x in items :: Typed(e, x)
    ensures EncAll(order, e, items) == Joined(seq(|items|, i requires 0 <= i < |items| => Enc(order, e, items[i])))
  {
    if items != [] {
      ItemsOnTheWire(order, e, items[1..]);
      var all := seq(|items|, i requires 0 <= i < |items| => Enc(order, e, items[i]));
      assert all[1..] == seq(|items[1..]|, i requires 0 <= i < |items[1..]| => Enc(order, e, items[1..][i]));
    }
  }

  // A vector is its length and its items in order.
  lemma VectorsOnTheWire(order: Order, e: Schema, items: seq<Val>)
    requires |items| < I32_LIMIT && forall x | x in items :: Typed(e, x)
    ensures Enc(order, Vec(e), VecV(items))
         == I32Bytes(order, |items|) + Joined(seq(|items|, i requires 0 <= i < |items| => Enc(order, e, items[i])))
  {
    I32OnTheWire(order, |items|);
    ItemsOnTheWire(order, e, items);
  }

  function FieldEncodings(order: Order, fields: seq<Field>, m: map<string, Val>): (encodings: seq<seq<Byte>>)
    requires TypedFields(fields, m)
    ensures |encodings| == |fields|
  {
    seq(|fields|, i requires 0 <= i < |fields| => FieldEncoding(order, fields, m, i))
  }

  function FieldEncoding(order: Order, fields: seq<Field>, m: map<string, Val>, i: nat): (bytes: seq<Byte>)
    requires TypedFields(fields, m) && i < |fields|
  {
    assert fields[i] in fields;
    Enc(order, fields[i].ty, m[fields[i].name])
  }

  lemma {:induction false} FieldsOnTheWire(order: Order, fields: seq<Field>, m: map<string, Val>)
    requires TypedFields(fields, m)
    ensures EncFields(order, fields, m) == Joined(FieldEncodings(order, fields, m))
  {
    if fields != [] {
      assert forall f | f in fields[1..] :: f in fields;
      FieldsOnTheWire(order, fields[1..], m);
      assert FieldEncodings(order, fields, m)[1..] == FieldEncodings(order, fields[1..], m);
    }
  }

  // A record is its fields in the order of its type.
  lemma RecordsOnTheWire(order: Order, fields: seq<Field>, m: map<string, Val>)
    requires Typed(Record(fields), RecordV(m))
    ensures Enc(order, Record(fields), RecordV(m)) == Joined(FieldEncodings(order, fields, m))
  {
    FieldsOnTheWire(order, fields, m);
  }

  // A union is its case's index and that case's fields.
  lemma UnionsOnTheWire(order: Order, cases: seq<Case>, i: nat, m: map<string, Val>)
    requires i < |cases| < I32_LIMIT && Distinct(CaseNames(cases))
    requires m.Keys == FieldNames(cases[i].fields) && TypedFields(cases[i].fields, m)
    ensures Typed(Union(cases), UnionV(cases[i].name, m))
    ensures Enc(order, Union(cases), UnionV(cases[i].name, m))
         == I32Bytes(order, i) + Joined(FieldEncodings(order, cases[i].fields, m))
  {
    IndexOfDistinct(CaseNames(cases), i);
    I32OnTheWire(order, i);
    FieldsOnTheWire(order, cases[i].fields, m);
  }

  // What is refused: an index that names no variant, whether negative or too large, and a short buffer.
  lemma UnknownIndicesAreRefused(order: Order, names: seq<string>, cases: seq<Case>, bytes: seq<Byte>)
    ensures
      var i := DecodeInt(order, I32, bytes);
      && (|bytes| < 4 ==> Dec(order, Enum(names), bytes) == None && Dec(order, Union(cases), bytes) == None)
      && (|bytes| >= 4 ==> i.Some?)
      && (i.Some? && 0 <= i.value.0 < |names| ==> Dec(order, Enum(names), bytes) == Some((EnumV(names[i.value.0]), bytes[4..])))
      && (i.Some? && !(0 <= i.value.0 < |names|) ==> Dec(order, Enum(names), bytes) == None)
      && (i.Some? && !(0 <= i.value.0 < |cases|) ==> Dec(order, Union(cases), bytes) == None)
      && (Dec(order, Union(cases), bytes).Some? ==> Dec(order, Union(cases), bytes).value.0.tag == cases[i.value.0].name)
  {
  }

  // ---------- the main results ----------

  // Decoding an encoding gives the value and the rest back exactly when no vector or string in it
  // outgrows the i32 length prefix.
  lemma RoundTripExactlyWhenSized(order: Order, t: Schema, v: Val, rest: seq<Byte>)
    requires WellFormed(t) && Typed(t, v)
    ensures Dec(order, t, Enc(order, t, v) + rest) == Some((v, rest)) <==> Sized(t, v)
  {
    if Sized(t, v) {
      ValueRoundTrip(order, t, v, rest);
    } else if Dec(order, t, Enc(order, t, v) + rest) == Some((v, rest)) {
      AcceptedIsAccounted(order, t, Enc(order, t, v) + rest);
    }
  }

  // The format is self-delimiting: two streams that start with encodings of the same type agree only if
  // the values agree and so do the remainders. With `r2 == []` no encoding is a proper prefix of another.
  lemma SelfDelimiting(order: Order, t: Schema, v: Val, w: Val, r1: seq<Byte>, r2: seq<Byte>)
    requires WellFormed(t) && Typed(t, v) && Sized(t, v) && Typed(t, w) && Sized(t, w)
    requires Enc(order, t, v) + r1 == Enc(order, t, w) + r2
    ensures v == w && r1 == r2
  {
    ValueRoundTrip(order, t, v, r1);
    ValueRoundTrip(order, t, w, r2);
  }

  // For every byte string the decoder accepts, canonical or not, the bytes consumed are as many as the
  // value's own encoding has, and that encoding decodes to the same value.
  lemma ReEncodingIsStable(order: Order, t: Schema, bytes: seq<Byte>, more: seq<Byte>)
    requires WellFormed(t) && Dec(order, t, bytes).Some?
    ensures
      var (v, rest) := Dec(order, t, bytes).value;
      && Typed(t, v)
      && |bytes| - |rest| == |Enc(order, t, v)|
      && rest == bytes[|Enc(order, t, v)|..]
      && Dec(order, t, Enc(order, t, v) + more) == Some((v, more))
  {
    AcceptedIsAccounted(order, t, bytes);
    ValueRoundTrip(order, t, Dec(order, t, bytes).value.0, more);
  }

  predicate NegativeLength(order: Order, bytes: seq<Byte>, rest: seq<Byte>) {
    var n := DecodeInt(order, I32, bytes);
    n.Some? && n.value.0 < 0 && n.value.1 == rest
  }

  // Two byte strings can mean the same value: every bool byte above 1 reads as the byte 1 does, and every
  // negative length as the length 0.
  lemma NonCanonicalInputs(order: Order, e: Schema, b: Byte, bytes: seq<Byte>, rest: seq<Byte>)
    ensures b > 1 ==> Dec(order, Bool, [b] + rest) == Dec(order, Bool, [1] + rest) == Some((BoolV(true), rest))
    ensures NegativeLength(order, bytes, rest) ==>
        && Dec(order, Vec(e), bytes) == Dec(order, Vec(e), EncodeLength(order, 0) + rest) == Some((VecV([]), rest))
        && Dec(order, Str, bytes) == Dec(order, Str, EncodeLength(order, 0) + rest) == Some((StrV(""), rest))
  {
    assert ([b] + rest)[1..] == rest && ([1] + rest)[1..] == rest;
    LengthRoundTrip(order, 0, rest);
    assert rest[..0] == [] && rest[0..] == rest;
  }
}
