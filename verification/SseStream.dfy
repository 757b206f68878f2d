// The two stream objects of the bridge. Every encoder appends to `cursor`; every decoder advances its
// own cursor over a fixed buffer. Each method is tied to the functions of `Codec`.
module SseStream {
  import opened Wrappers
  import opened Utf8
  import opened FixedInts
  import opened Codec
  import opened CodecProofs

  class SseSerializer {
    const order: Order
    var cursor: seq<Byte>

    constructor (order: Order)
      ensures this.order == order && cursor == []
    {
      this.order := order;
      cursor := [];
    }

    method WriteInt(k: Kind, n: int)
      requires k.InRange(n)
      modifies this
      ensures cursor == old(cursor) + EncodeInt(order, k, n)
    {
      cursor := cursor + EncodeInt(order, k, n);
    }

    method WriteBool(b: bool)
      modifies this
      ensures cursor == old(cursor) + EncodeBool(b)
    {
      cursor := cursor + [if b then 1 else 0];
    }

    method WriteString(s: string)
      modifies this
      ensures cursor == old(cursor) + Enc(order, Str, StrV(s))
    {
      var bytes := Utf8.Encode(s);
      WriteInt(I32, Wrap(I32, |bytes|));
      ghost var start := cursor;
      for i := 0 to |bytes|
        invariant cursor == start + bytes[..i]
      {
        cursor := cursor + [bytes[i]];
      }
    }

    method Encode(t: Schema, v: Val)
      requires Typed(t, v)
      modifies this
      ensures cursor == old(cursor) + Enc(order, t, v)
      decreases t, 1
    {
      match t
      case Int(k) => WriteInt(k, v.n);
      case Bool => WriteBool(v.b);
      case Str => WriteString(v.s);
      case Vec(e) => EncodeVec(e, v.items);
      case Opt(e) => EncodeOption(e, v);
      case Enum(names) => WriteInt(I32, Wrap(I32, IndexOf(names, v.variant)));
      case Record(fields) => EncodeFields(fields, v.members);
      case Union(cases) => EncodeUnion(cases, v);
    }

    method EncodeOption(e: Schema, v: Val)
      requires Typed(Opt(e), v)
      modifies this
      ensures cursor == old(cursor) + Enc(order, Opt(e), v)
      decreases Opt(e), 0
    {
      ghost var start := cursor;
      WriteBool(v.SomeV?);
      if v.SomeV? {
        Encode(e, v.v);
        Associate(start, EncodeBool(true), Enc(order, e, v.v));
      }
    }

    method EncodeUnion(cases: seq<Case>, v: Val)
      requires Typed(Union(cases), v)
      modifies this
      ensures cursor == old(cursor) + Enc(order, Union(cases), v)
      decreases Union(cases), 0
    {
      var i := IndexOf(CaseNames(cases), v.tag);
      assert cases[i] in cases;
      ghost var start := cursor;
      WriteInt(I32, Wrap(I32, i));
      EncodeFields(cases[i].fields, v.members);
      Associate(start, EncodeIndex(order, i), EncFields(order, cases[i].fields, v.members));
    }

    method EncodeVec(e: Schema, items: seq<Val>)
      requires Typed(Vec(e), VecV(items))
      modifies this
      ensures cursor == old(cursor) + Enc(order, Vec(e), VecV(items))
      decreases Vec(e), 0
    {
      WriteInt(I32, Wrap(I32, |items|));
      ghost var start := cursor;
      assert items[0..] == items;
      for i := 0 to |items|
        invariant start + EncAll(order, e, items) == cursor + EncAll(order, e, items[i..])
      {
        ghost var before := cursor;
        Encode(e, items[i]);
        EncAllStep(order, e, items, i, before);
      }
      assert items[|items|..] == [] && cursor + EncAll(order, e, []) == cursor;
      assert cursor == start + EncAll(order, e, items);
    }

    method EncodeFields(fields: seq<Field>, m: map<string, Val>)
      requires TypedFields(fields, m)
      modifies this
      ensures cursor == old(cursor) + EncFields(order, fields, m)
      decreases fields, 0
    {
      ghost var start := cursor;
      for i := 0 to |fields|
        invariant start + EncFields(order, fields, m) == cursor + EncFields(order, fields[i..], m)
      {
        assert fields[i..][0] == fields[i] && fields[i..][1..] == fields[i + 1..];
        assert fields[i] in fields;
        Encode(fields[i].ty, m[fields[i].name]);
      }
    }
  }

  class SseDeserializer {
    const order: Order
    const data: seq<Byte>
    var cursor: nat

    ghost predicate Valid()
      reads this
    {
      cursor <= |data|
    }

    constructor (order: Order, data: seq<Byte>)
      ensures Valid() && this.order == order && this.data == data && cursor == 0
    {
      this.order, this.data, cursor := order, data, 0;
    }

    ghost function Rest(): (rest: seq<Byte>)
      requires Valid()
      reads this
    {
      data[cursor..]
    }

    method ReadInt(k: Kind) returns (r: Option<int>)
      requires Valid()
      modifies this
      ensures Valid()
      ensures match DecodeInt(order, k, old(Rest())) case None => r.None? case Some((n, rest)) => r == Some(n) && Rest() == rest
    {
      var w := k.Width();
      if |data| - cursor < w {
        return None;
      }
      r := Some(DecodeInt(order, k, data[cursor..]).value.0);
      cursor := cursor + w;
    }

    method ReadBool() returns (r: Option<bool>)
      requires Valid()
      modifies this
      ensures Valid()
      ensures match DecodeBool(old(Rest())) case None => r.None? case Some((b, rest)) => r == Some(b) && Rest() == rest
    {
      if cursor == |data| {
        return None;
      }
      r := Some(data[cursor] != 0);
      cursor := cursor + 1;
    }

    method ReadString() returns (r: Option<Val>)
      requires Valid()
      modifies this
      ensures Valid()
      ensures match Dec(order, Str, old(Rest())) case None => r.None? case Some((v, rest)) => r == Some(v) && Rest() == rest
    {
      var len := ReadInt(I32);
      if len.None? {
        return None;
      }
      var n := if len.value < 0 then 0 else len.value;
      var bytes: seq<Byte> := [];
      ghost var body := Rest();
      for i := 0 to n
        invariant Valid() && i <= |body| && bytes == body[..i] && Rest() == body[i..]
      {
        if cursor == |data| {
          return None;
        }
        bytes := bytes + [data[cursor]];
        cursor := cursor + 1;
      }
      var s := Utf8.Decode(bytes);
      r := if s.None? then None else Some(StrV(s.value));
    }

    method Decode(t: Schema) returns (r: Option<Val>)
      requires Valid()
      modifies this
      ensures Valid()
      ensures match Dec(order, t, old(Rest())) case None => r.None? case Some((v, rest)) => r == Some(v) && Rest() == rest
      decreases t, 1
    {
      match t
      case Int(k) =>
        var n := ReadInt(k);
        r := if n.None? then None else Some(IntV(n.value));
      case Bool =>
        var b := ReadBool();
        r := if b.None? then None else Some(BoolV(b.value));
      case Str =>
        r := ReadString();
      case Vec(e) =>
        r := DecodeVec(e);
      case Opt(e) =>
        var b := ReadBool();
        if b.None? {
          return None;
        }
        if b.value {
          var x := Decode(e);
          r := if x.None? then None else Some(SomeV(x.value));
        } else {
          r := Some(NoneV);
        }
      case Enum(names) =>
        var i := ReadInt(I32);
        r := if i.Some? && 0 <= i.value < |names| then Some(EnumV(names[i.value])) else None;
      case Record(fields) =>
        var m := DecodeFields(fields);
        r := if m.None? then None else Some(RecordV(m.value));
      case Union(cases) =>
        var i := ReadInt(I32);
        if i.None? || i.value < 0 || |cases| <= i.value {
          return None;
        }
        assert cases[i.value] in cases;
        var m := DecodeFields(cases[i.value].fields);
        r := if m.None? then None else Some(UnionV(cases[i.value].name, m.value));
    }

    method DecodeVec(e: Schema) returns (r: Option<Val>)
      requires Valid()
      modifies this
      ensures Valid()
      ensures match Dec(order, Vec(e), old(Rest())) case None => r.None? case Some((v, rest)) => r == Some(v) && Rest() == rest
      decreases Vec(e), 0
    {
      var len := ReadInt(I32);
      if len.None? {
        return None;
      }
      var items := DecodeItems(e, if len.value < 0 then 0 else len.value);
      r := if items.None? then None else Some(VecV(items.value));
    }

    method DecodeItems(e: Schema, n: nat) returns (r: Option<seq<Val>>)
      requires Valid()
      modifies this
      ensures Valid()
      ensures match DecAll(order, e, n, old(Rest())) case None => r.None? case Some((items, rest)) => r == Some(items) && Rest() == rest
      decreases e, 2
    {
      var ans: seq<Val> := [];
      ghost var goal := DecAll(order, e, n, Rest());
      assert goal.Some? ==> [] + goal.value.0 == goal.value.0;
      for i := 0 to n
        invariant Valid() && |ans| == i
        invariant Prepend(ans, DecAll(order, e, n - i, Rest())) == goal
      {
        var x := Decode(e);
        if x.None? {
          return None;
        }
        PrependStep(ans, x.value, DecAll(order, e, n - i - 1, Rest()));
        ans := ans + [x.value];
      }
      r := Some(ans);
      assert DecAll(order, e, 0, Rest()) == Some(([], Rest())) && ans + [] == ans;
    }

    method DecodeFields(fields: seq<Field>) returns (r: Option<map<string, Val>>)
      requires Valid()
      modifies this
      ensures Valid()
      ensures match DecFields(order, fields, old(Rest())) case None => r.None? case Some((m, rest)) => r == Some(m) && Rest() == rest
      decreases fields, 1
    {
      if fields == [] {
        return Some(map[]);
      }
      assert fields[0] in fields;
      var x := Decode(fields[0].ty);
      if x.None? {
        return None;
      }
      var others := DecodeFields(fields[1..]);
      r := if others.None? then None else Some(others.value[fields[0].name := x.value]);
    }
  }

  // The outcome of a vector decoder that already holds `ans` and goes on to read `r`.
  ghost function Prepend(ans: seq<Val>, r: Option<(seq<Val>, seq<Byte>)>): (p: Option<(seq<Val>, seq<Byte>)>) {
    if r.None? then None else Some((ans + r.value.0, r.value.1))
  }

  lemma PrependStep(ans: seq<Val>, x: Val, r: Option<(seq<Val>, seq<Byte>)>)
    ensures Prepend(ans + [x], r) == Prepend(ans, if r.None? then None else Some(([x] + r.value.0, r.value.1)))
  {
    if r.Some? {
      assert ans + [x] + r.value.0 == ans + ([x] + r.value.0);
    }
  }

  // Encoding item `i` moves its bytes from what is left to what is written.
  lemma EncAllStep(order: Order, e: Schema, items: seq<Val>, i: nat, before: seq<Byte>)
    requires i < |items| && forall x | x in items :: Typed(e, x)
    ensures before + EncAll(order, e, items[i..]) == before + Enc(order, e, items[i]) + EncAll(order, e, items[i + 1..])
  {
    assert items[i..][0] == items[i] && items[i..][1..] == items[i + 1..];
  }

  // One object writes, another reads: the value comes back, and the reader stops where the writer did,
  // exactly when the value fits the format.
  method SendAndReceive(order: Order, t: Schema, v: Val, rest: seq<Byte>) returns (received: Option<Val>, sent: nat, consumed: nat)
    requires WellFormed(t) && Typed(t, v)
    ensures sent == |Enc(order, t, v)|
    ensures received == Some(v) && consumed == sent <==> Sized(t, v)
  {
    var writer := new SseSerializer(order);
    writer.Encode(t, v);
    assert writer.cursor == Enc(order, t, v);
    sent := |writer.cursor|;
    var reader := new SseDeserializer(order, writer.cursor + rest);
    assert reader.Rest() == writer.cursor + rest;
    received := reader.Decode(t);
    consumed := reader.cursor;
    RoundTripExactlyWhenSized(order, t, v, rest);
    if received == Some(v) && consumed == sent {
      assert reader.Rest() == rest;
    }
  }
}
