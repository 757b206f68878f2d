// UTF-8 as the bridge uses it: `String::into_bytes` and `String::from_utf8`.
// A Rust `String` is a sequence of Unicode scalar values, which is what Dafny's `string` is.
// The decoder follows the table of well-formed byte sequences in section 4 of RFC 3629.
module Utf8 {
  import opened Wrappers

  type Byte = b: int | 0 <= b < 256

  function EncodeChar(c: char): (bytes: seq<Byte>)
    ensures 1 <= |bytes| <= 4
  {
    var n := c as int;
    if n < 0x80 then [n]
    else if n < 0x800 then [0xC0 + n / 64, 0x80 + n % 64]
    else if n < 0x1_0000 then [0xE0 + n / 4096, 0x80 + n / 64 % 64, 0x80 + n % 64]
    else [0xF0 + n / 262144, 0x80 + n / 4096 % 64, 0x80 + n / 64 % 64, 0x80 + n % 64]
  }

  function Encode(s: string): (bytes: seq<Byte>) {
    if s == "" then [] else EncodeChar(s[0]) + Encode(s[1..])
  }

  predicate IsTail(b: Byte) {
    0x80 <= b < 0xC0
  }

  // `high` with the six bits of the tail byte `tail` appended.
  function Join(high: int, tail: int): (n: int) {
    high * 64 + tail - 0x80
  }

  // The first scalar value of `bytes` and the number of bytes it takes, or None when the bytes
  // there are not well formed.
  function DecodeChar(bytes: seq<Byte>): (r: Option<(char, nat)>)
    ensures r.Some? ==> 1 <= r.value.1 <= |bytes|
  {
    if |bytes| == 0 then None
    else if bytes[0] < 0x80 then Some((bytes[0] as char, 1))
    else if |bytes| < 2 then None
    else if 0xC2 <= bytes[0] < 0xE0 then
      if IsTail(bytes[1]) then Some((Join(bytes[0] - 0xC0, bytes[1]) as char, 2)) else None
    else if |bytes| < 3 then None
    else if 0xE0 <= bytes[0] < 0xF0 then
      if SecondOfThree(bytes[0], bytes[1]) && IsTail(bytes[2]) then
        Some((Join(Join(bytes[0] - 0xE0, bytes[1]), bytes[2]) as char, 3))
      else None
    else if |bytes| < 4 then None
    else if 0xF0 <= bytes[0] < 0xF5 then
      if SecondOfFour(bytes[0], bytes[1]) && IsTail(bytes[2]) && IsTail(bytes[3]) then
        Some((Join(Join(Join(bytes[0] - 0xF0, bytes[1]), bytes[2]), bytes[3]) as char, 4))
      else None
    else None
  }

  // E0 must not start an overlong form, ED must not start a surrogate.
  predicate SecondOfThree(first: Byte, second: Byte) {
    if first == 0xE0 then 0xA0 <= second < 0xC0
    else if first == 0xED then 0x80 <= second < 0xA0
    else IsTail(second)
  }

  // F0 must not start an overlong form, F4 must not pass U+10FFFF.
  predicate SecondOfFour(first: Byte, second: Byte) {
    if first == 0xF0 then 0x90 <= second < 0xC0
    else if first == 0xF4 then 0x80 <= second < 0x90
    else IsTail(second)
  }

  function Decode(bytes: seq<Byte>): (r: Option<string>) {
    if bytes == [] then Some("")
    else
      var first := DecodeChar(bytes);
      if first.None? then None
      else
        var rest := Decode(bytes[first.value.1..]);
        if rest.None? then None else Some([first.value.0] + rest.value)
  }

  lemma DecodeEncodedChar(c: char, rest: seq<Byte>)
    ensures DecodeChar(EncodeChar(c) + rest) == Some((c, |EncodeChar(c)|))
  {
    var n := c as int;
    var head := EncodeChar(c);
    var bytes := head + rest;
    assert forall i | 0 <= i < |head| :: bytes[i] == head[i];
    if n >= 0x1_0000 {
      SplitInFour(n);
    } else if n >= 0x800 {
      SplitInThree(n);
    }
  }

  lemma SplitInThree(n: int)
    requires 0x800 <= n < 0x1_0000 && !(0xD800 <= n < 0xE000)
    ensures 0 <= n / 4096 < 16 && Join(Join(n / 4096, 0x80 + n / 64 % 64), 0x80 + n % 64) == n
    ensures n / 4096 == 0 ==> n / 64 % 64 >= 0x20
    ensures n / 4096 == 13 ==> n / 64 % 64 < 0x20
  {
    assert Join(n / 4096, 0x80 + n / 64 % 64) == n / 64;
  }

  lemma SplitInFour(n: int)
    requires 0x1_0000 <= n < 0x11_0000
    ensures 0 <= n / 262144 < 5
    ensures Join(Join(Join(n / 262144, 0x80 + n / 4096 % 64), 0x80 + n / 64 % 64), 0x80 + n % 64) == n
    ensures n / 262144 == 0 ==> n / 4096 % 64 >= 0x10
    ensures n / 262144 == 4 ==> n / 4096 % 64 < 0x10
  {
    assert Join(n / 262144, 0x80 + n / 4096 % 64) == n / 4096;
    assert Join(n / 4096, 0x80 + n / 64 % 64) == n / 64;
  }

  lemma EncodeDecodedChar(bytes: seq<Byte>)
    requires DecodeChar(bytes).Some?
    ensures EncodeChar(DecodeChar(bytes).value.0) == bytes[..DecodeChar(bytes).value.1]
  {
    var (c, size) := DecodeChar(bytes).value;
    if size == 3 {
      ThreeBytes(c as int, bytes[0] - 0xE0, bytes[1], bytes[2]);
    } else if size == 4 {
      FourBytes(c as int, bytes[0] - 0xF0, bytes[1], bytes[2], bytes[3]);
    }
  }

  lemma ThreeBytes(n: int, high: nat, b: Byte, c: Byte)
    requires IsTail(b) && IsTail(c) && n == Join(Join(high, b), c)
    ensures n / 4096 == high && 0x80 + n / 64 % 64 == b && 0x80 + n % 64 == c
  {
    assert n / 64 == Join(high, b) && Join(high, b) / 64 == high;
  }

  lemma FourBytes(n: int, high: nat, b: Byte, c: Byte, d: Byte)
    requires IsTail(b) && IsTail(c) && IsTail(d) && n == Join(Join(Join(high, b), c), d)
    ensures n / 262144 == high && 0x80 + n / 4096 % 64 == b && 0x80 + n / 64 % 64 == c && 0x80 + n % 64 == d
  {
    assert n / 64 == Join(Join(high, b), c);
    ThreeBytes(n / 64, high, b, c);
  }

  function Free(b: Byte, mark: int): (bits: int) {
    b - mark
  }

  // The table of section 3 of RFC 3629: how many bytes a scalar value takes, what marks each of them, and
  // that their free bits make up the value.
  lemma BytesOfAChar(c: char)
    ensures
      var n, b := c as int, EncodeChar(c);
      && |b| == (if n < 0x80 then 1 else if n < 0x800 then 2 else if n < 0x1_0000 then 3 else 4)
      && (forall i | 1 <= i < |b| :: 0x80 <= b[i] < 0xC0)
      && (|b| == 1 ==> b[0] == n)
      && (|b| == 2 ==> 0xC0 <= b[0] < 0xE0 && n == Free(b[0], 0xC0) * 0x40 + Free(b[1], 0x80))
      && (|b| == 3 ==> 0xE0 <= b[0] < 0xF0 && n == Free(b[0], 0xE0) * 0x1000 + Free(b[1], 0x80) * 0x40 + Free(b[2], 0x80))
      && (|b| == 4 ==>
            && 0xF0 <= b[0] < 0xF8
            && n == Free(b[0], 0xF0) * 0x4_0000 + Free(b[1], 0x80) * 0x1000 + Free(b[2], 0x80) * 0x40 + Free(b[3], 0x80))
  {
    var n := c as int;
    if n >= 0x1_0000 {
      assert n / 64 == n / 4096 * 64 + n / 64 % 64 && n / 4096 == n / 262144 * 64 + n / 4096 % 64;
    } else if n >= 0x800 {
      assert n / 64 == n / 4096 * 64 + n / 64 % 64;
    }
  }

  // The bytes of a string are those of its characters in order.
  lemma EncodeInOrder(c: char, s: string)
    ensures Encode("") == [] && Encode([c] + s) == EncodeChar(c) + Encode(s)
  {
    assert ([c] + s)[1..] == s;
  }

  // Every string survives the trip through its bytes.
  lemma {:induction false} RoundTrip(s: string)
    ensures Decode(Encode(s)) == Some(s)
  {
    if s == "" {
    } else {
      var head, tail := EncodeChar(s[0]), Encode(s[1..]);
      DecodeEncodedChar(s[0], tail);
      RoundTrip(s[1..]);
      assert (head + tail)[|head|..] == tail;
      assert s == [s[0]] + s[1..];
    }
  }

  lemma EncodePrepended(c: char, rest: string)
    ensures Encode([c] + rest) == EncodeChar(c) + Encode(rest)
  {
    assert ([c] + rest)[1..] == rest;
  }

  // The decoder accepts nothing but encodings: two byte strings never mean the same string.
  lemma {:induction false} OnlyEncodingsDecode(bytes: seq<Byte>)
    requires Decode(bytes).Some?
    ensures Encode(Decode(bytes).value) == bytes
  {
    if bytes == [] {
    } else {
      var (c, n) := DecodeChar(bytes).value;
      EncodeDecodedChar(bytes);
      OnlyEncodingsDecode(bytes[n..]);
      EncodePrepended(c, Decode(bytes[n..]).value);
      assert bytes == bytes[..n] + bytes[n..];
    }
  }

  lemma Injective(a: string, b: string)
    requires Encode(a) == Encode(b)
    ensures a == b
  {
    RoundTrip(a);
    RoundTrip(b);
  }
}
