// Fixed-width two's-complement integers in the machine's own byte order, as byteorder's
// `write_iNN::<NativeEndian>` and `read_iNN::<NativeEndian>` handle them. Both byte orders are covered.
module FixedInts {
  import opened Wrappers
  import opened Utf8

  datatype Kind = U8 | U16 | U32 | U64 | I32 | I64 {
    function Width(): (w: nat) {
      match this
      case U8 => 1
      case U16 => 2
      case U32 | I32 => 4
      case U64 | I64 => 8
    }

    predicate Signed() {
      I32? || I64?
    }

    predicate InRange(n: int) {
      var size := Pow256(Width());
      if Signed() then -(size / 2) <= n < size / 2 else 0 <= n < size
    }
  }

  datatype Order = LittleEndian | BigEndian

  function Pow256(w: nat): (p: nat)
    ensures p > 0
  {
    if w == 0 then 1 else 256 * Pow256(w - 1)
  }

  // The `w` low-order bytes of `n`, least significant first.
  function Digits(n: nat, w: nat): (bytes: seq<Byte>)
    ensures |bytes| == w
  {
    if w == 0 then [] else [n % 256] + Digits(n / 256, w - 1)
  }

  function Value(bytes: seq<Byte>): (n: nat) {
    if bytes == [] then 0 else bytes[0] + 256 * Value(bytes[1..])
  }

  function Arrange(order: Order, bytes: seq<Byte>): (r: seq<Byte>)
    ensures |r| == |bytes|
  {
    if order.LittleEndian? then bytes else seq(|bytes|, i requires 0 <= i < |bytes| => bytes[|bytes| - 1 - i])
  }

  lemma Pow256Values()
    ensures Pow256(1) == 256 && Pow256(2) == 0x1_0000 && Pow256(4) == 0x1_0000_0000
    ensures Pow256(8) == 0x1_0000_0000_0000_0000
  {
    assert Pow256(2) == 256 * Pow256(1);
    assert Pow256(4) == 256 * 256 * Pow256(2);
    assert Pow256(6) == 256 * 256 * Pow256(4);
    assert Pow256(8) == 256 * 256 * Pow256(6);
  }

  lemma WidthIsEven(k: Kind)
    ensures Pow256(k.Width()) % 2 == 0
  {
    assert Pow256(k.Width()) == 2 * (128 * Pow256(k.Width() - 1));
  }

  // `n` reduced to the kind's range, as Rust's `as` does.
  function Wrap(k: Kind, n: int): (r: int)
    ensures k.InRange(r)
    ensures (n - r) % Pow256(k.Width()) == 0
    ensures k.InRange(n) ==> r == n
  {
    var size := Pow256(k.Width());
    WidthIsEven(k);
    SmallModulus(n, size);
    SameResidue(n, size);
    var u := n % size;
    if k.Signed() && u >= size / 2 then u - size else u
  }

  lemma SmallModulus(n: int, size: int)
    requires size > 0
    ensures 0 <= n % size < size
    ensures 0 <= n < size ==> n % size == n
    ensures -size <= n < 0 ==> n % size == n + size
  {
    if -size <= n < 0 {
      assert n == -1 * size + (n + size);
      assert n / size == -1;
    } else if 0 <= n < size {
      assert n / size == 0;
    }
  }

  lemma SameResidue(n: int, size: int)
    requires size > 0
    ensures (n - n % size) % size == 0 && (n - (n % size - size)) % size == 0
  {
    MultipleOf(n / size, size);
    MultipleOf(n / size + 1, size);
    assert n - n % size == n / size * size;
    assert n - (n % size - size) == (n / size + 1) * size;
  }

  lemma MultipleOf(q: int, size: int)
    requires size > 0
    ensures q * size % size == 0
  {
    var m := q * size;
    var d := q - m / size;
    assert m == m / size * size + m % size;
    assert q * size == m / size * size + d * size;
    assert d * size == m % size;
    OnlyZeroIsSmall(d, size);
  }

  lemma OnlyZeroIsSmall(d: int, size: int)
    requires 0 <= d * size < size
    ensures d == 0
  {
  }

  function EncodeInt(order: Order, k: Kind, n: int): (bytes: seq<Byte>)
    requires k.InRange(n)
    ensures |bytes| == k.Width()
  {
    Arrange(order, Digits(if n < 0 then n + Pow256(k.Width()) else n, k.Width()))
  }

  // Reads one integer off the front of `bytes`; None when they are too short.
  function DecodeInt(order: Order, k: Kind, bytes: seq<Byte>): (r: Option<(int, seq<Byte>)>)
    ensures r.Some? ==> |bytes| == k.Width() + |r.value.1|
  {
    var w := k.Width();
    if |bytes| < w then None
    else
      var u := Value(Arrange(order, bytes[..w]));
      Some((if k.Signed() && u >= Pow256(w) / 2 then u - Pow256(w) else u, bytes[w..]))
  }

  lemma {:induction false} ValueOfDigits(n: nat, w: nat)
    requires n < Pow256(w)
    ensures Value(Digits(n, w)) == n
  {
    if w == 0 {
    } else {
      ValueOfDigits(n / 256, w - 1);
    }
  }

  lemma {:induction false} DigitsOfValue(bytes: seq<Byte>)
    ensures Value(bytes) < Pow256(|bytes|)
    ensures Digits(Value(bytes), |bytes|) == bytes
  {
    if bytes == [] {
    } else {
      DigitsOfValue(bytes[1..]);
      assert bytes == [bytes[0]] + bytes[1..];
      assert Value(bytes) % 256 == bytes[0] && Value(bytes) / 256 == Value(bytes[1..]);
    }
  }

  lemma ArrangeTwice(order: Order, bytes: seq<Byte>)
    ensures Arrange(order, Arrange(order, bytes)) == bytes
  {
  }

  // ---------- which bytes ----------

  lemma DivideTwice(n: nat, b: nat)
    requires b > 0
    ensures n / 256 / b == n / (256 * b)
  {
    var q, r, s := n / 256 / b, n / 256 % b, n % 256;
    var whole := q * b;
    assert n / 256 == whole + r;
    assert q * (256 * b) == 256 * whole;
    QuotientIs(n, 256 * b, q, 256 * r + s);
  }

  lemma QuotientIs(n: nat, d: nat, q: nat, r: nat)
    requires d > 0 && n == q * d + r && r < d
    ensures n / d == q
  {
    var k := n / d - q;
    assert n / d * d + n % d == q * d + r;
    assert k * d == r - n % d;
    NoMultipleBetween(k, d);
  }

  lemma NoMultipleBetween(k: int, d: nat)
    requires -(d as int) < k * d < d
    ensures k == 0
  {
  }

  lemma {:induction false} DigitAt(n: nat, w: nat, i: nat)
    requires i < w
    ensures Digits(n, w)[i] == n / Pow256(i) % 256
  {
    if i > 0 {
      DigitAt(n / 256, w - 1, i - 1);
      DivideTwice(n, Pow256(i - 1));
    }
  }

  // The bytes on the wire: byte `i` is the digit of weight 256^i of the two's-complement value, counted
  // from the first byte on a little-endian machine and from the last on a big-endian one.
  lemma BytesOnTheWire(order: Order, k: Kind, n: int, i: nat)
    requires k.InRange(n) && i < k.Width()
    ensures
      var w := k.Width();
      var u := if n < 0 then n + Pow256(w) else n;
      && 0 <= u < Pow256(w)
      && (order.LittleEndian? ==> EncodeInt(order, k, n)[i] == u / Pow256(i) % 256)
      && (order.BigEndian? ==> EncodeInt(order, k, n)[i] == u / Pow256(w - 1 - i) % 256)
  {
    var w := k.Width();
    var u := if n < 0 then n + Pow256(w) else n;
    DigitAt(u, w, if order.LittleEndian? then i else w - 1 - i);
  }

  // The four bytes of an i32 that is not negative, spelled out.
  function I32Bytes(order: Order, n: nat): (bytes: seq<Byte>)
    requires n < 0x8000_0000
  {
    var a, b, c, d := n % 256, n / 0x100 % 256, n / 0x1_0000 % 256, n / 0x100_0000;
    if order.LittleEndian? then [a, b, c, d] else [d, c, b, a]
  }

  lemma I32OnTheWire(order: Order, n: nat)
    requires n < 0x8000_0000
    ensures Wrap(I32, n) == n && EncodeInt(order, I32, n) == I32Bytes(order, n)
  {
    Pow256Values();
    BytesOnTheWire(order, I32, n, 0);
    BytesOnTheWire(order, I32, n, 1);
    BytesOnTheWire(order, I32, n, 2);
    BytesOnTheWire(order, I32, n, 3);
    assert Pow256(0) == 1 && Pow256(3) == 256 * Pow256(2);
  }

  // The widths of the integers that cross the bridge, and how much of the input one takes.
  lemma WidthsInBytes(order: Order, k: Kind, bytes: seq<Byte>)
    ensures U8.Width() == 1 && U16.Width() == 2 && U32.Width() == I32.Width() == 4 && U64.Width() == I64.Width() == 8
    ensures DecodeInt(order, k, bytes).Some? <==> |bytes| >= k.Width()
    ensures k.InRange(-1) <==> k == I32 || k == I64
  {
    WidthIsEven(k);
    assert Pow256(k.Width()) >= 256;
  }

  lemma IntRoundTrip(order: Order, k: Kind, n: int, rest: seq<Byte>)
    requires k.InRange(n)
    ensures DecodeInt(order, k, EncodeInt(order, k, n) + rest) == Some((n, rest))
  {
    var w := k.Width();
    var u := if n < 0 then n + Pow256(w) else n;
    ValueOfDigits(u, w);
    ArrangeTwice(order, Digits(u, w));
    var head := EncodeInt(order, k, n);
    assert (head + rest)[..w] == head && (head + rest)[w..] == rest;
  }

  lemma IntReEncodes(order: Order, k: Kind, bytes: seq<Byte>)
    requires DecodeInt(order, k, bytes).Some?
    ensures k.InRange(DecodeInt(order, k, bytes).value.0)
    ensures EncodeInt(order, k, DecodeInt(order, k, bytes).value.0) == bytes[..k.Width()]
  {
    var w := k.Width();
    var arranged := Arrange(order, bytes[..w]);
    DigitsOfValue(arranged);
    ArrangeTwice(order, bytes[..w]);
    WidthIsEven(k);
  }
}
