/** Byte strings: the UTF-8 form of text, big-endian integers, and exclusive or. */
module Bytes {
  type byte = n: int | 0 <= n < 256
  type Bytes = seq<byte>

  // ---- text -----------------------------------------------------------------------------------

  function Utf8Char(c: char): (b: Bytes)
    ensures |b| >= 1
  {
    var n := c as int;
    if n < 0x80 then [n]
    else if n < 0x800 then [0xC0 + n / 64, 0x80 + n % 64]
    else if n < 0x1_0000 then [0xE0 + n / 4096, 0x80 + n / 64 % 64, 0x80 + n % 64]
    else [0xF0 + n / 262144, 0x80 + n / 4096 % 64, 0x80 + n / 64 % 64, 0x80 + n % 64]
  }

  /** The bytes of a Go string. */
  function Utf8(s: string): (b: Bytes)
    ensures |b| >= |s|
  {
    if s == "" then [] else Utf8Char(s[0]) + Utf8(s[1..])
  }

  ghost predicate Ascii(s: string) {
    forall i :: 0 <= i < |s| ==> s[i] < 128 as char
  }

  lemma {:induction false} Utf8OfAscii(s: string)
    requires Ascii(s)
    ensures |Utf8(s)| == |s|
  {
    if s != "" { Utf8OfAscii(s[1..]); }
  }

  /** Text has the bytes of an ASCII string exactly when it is that string. */
  lemma {:induction false} Utf8Faithful(s: string, ascii: string)
    requires Ascii(ascii)
    ensures Utf8(s) == Utf8(ascii) <==> s == ascii
  {
    if s != "" && ascii != "" {
      Utf8Faithful(s[1..], ascii[1..]);
      if Utf8(s) == Utf8(ascii) {
        assert Utf8(s)[0] == Utf8(ascii)[0] == ascii[0] as int;
        assert Utf8(s)[1..] == Utf8(s[1..]) && Utf8(ascii)[1..] == Utf8(ascii[1..]);
        assert s == [s[0]] + s[1..] && ascii == [ascii[0]] + ascii[1..];
      }
    }
  }

  // ---- big-endian integers --------------------------------------------------------------------

  function Pow256(n: nat): (r: nat)
    ensures r >= 1
  {
    if n == 0 then 1 else 256 * Pow256(n - 1)
  }

  /** `width` bytes of `v`, most significant first: byte i is byte(v >> 8*(width-1-i)). */
  function BigEndian(v: nat, width: nat): (b: Bytes)
    ensures |b| == width
    ensures forall i :: 0 <= i < width ==> b[i] == v / Pow256(width - 1 - i) % 256
  {
    seq(width, i requires 0 <= i < width => v / Pow256(width - 1 - i) % 256)
  }

  lemma DivDiv(v: nat, a: nat, b: nat)
    requires a > 0 && b > 0
    ensures a * b > 0 && v / a / b == v / (a * b)
  {
    var q, r := v / a, v % a;
    var q2, r2 := q / b, q % b;
    Distribute(a, b, q2, r2);
    Distribute(a, 1, b - 1, 1);
    MulMonotone(a, r2, b - 1);
    QuotientUnique(v, a * b, q2, a * r2 + r);
  }

  lemma Distribute(a: int, b: int, c: int, d: int)
    ensures a * (b * c + d) == (a * b) * c + a * d
  {
  }

  lemma QuotientUnique(v: int, d: int, q: int, r: int)
    requires d > 0 && v == d * q + r && 0 <= r < d
    ensures v / d == q
  {
    var k, m := v / d, v % d;
    assert v == d * k + m && 0 <= m < d;
    assert d * (q + 1) == d * q + d && d * (k + 1) == d * k + d;
    if k > q { MulMonotone(d, q + 1, k); }
    if k < q { MulMonotone(d, k + 1, q); }
  }

  lemma MulMonotone(d: int, a: int, b: int)
    requires d > 0 && a <= b
    ensures d * a <= d * b
  {
  }

  lemma MulLess(d: int, a: int, b: int)
    requires d > 0 && d * a < d * b
    ensures a < b
  {
    if a >= b { MulMonotone(d, b, a); }
  }

  lemma DivMonotone(a: nat, b: nat, d: nat)
    requires d > 0 && a <= b
    ensures a / d <= b / d
  {
    var q, r := a / d, b / d;
    assert d * q <= a && b < d * r + d;
    assert d * (r + 1) == d * r + d;
    MulLess(d, q, r + 1);
  }

  /** Dropping the low byte is what one more step of the encoding does. */
  lemma PowStep(v: nat, n: nat)
    ensures v / Pow256(n) / 256 == v / Pow256(n + 1)
    ensures v / 256 / Pow256(n) == v / Pow256(n + 1)
  {
    DivDiv(v, Pow256(n), 256);
    DivDiv(v, 256, Pow256(n));
  }

  /** Distinct numbers in range have distinct encodings. */
  lemma {:induction false} BigEndianInjective(v: nat, w: nat, width: nat)
    requires v < Pow256(width) && w < Pow256(width)
    requires BigEndian(v, width) == BigEndian(w, width)
    ensures v == w
  {
    if width > 0 {
      var a, b := BigEndian(v, width), BigEndian(w, width);
      assert a[width - 1] == v % 256 && b[width - 1] == w % 256;
      var c, d := BigEndian(v / 256, width - 1), BigEndian(w / 256, width - 1);
      forall i: nat | i < width - 1 ensures c[i] == d[i] {
        PowStep(v, width - 2 - i);
        PowStep(w, width - 2 - i);
        assert a[i] == b[i];
      }
      BigEndianInjective(v / 256, w / 256, width - 1);
    }
  }

  // ---- bitwise operators ----------------------------------------------------------------------

  function Pow2(n: nat): (p: nat)
    ensures p > 0
  {
    if n == 0 then 1 else 2 * Pow2(n - 1)
  }

  /** Exclusive or: a bit is set when the two differ. */
  function XorBits(a: nat, b: nat): nat
    decreases a + b
  {
    if a == 0 && b == 0 then 0 else (if a % 2 == b % 2 then 0 else 1) + 2 * XorBits(a / 2, b / 2)
  }

  /** Or: a bit is set when either has it. */
  function OrBits(a: nat, b: nat): nat
    decreases a + b
  {
    if a == 0 && b == 0 then 0 else (if a % 2 == 1 || b % 2 == 1 then 1 else 0) + 2 * OrBits(a / 2, b / 2)
  }

  lemma {:induction false} BitsInRange(a: nat, b: nat, n: nat)
    requires a < Pow2(n) && b < Pow2(n)
    ensures XorBits(a, b) < Pow2(n) && OrBits(a, b) < Pow2(n)
    decreases n
  {
    if n > 0 { BitsInRange(a / 2, b / 2, n - 1); }
  }

  /** Exclusive or with the same number undoes itself. */
  lemma {:induction false} XorBitsCancels(a: nat, b: nat)
    ensures XorBits(XorBits(a, b), b) == a
    decreases a + b
  {
    if a != 0 || b != 0 {
      XorBitsCancels(a / 2, b / 2);
      var x := XorBits(a, b);
      assert x / 2 == XorBits(a / 2, b / 2) && x % 2 == if a % 2 == b % 2 then 0 else 1;
    }
  }

  lemma {:induction false} XorBitsZero(a: nat, b: nat)
    ensures XorBits(a, b) == 0 <==> a == b
    decreases a + b
  {
    if a != 0 || b != 0 { XorBitsZero(a / 2, b / 2); }
  }

  lemma {:induction false} OrBitsZero(a: nat, b: nat)
    ensures OrBits(a, b) == 0 <==> a == 0 && b == 0
    decreases a + b
  {
    if a != 0 || b != 0 { OrBitsZero(a / 2, b / 2); }
  }

  /** Bit `n` of a number. */
  predicate Bit(a: nat, n: nat) { a / Pow2(n) % 2 == 1 }

  lemma HalfBit(a: nat, n: nat)
    ensures Bit(a, n + 1) == Bit(a / 2, n)
  {
    DivDiv(a, 2, Pow2(n));
  }

  /** What the operators mean, bit by bit. */
  lemma {:induction false} BitsMean(a: nat, b: nat, n: nat)
    ensures Bit(XorBits(a, b), n) <==> Bit(a, n) != Bit(b, n)
    ensures Bit(OrBits(a, b), n) <==> Bit(a, n) || Bit(b, n)
    decreases n
  {
    HalvedBits(a, b);
    if n > 0 {
      BitsMean(a / 2, b / 2, n - 1);
      HalfBit(a, n - 1);
      HalfBit(b, n - 1);
      HalfBit(XorBits(a, b), n - 1);
      HalfBit(OrBits(a, b), n - 1);
    } else {
      LowBit(a);
      LowBit(b);
      LowBit(XorBits(a, b));
      LowBit(OrBits(a, b));
    }
  }

  lemma LowBit(a: nat)
    ensures Bit(a, 0) <==> a % 2 == 1
  {
    assert Pow2(0) == 1;
  }

  lemma HalvedBits(a: nat, b: nat)
    ensures XorBits(a, b) / 2 == XorBits(a / 2, b / 2) && OrBits(a, b) / 2 == OrBits(a / 2, b / 2)
    ensures XorBits(a, b) % 2 == (if a % 2 == b % 2 then 0 else 1)
    ensures OrBits(a, b) % 2 == (if a % 2 == 1 || b % 2 == 1 then 1 else 0)
  {
  }

  function XorByte(a: byte, b: byte): byte {
    BitsInRange(a, b, 8);
    XorBits(a, b)
  }

  function OrByte(a: byte, b: byte): byte {
    BitsInRange(a, b, 8);
    OrBits(a, b)
  }

  lemma XorByteCancels(a: byte, b: byte)
    ensures XorByte(XorByte(a, b), b) == a
  {
    XorBitsCancels(a, b);
  }

  function Xor(a: Bytes, b: Bytes): (r: Bytes)
    requires |a| == |b|
    ensures |r| == |a|
    ensures forall i :: 0 <= i < |a| ==> r[i] == XorByte(a[i], b[i])
  {
    seq(|a|, i requires 0 <= i < |a| => XorByte(a[i], b[i]))
  }

  lemma XorCancels(a: Bytes, b: Bytes)
    requires |a| == |b|
    ensures Xor(Xor(a, b), b) == a
  {
    var x := Xor(Xor(a, b), b);
    forall i | 0 <= i < |a| ensures x[i] == a[i] { XorByteCancels(a[i], b[i]); }
  }
}
