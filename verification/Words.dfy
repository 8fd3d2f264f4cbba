/** Unsigned machine words as naturals: wrapping arithmetic, exclusive or by
    bits, little-endian bytes, and the bijections the fingerprint rests on. */
module Words {
  type Byte = n: nat | n < 0x100
  type U64 = n: nat | n < 0x1_0000_0000_0000_0000
  type U128 = n: nat | n < 0x1_0000_0000_0000_0000_0000_0000_0000_0000

  function WrappingAdd(a: U64, b: U64): U64 {
    (a + b) % 0x1_0000_0000_0000_0000
  }

  function WrappingMul(a: U64, b: U64): U64 {
    (a * b) % 0x1_0000_0000_0000_0000
  }

  function Pow2(n: nat): nat {
    if n == 0 then 1 else 2 * Pow2(n - 1)
  }

  /** Exclusive or of the low `bits` bits. */
  function Xor(bits: nat, a: nat, b: nat): nat {
    if bits == 0 then 0 else (a % 2 + b % 2) % 2 + 2 * Xor(bits - 1, a / 2, b / 2)
  }

  lemma {:induction false} XorBound(bits: nat, a: nat, b: nat)
    ensures Xor(bits, a, b) < Pow2(bits)
  {
    if bits > 0 { XorBound(bits - 1, a / 2, b / 2); }
  }

  lemma Pow2Values()
    ensures Pow2(33) > Pow2(31) && Pow2(64) == 0x1_0000_0000_0000_0000
  {
    assert Pow2(10) == 0x400;
    assert Pow2(20) == 0x10_0000;
    assert Pow2(30) == 0x4000_0000;
    assert Pow2(40) == 0x100_0000_0000;
    assert Pow2(50) == 0x4_0000_0000_0000;
    assert Pow2(60) == 0x1000_0000_0000_0000;
  }

  function Xor64(a: U64, b: U64): U64 {
    XorBound(64, a, b);
    Pow2Values();
    Xor(64, a, b)
  }

  function ShiftRight(n: nat, k: nat): (r: nat)
    ensures r <= n
  {
    if k == 0 then n else ShiftRight(n / 2, k - 1)
  }

  /** `h ^ (h >> 33)`. */
  function XorShift33(h: U64): U64 {
    Xor64(h, ShiftRight(h, 33))
  }

  function LittleEndian(width: nat, n: nat): (bytes: seq<Byte>)
    ensures |bytes| == width
  {
    if width == 0 then [] else [n % 0x100] + LittleEndian(width - 1, n / 0x100)
  }

  // ------------------------------------------------------------ exclusive or

  lemma LowBit(bit: nat, rest: nat)
    requires bit < 2
    ensures (bit + 2 * rest) % 2 == bit && (bit + 2 * rest) / 2 == rest
  {
  }

  lemma FlipTwice(x: nat, y: nat)
    requires x < 2 && y < 2
    ensures ((x + y) % 2 + y) % 2 == x
  {
  }

  lemma {:induction false} XorCancels(bits: nat, a: nat, b: nat)
    requires a < Pow2(bits)
    ensures Xor(bits, Xor(bits, a, b), b) == a
  {
    if bits > 0 {
      XorCancels(bits - 1, a / 2, b / 2);
      LowBit((a % 2 + b % 2) % 2, Xor(bits - 1, a / 2, b / 2));
      FlipTwice(a % 2, b % 2);
    }
  }

  lemma {:induction false} XorCommutes(bits: nat, a: nat, b: nat)
    ensures Xor(bits, a, b) == Xor(bits, b, a)
  {
    if bits > 0 { XorCommutes(bits - 1, a / 2, b / 2); }
  }

  lemma Xor64Injective(a: U64, b: U64, c: U64)
    requires Xor64(a, c) == Xor64(b, c) || Xor64(c, a) == Xor64(c, b)
    ensures a == b
  {
    Pow2Values();
    XorCommutes(64, a, c); XorCommutes(64, b, c);
    XorCancels(64, a, c); XorCancels(64, b, c);
  }

  lemma {:induction false} XorWithZero(bits: nat, a: nat)
    requires a < Pow2(bits)
    ensures Xor(bits, a, 0) == a
  {
    if bits > 0 { XorWithZero(bits - 1, a / 2); }
  }

  lemma {:induction false} ShiftBound(n: nat, k: nat, bits: nat)
    requires n < Pow2(bits + k)
    ensures ShiftRight(n, k) < Pow2(bits)
  {
    if k > 0 { ShiftBound(n / 2, k - 1, bits); }
  }

  /** Shifting right distributes over exclusive or. */
  lemma {:induction false} ShiftXor(bits: nat, k: nat, a: nat, b: nat)
    requires k <= bits
    ensures ShiftRight(Xor(bits, a, b), k) == Xor(bits - k, ShiftRight(a, k), ShiftRight(b, k))
  {
    if k > 0 {
      LowBit((a % 2 + b % 2) % 2, Xor(bits - 1, a / 2, b / 2));
      ShiftXor(bits - 1, k - 1, a / 2, b / 2);
    }
  }

  lemma TopBitsSurvive(h: U64)
    ensures ShiftRight(XorShift33(h), 33) == ShiftRight(h, 33)
  {
    Pow2Values();
    ShiftBound(h, 33, 31);
    ShiftBound(ShiftRight(h, 33), 33, 0);
    ShiftXor(64, 33, h, ShiftRight(h, 33));
    XorWithZero(31, ShiftRight(h, 33));
  }

  lemma XorShiftInjective(h: U64, k: U64)
    requires XorShift33(h) == XorShift33(k)
    ensures h == k
  {
    TopBitsSurvive(h);
    TopBitsSurvive(k);
    Xor64Injective(h, k, ShiftRight(h, 33));
  }

  // -------------------------------------------------------- odd multiplication

  /** A product with `p` that is a multiple of `m` comes from a multiple of `m`
      when `p` has an inverse. */
  lemma CancelFactor(d: int, p: int, inverse: int, j: int, c: int, m: int)
    requires d * p == j * m && p * inverse == 1 + c * m
    ensures d == (j * inverse - d * c) * m
  {
    calc {
      (j * inverse - d * c) * m;
      (j * m) * inverse - d * (c * m);
      (d * p) * inverse - d * (p * inverse - 1);
      d;
    }
  }

  lemma SameResidue(h: nat, k: nat, p: nat, m: nat) returns (j: int)
    requires m > 0 && (h * p) % m == (k * p) % m
    ensures (h - k) * p == j * m
  {
    var x, y := h * p, k * p;
    assert (h - k) * p == x - y;
    j := x / m - y / m;
    assert x == (x / m) * m + x % m && y == (y / m) * m + y % m;
  }

  /** Multiplying by `p` is injective modulo 2^64 when `p` has an inverse. */
  lemma MulInjective(p: U64, inverse: U64, h: U64, k: U64)
    requires WrappingMul(p, inverse) == 1
    requires WrappingMul(h, p) == WrappingMul(k, p)
    ensures h == k
  {
    var m := 0x1_0000_0000_0000_0000;
    var j := SameResidue(h, k, p, m);
    var c := p * inverse / m;
    CancelFactor(h - k, p, inverse, j, c, m);
    SmallMultipleIsZero(h - k, j * inverse - (h - k) * c);
  }

  lemma ResidueOfSum(x: nat, c: nat)
    ensures (x % 0x1_0000_0000_0000_0000 + c) % 0x1_0000_0000_0000_0000 == (x + c) % 0x1_0000_0000_0000_0000
  {
  }

  lemma WrappingAddCommutes(a: U64, b: U64, c: U64)
    ensures WrappingAdd(WrappingAdd(a, b), c) == WrappingAdd(WrappingAdd(a, c), b)
  {
    ResidueOfSum(a + b, c);
    ResidueOfSum(a + c, b);
  }

  lemma WrappingAddInjective(a: U64, b: U64, c: U64)
    requires WrappingAdd(a, b) == WrappingAdd(a, c)
    ensures b == c
  {
  }

  lemma SmallMultipleIsZero(d: int, t: int)
    requires d == t * 0x1_0000_0000_0000_0000
    requires -0x1_0000_0000_0000_0000 < d < 0x1_0000_0000_0000_0000
    ensures d == 0
  {
  }

  // ------------------------------------------------------------- byte encoding

  function Pow256(n: nat): nat {
    if n == 0 then 1 else 0x100 * Pow256(n - 1)
  }

  lemma {:induction false} LittleEndianInjective(width: nat, a: nat, b: nat)
    requires a < Pow256(width) && b < Pow256(width)
    requires LittleEndian(width, a) == LittleEndian(width, b)
    ensures a == b
  {
    if width > 0 {
      var x, y := LittleEndian(width, a), LittleEndian(width, b);
      assert x[0] == y[0] && x[1..] == y[1..];
      LittleEndianInjective(width - 1, a / 0x100, b / 0x100);
    }
  }
}
