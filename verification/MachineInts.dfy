/** Bytes, 64-bit words and the bit operations the wire format is written with.
    The operations are defined bit by bit on naturals, so that the loops of the codec
    can be written with the same shifts, masks and ORs as the program. */
module MachineInts {

  type byte = b: int | 0 <= b < 0x100
  type uint64 = v: int | 0 <= v < 0x1_0000_0000_0000_0000

  const TWO_TO_THE_63: int := 0x8000_0000_0000_0000
  const TWO_TO_THE_64: int := 0x1_0000_0000_0000_0000
  const UINT64_MAX: uint64 := 0xFFFF_FFFF_FFFF_FFFF

  /** The largest value of a C++ `int`, the type of every cursor and length. */
  const INT_MAX: int := 0x7FFF_FFFF

  function Pow2(n: nat): (p: nat)
    ensures p >= 1
  {
    if n == 0 then 1 else 2 * Pow2(n - 1)
  }

  function Pow128(n: nat): (p: nat)
    ensures p >= 1
  {
    if n == 0 then 1 else 128 * Pow128(n - 1)
  }

  function BitOr(a: nat, b: nat): nat
    decreases a + b
  {
    if a == 0 && b == 0 then 0
    else 2 * BitOr(a / 2, b / 2) + if a % 2 == 1 || b % 2 == 1 then 1 else 0
  }

  function BitAnd(a: nat, b: nat): nat
  {
    if a == 0 || b == 0 then 0
    else 2 * BitAnd(a / 2, b / 2) + if a % 2 == 1 && b % 2 == 1 then 1 else 0
  }

  /** `v << n` on a 64-bit word: the bits pushed past the top are lost. */
  function ShiftLeft64(v: uint64, n: nat): uint64
  {
    (v * Pow2(n)) % TWO_TO_THE_64
  }

  function ShiftRight(v: nat, n: nat): nat
  {
    if n == 0 then v else ShiftRight(v / 2, n - 1)
  }

  lemma {:induction false} OrZero(g: nat)
    ensures BitOr(0, g) == g
  {
    if g > 0 {
      OrZero(g / 2);
    }
  }

  /** OR is addition when the right operand is shifted past every bit of the left one. */
  lemma {:induction false} OrDisjoint(a: nat, g: nat, n: nat)
    requires a < Pow2(n)
    ensures BitOr(a, g * Pow2(n)) == a + g * Pow2(n)
    decreases n
  {
    if n == 0 {
      OrZero(g);
    } else {
      var h := g * Pow2(n - 1);
      assert g * Pow2(n) == 2 * h;
      OrDisjoint(a / 2, g, n - 1);
    }
  }

  lemma ModDouble(v: nat, p: nat)
    requires p > 0
    ensures v % (2 * p) == 2 * (v / 2 % p) + v % 2
  {
    var q, r := v / 2 / p, v / 2 % p;
    assert v / 2 == q * p + r;
    ModUnique(v, q, 2 * p, 2 * r + v % 2);
  }

  lemma ModUnique(v: nat, q: nat, m: nat, r: nat)
    requires r < m && v == q * m + r
    ensures v % m == r
  {
    var q', r' := v / m, v % m;
    assert (q - q') * m == r' - r;
    if q > q' {
      MulGrows(q - q', m);
    } else if q < q' {
      MulGrows(q' - q, m);
    }
  }

  lemma MulGrows(d: nat, m: nat)
    requires d >= 1
    ensures d * m >= m
  {
  }

  lemma ModLe(v: nat, m: nat)
    requires m > 0
    ensures 0 <= v % m <= v
  {
    if v < m {
      ModUnique(v, 0, m, v);
    } else {
      assert v % m < m;
    }
  }

  /** Masking with n low ones is reduction modulo 2^n. */
  lemma {:induction false} AndLow(v: nat, n: nat)
    ensures BitAnd(v, Pow2(n) - 1) == v % Pow2(n)
    decreases n
  {
    if n > 0 {
      var p := Pow2(n - 1);
      AndLow(v / 2, n - 1);
      ModDouble(v, p);
      AndOddMask(v, p - 1);
    }
  }

  lemma AndOddMask(v: nat, m: nat)
    ensures BitAnd(v, 2 * m + 1) == 2 * BitAnd(v / 2, m) + v % 2
  {
    assert (2 * m + 1) / 2 == m && (2 * m + 1) % 2 == 1;
  }

  lemma AndLow7(v: nat)
    ensures BitAnd(v, 0x7F) == v % 0x80
  {
    var n := 7;
    Pow2Values();
    AndLow(v, n);
  }

  lemma ShiftRight7(v: nat)
    ensures ShiftRight(v, 7) == v / 0x80
  {
    assert ShiftRight(v, 7) == ShiftRight(v / 4, 5);
    assert ShiftRight(v / 4, 5) == ShiftRight(v / 16, 3);
    assert ShiftRight(v / 16, 3) == ShiftRight(v / 64, 1);
    assert ShiftRight(v / 64, 1) == v / 0x80;
  }

  lemma AndHighBit(b: byte)
    ensures BitAnd(b, 0x80) == 0 <==> b < 0x80
  {
    assert BitAnd(b / 128, 1) == b / 128;
    assert BitAnd(b / 64, 2) == b / 128 * 2;
    assert BitAnd(b / 32, 4) == b / 128 * 4;
    assert BitAnd(b / 16, 8) == b / 128 * 8;
    assert BitAnd(b / 8, 16) == b / 128 * 16;
    assert BitAnd(b / 4, 32) == b / 128 * 32;
    assert BitAnd(b / 2, 64) == b / 128 * 64;
  }

  lemma OrHighBit(b: nat)
    requires b < 0x80
    ensures BitOr(b, 0x80) == b + 0x80
  {
    Pow2Values();
    OrDisjoint(b, 1, 7);
  }

  lemma Pow2Values()
    ensures Pow2(7) == 128
  {
    assert Pow2(3) == 8;
    assert Pow2(5) == 32;
  }

  lemma Pow128Values()
    ensures Pow128(1) == 128 && Pow128(9) == TWO_TO_THE_63 && Pow128(10) == 128 * TWO_TO_THE_63
  {
    assert Pow128(2) == 0x4000;
    assert Pow128(4) == 0x1000_0000;
    assert Pow128(6) == 0x400_0000_0000;
    assert Pow128(8) == 0x100_0000_0000_0000;
  }

  lemma {:induction false} Pow128Monotone(m: nat, n: nat)
    requires m <= n
    ensures Pow128(m) <= Pow128(n)
    decreases n - m
  {
    if m < n {
      Pow128Monotone(m + 1, n);
    }
  }

  lemma {:induction false} Pow2OfGroups(i: nat)
    ensures Pow2(7 * i) == Pow128(i)
  {
    if i > 0 {
      Pow2OfGroups(i - 1);
      var p := Pow2(7 * (i - 1));
      assert Pow2(7 * (i - 1) + 2) == 4 * p;
      assert Pow2(7 * (i - 1) + 4) == 16 * p;
      assert Pow2(7 * (i - 1) + 6) == 64 * p;
    }
  }
}
