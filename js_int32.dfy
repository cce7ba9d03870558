/**
 * The JavaScript number operators that the seed derivation applies to
 * integer-valued operands, written on mathematical integers.
 *
 * JavaScript's `<<`, `>>>` and `&` first convert their operands with
 * ToInt32 / ToUint32 (sections 7.1.6 and 7.1.7 of ECMA-262) and work on the
 * 32 bits so obtained; `<<` and `&` return a signed 32-bit value and `>>>` an
 * unsigned one. Every operand used in this model is an integer of magnitude
 * below 2^53, so the conversions are exact modular reductions.
 */
module JsInt32 {


  /** Largest integer up to which every JavaScript number is exact (2^53). */
  const MAX_SAFE: int := 0x20_0000_0000_0000

  predicate IsInt32(x: int) { -0x8000_0000 <= x < 0x8000_0000 }
  predicate IsUint32(x: int) { 0 <= x < 0x1_0000_0000 }

  function Pow2(n: nat): (p: nat)
    ensures p >= 1
  {
    if n == 0 then 1 else 2 * Pow2(n - 1)
  }

  /** ECMA-262 ToUint32: the representative of x modulo 2^32 in [0, 2^32). */
  function ToUint32(x: int): (r: int)
    ensures IsUint32(r)
    ensures (x - r) % 0x1_0000_0000 == 0
  {
    x % 0x1_0000_0000
  }

  /** ECMA-262 ToInt32: the representative of x modulo 2^32 in [-2^31, 2^31). */
  function ToInt32(x: int): (r: int)
    ensures IsInt32(r)
    ensures (x - r) % 0x1_0000_0000 == 0
  {
    (x + 0x8000_0000) % 0x1_0000_0000 - 0x8000_0000
  }

  /** The low n bits of a and b combined with a bitwise AND, as an integer. */
  function AndBits(a: nat, b: nat, n: nat): (r: nat)
    ensures r < Pow2(n)
  {
    if n == 0 then 0
    else (if a % 2 == 1 && b % 2 == 1 then 1 else 0) + 2 * AndBits(a / 2, b / 2, n - 1)
  }

  /** `x << n` for 0 <= n < 32. */
  function ShiftLeft(x: int, n: nat): (r: int)
    requires n < 32
    ensures IsInt32(r)
  {
    ToInt32(ToInt32(x) * Pow2(n))
  }

  /** `x >>> n` for 0 <= n < 32. */
  function UnsignedShiftRight(x: int, n: nat): int
    requires n < 32
  {
    ToUint32(x) / Pow2(n)
  }

  /** `x & y`. */
  function BitAnd(x: int, y: int): (r: int)
    ensures IsInt32(r)
  {
    ToInt32(AndBits(ToUint32(x), ToUint32(y), 32))
  }

  lemma Pow2Byte()
    ensures Pow2(8) == 0x100
  {
  }

  lemma Pow2TopShift()
    ensures Pow2(24) == 0x100_0000
  {
    Pow2Add(16, 8);
    Pow2Add(8, 8);
  }

  lemma Pow2Word()
    ensures Pow2(32) == 0x1_0000_0000
  {
    Pow2Add(16, 16);
    assert Pow2(16) == 0x1_0000 by {
      Pow2Add(8, 8);
    }
  }

  lemma {:induction false} Pow2Add(m: nat, n: nat)
    ensures Pow2(m + n) == Pow2(m) * Pow2(n)
  {
    if m > 0 {
      Pow2Add(m - 1, n);
    }
  }

  /** ToInt32 depends only on the residue modulo 2^32. */
  lemma Int32Congruent(x: int, y: int)
    requires (x - y) % 0x1_0000_0000 == 0
    ensures ToInt32(x) == ToInt32(y)
  {
    var k := (x - y) / 0x1_0000_0000;
    assert x == y + k * 0x1_0000_0000;
    assert (x + 0x8000_0000) % 0x1_0000_0000 == (y + 0x8000_0000 + k * 0x1_0000_0000) % 0x1_0000_0000;
  }

  /** ToUint32 depends only on the residue modulo 2^32. */
  lemma Uint32Congruent(x: int, y: int)
    requires (x - y) % 0x1_0000_0000 == 0
    ensures ToUint32(x) == ToUint32(y)
  {
    var k := (x - y) / 0x1_0000_0000;
    assert x == y + k * 0x1_0000_0000;
  }

  /** A value already in the signed 32-bit range is left alone by ToInt32. */
  lemma Int32Fixed(x: int)
    requires IsInt32(x)
    ensures ToInt32(x) == x
  {
  }

  /** ToInt32 and ToUint32 of the same value are congruent modulo 2^32. */
  lemma Int32Uint32(x: int)
    ensures ToUint32(ToInt32(x)) == ToUint32(x)
    ensures ToInt32(ToUint32(x)) == ToInt32(x)
  {
    Uint32Congruent(ToInt32(x), x);
    Int32Congruent(ToUint32(x), x);
  }

  /** Division with remainder has only one result. */
  lemma ModUnique(a: int, d: int, k: int, r: int)
    requires d > 0 && a == d * k + r && 0 <= r < d
    ensures a % d == r && a / d == k
  {
    var q, r' := a / d, a % d;
    assert d * (k - q) == r' - r;
    if k - q >= 1 {
    } else if k - q <= -1 {
    }
  }

  lemma DivModHalf(a: nat, p: nat)
    requires p >= 1
    ensures a % (2 * p) == a % 2 + 2 * ((a / 2) % p)
  {
    var q, r := a / 2, a % 2;
    var k, s := q / p, q % p;
    assert a == 2 * q + r;
    assert q == p * k + s;
    assert a == (2 * p) * k + (2 * s + r);
    ModUnique(a, 2 * p, k, 2 * s + r);
  }

  /** `a & a` keeps the low n bits of a. */
  lemma {:induction false} AndBitsSelf(a: nat, n: nat)
    ensures AndBits(a, a, n) == a % Pow2(n)
  {
    if n > 0 {
      AndBitsSelf(a / 2, n - 1);
      DivModPow2(a, n);
    }
  }

  lemma {:induction false} AndBitsZero(a: nat, n: nat)
    ensures AndBits(a, 0, n) == 0
  {
    if n > 0 {
      AndBitsZero(a / 2, n - 1);
    }
  }

  /** AND with the mask of the low k bits (k <= n) keeps the low k bits. */
  lemma AndBitsLowMask(a: nat, k: nat, n: nat)
    requires k <= n
    ensures AndBits(a, Pow2(k) - 1, n) == a % Pow2(k)
  {
    AndBitsLowBits(a, k, n);
    LowBitsMod(a, k);
  }

  /** The low k bits of a, collected bit by bit. */
  function LowBits(a: nat, k: nat): nat
  {
    if k == 0 then 0 else a % 2 + 2 * LowBits(a / 2, k - 1)
  }

  /** Collecting the low k bits one at a time gives the residue modulo 2^k. */
  lemma {:induction false} LowBitsMod(a: nat, k: nat)
    ensures LowBits(a, k) == a % Pow2(k)
  {
    if k > 0 {
      LowBitsMod(a / 2, k - 1);
      DivModPow2(a, k);
    }
  }

  /** AND with the mask of the low k bits collects the low k bits. */
  lemma {:induction false} AndBitsLowBits(a: nat, k: nat, n: nat)
    requires k <= n
    ensures AndBits(a, Pow2(k) - 1, n) == LowBits(a, k)
  {
    if k == 0 {
      AndBitsZero(a, n);
    } else {
      MaskExpand(a, k, n);
      AndBitsLowBits(a / 2, k - 1, n - 1);
    }
  }

  /** Masking with 2^k - 1 keeps the low bit of a and masks a / 2 with 2^(k-1) - 1. */
  lemma MaskExpand(a: nat, k: nat, n: nat)
    requires 1 <= k <= n
    ensures AndBits(a, Pow2(k) - 1, n) == a % 2 + 2 * AndBits(a / 2, Pow2(k - 1) - 1, n - 1)
  {
    MaskHalf(k);
    AndBitsOddStep(a, Pow2(k) - 1, n);
  }

  /** The mask of the low k bits is odd and halves to the mask of the low k - 1 bits. */
  lemma MaskHalf(k: nat)
    requires k >= 1
    ensures (Pow2(k) - 1) % 2 == 1 && (Pow2(k) - 1) / 2 == Pow2(k - 1) - 1
  {
    var p := Pow2(k - 1);
    assert Pow2(k) == 2 * p;
    OddHalf(p);
  }

  lemma OddHalf(p: int)
    requires p >= 1
    ensures (2 * p - 1) % 2 == 1 && (2 * p - 1) / 2 == p - 1
  {
    ModUnique(2 * p - 1, 2, p - 1, 1);
  }

  /** The low k bits of a are its low bit and the low k - 1 bits of a / 2. */
  lemma DivModPow2(a: nat, k: nat)
    requires k >= 1
    ensures a % Pow2(k) == a % 2 + 2 * ((a / 2) % Pow2(k - 1))
  {
    DivModHalf(a, Pow2(k - 1));
  }

  /** One step of AndBits against an odd mask keeps the low bit of a. */
  lemma AndBitsOddStep(a: nat, b: nat, n: nat)
    requires n > 0 && b % 2 == 1
    ensures AndBits(a, b, n) == a % 2 + 2 * AndBits(a / 2, b / 2, n - 1)
  {
  }

  /** A 32-bit word is its own residue modulo 2^32, and 2^32 - 1 is the all-ones word. */
  lemma WordMod(u: nat)
    requires IsUint32(u)
    ensures u % Pow2(32) == u && Pow2(32) - 1 == 0xFFFF_FFFF
  {
    Pow2Word();
  }

  /** A 32-bit word ANDed with itself is itself. */
  lemma AndBitsWordSelf(u: nat)
    requires IsUint32(u)
    ensures AndBits(u, u, 32) == u
  {
    AndBitsSelf(u, 32);
    WordMod(u);
  }

  /** A 32-bit word ANDed with all ones is itself. */
  lemma AndBitsWordOnes(u: nat)
    requires IsUint32(u)
    ensures AndBits(u, 0xFFFF_FFFF, 32) == u
  {
    AndBitsLowMask(u, 32, 32);
    WordMod(u);
  }

  /** `x & x` is ToInt32(x): the source uses it to force a value into 32 bits. */
  lemma BitAndSelf(x: int)
    ensures BitAnd(x, x) == ToInt32(x)
  {
    AndBitsWordSelf(ToUint32(x));
    Int32Uint32(x);
  }

  /** `x & 0xFFFFFFFF` is ToInt32(x), a SIGNED value, not the unsigned residue. */
  lemma BitAndAllOnes(x: int)
    ensures BitAnd(x, 0xFFFF_FFFF) == ToInt32(x)
  {
    assert ToUint32(0xFFFF_FFFF) == 0xFFFF_FFFF;
    AndBitsWordOnes(ToUint32(x));
    Int32Uint32(x);
  }

  /** A byte is its own residue modulo 2^8, and 2^8 - 1 is the all-ones byte. */
  lemma ByteMod(v: nat)
    requires v < 0x100
    ensures v % Pow2(8) == v && Pow2(8) - 1 == 0xFF
  {
    Pow2Byte();
  }

  /** `v & 0xFF` leaves a value in 0..255 unchanged. */
  lemma BitAndByte(v: int)
    requires 0 <= v < 0x100
    ensures BitAnd(v, 0xFF) == v
  {
    assert ToUint32(v) == v;
    assert ToUint32(0xFF) == 0xFF;
    assert AndBits(v, 0xFF, 32) == v by {
      AndBitsLowMask(v, 8, 32);
      ByteMod(v);
    }
    Int32Fixed(v);
  }

  /** `h << 5` on a signed 32-bit h is 32 h wrapped to signed 32 bits. */
  lemma ShiftLeftFive(h: int)
    requires IsInt32(h)
    ensures ShiftLeft(h, 5) == ToInt32(32 * h)
  {
    assert Pow2(5) == 32;
    Int32Fixed(h);
  }

  /** `x >>> 24` is the unsigned reading of x divided by 2^24. */
  lemma UnsignedShiftRightTop(x: int)
    ensures UnsignedShiftRight(x, 24) == ToUint32(x) / 0x100_0000
  {
    Pow2TopShift();
  }
}
