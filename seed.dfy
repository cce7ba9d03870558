/**
 * Seed derivation of the Falcon signature page (`stringToSeed`): the user's
 * seed text, already UTF-8 encoded, becomes the 48-byte seed that Falcon-512
 * key generation expects.
 *
 * When the Web Crypto API is present its SHA-256 digest (32 bytes) is cycled
 * to 48 bytes. Otherwise a 32-bit string hash (h = 31 h + b, wrapped to signed
 * 32 bits) seeds a linear congruential generator whose top byte is taken 48
 * times. The digest is computed outside this model and arrives as an input.
 */
module Seed {
  import opened Wrappers
  import opened Bytes
  import opened JsInt32

  const SEED_LEN: nat := 48
  const DIGEST_LEN: nat := 32

  /** Reference for the fallback accumulator: Horner's rule h = 31 h + b, without any wrap-around. */
  function PolyHash(data: seq<byte>): int
  {
    if data == [] then 0 else 31 * PolyHash(data[..|data| - 1]) + data[|data| - 1]
  }

  /** The fallback accumulator after the bytes of data, each step wrapped to signed 32 bits. */
  function StringHash(data: seq<byte>): (h: int)
    ensures IsInt32(h)
  {
    if data == [] then 0 else ToInt32(31 * StringHash(data[..|data| - 1]) + data[|data| - 1])
  }

  /** One generator step on the unsigned 32-bit state: multiplier 1664525, increment 1013904223. */
  function LcgNext(u: int): (r: int)
    ensures IsUint32(r)
  {
    (1664525 * u + 1013904223) % 0x1_0000_0000
  }

  /** The generator state after k steps from u. */
  function LcgState(u: int, k: nat): (r: int)
    ensures k > 0 ==> IsUint32(r)
  {
    if k == 0 then u else LcgNext(LcgState(u, k - 1))
  }

  /** The top 8 bits of an unsigned 32-bit value. */
  function TopByte(u: int): (b: byte)
    requires IsUint32(u)
    ensures b * 0x100_0000 <= u < (b + 1) * 0x100_0000
  {
    u / 0x100_0000
  }

  /** The seed byte at position i when the generator starts from u: the top byte of state i + 1. */
  function LcgByte(u: int, i: nat): byte
  {
    TopByte(LcgState(u, i + 1))
  }

  /** The fallback seed byte at position i for input data. */
  function FallbackByte(data: seq<byte>, i: nat): byte
  {
    LcgByte(ToUint32(StringHash(data)), i)
  }

  /** Wrapping every step gives the same result as wrapping once at the end. */
  lemma {:induction false} StringHashIsPolyHashWrapped(data: seq<byte>)
    ensures StringHash(data) == ToInt32(PolyHash(data))
  {
    if data != [] {
      var init, b := data[..|data| - 1], data[|data| - 1];
      StringHashIsPolyHashWrapped(init);
      HornerCongruent(PolyHash(init), StringHash(init), b);
    }
  }

  /** One Horner step taken on congruent accumulators wraps to the same value. */
  lemma HornerCongruent(p: int, q: int, b: int)
    requires q == ToInt32(p)
    ensures ToInt32(31 * p + b) == ToInt32(31 * q + b)
  {
    var k := (p - q) / 0x1_0000_0000;
    assert p - q == k * 0x1_0000_0000;
    assert (31 * p + b) - (31 * q + b) == (31 * k) * 0x1_0000_0000;
    Int32Congruent(31 * p + b, 31 * q + b);
  }

  /**
   * The fallback seed depends on the input only through its 32-bit hash, so
   * different texts can share a seed: "Aa" and "BB" give the same 48 bytes.
   */
  lemma FallbackCollision()
    ensures forall i: nat :: FallbackByte([65, 97], i) == FallbackByte([66, 66], i)
  {
    assert StringHash([65, 97]) == 2112 by {
      assert [65, 97][..1] == [65];
      assert [65][..0] == [];
    }
    assert StringHash([66, 66]) == 2112 by {
      assert [66, 66][..1] == [66];
      assert [66][..0] == [];
    }
  }

  /** With empty input the generator starts from 0; the first four seed bytes are 60, 71, 209, 170. */
  lemma EmptyInputKnownAnswer()
    ensures StringHash([]) == 0
    ensures FallbackByte([], 0) == 60 && FallbackByte([], 1) == 71
    ensures FallbackByte([], 2) == 209 && FallbackByte([], 3) == 170
  {
    assert LcgState(0, 1) == 1013904223;
    assert LcgState(0, 2) == 1196435762;
    assert LcgState(0, 3) == 3519870697;
    assert LcgState(0, 4) == 2868466484;
  }

  /** `((h << 5) - h) + b` followed by `h & h` is one wrapped step of h = 31 h + b. */
  lemma HashStep(h: int, b: byte)
    requires IsInt32(h)
    ensures var v := ShiftLeft(h, 5) - h + b;
      -MAX_SAFE < v < MAX_SAFE && BitAnd(v, v) == ToInt32(31 * h + b)
  {
    var s := ToInt32(32 * h);
    ShiftLeftFive(h);
    var v := s - h + b;
    assert IsInt32(s);
    BitAndSelf(v);
    assert (31 * h + b) - v == 32 * h - s;
    Int32Congruent(31 * h + b, v);
  }

  /** The hash of one more byte of data is one more wrapped Horner step. */
  lemma StringHashSnoc(data: seq<byte>, i: nat)
    requires i < |data|
    ensures StringHash(data[..i + 1]) == ToInt32(31 * StringHash(data[..i]) + data[i])
  {
    assert data[..i + 1][..i] == data[..i];
  }

  /** The generator step taken on congruent states gives congruent results. */
  lemma GeneratorCongruent(h: int, u: int)
    requires (h - u) % 0x1_0000_0000 == 0
    ensures ToUint32(h * 1664525 + 1013904223) == ToUint32(1664525 * u + 1013904223)
  {
    var k := (h - u) / 0x1_0000_0000;
    assert h == u + k * 0x1_0000_0000;
    assert (h * 1664525 + 1013904223) - (1664525 * u + 1013904223) == (1664525 * k) * 0x1_0000_0000;
    Uint32Congruent(h * 1664525 + 1013904223, 1664525 * u + 1013904223);
  }

  /**
   * `(h * 1664525 + 1013904223) & 0xFFFFFFFF` is exact in floating point
   * and leaves a signed value whose unsigned reading is one generator step.
   */
  lemma GeneratorStep(h: int)
    requires IsInt32(h)
    ensures -MAX_SAFE < h * 1664525 + 1013904223 < MAX_SAFE
    ensures ToUint32(BitAnd(h * 1664525 + 1013904223, 0xFFFF_FFFF)) == LcgNext(ToUint32(h))
  {
    var v := h * 1664525 + 1013904223;
    calc {
      ToUint32(BitAnd(v, 0xFFFF_FFFF));
      == { BitAndAllOnes(v); }
      ToUint32(ToInt32(v));
      == { Int32Uint32(v); }
      ToUint32(v);
      == { GeneratorCongruent(h, ToUint32(h)); }
      LcgNext(ToUint32(h));
    }
  }

  /** `(h >>> 24) & 0xFF` is the top byte of h read as unsigned. */
  lemma TopByteStep(h: int)
    ensures var t := UnsignedShiftRight(h, 24);
      0 <= t < 0x100 && BitAnd(t, 0xFF) == TopByte(ToUint32(h))
  {
    var t := UnsignedShiftRight(h, 24);
    UnsignedShiftRightTop(h);
    BitAndByte(t);
  }

  /** The digest path: a SHA-256 digest cycled to 48 bytes. */
  method ExpandDigest(digest: seq<byte>) returns (seed: seq<byte>)
    requires |digest| == DIGEST_LEN
    ensures |seed| == SEED_LEN
    ensures forall i :: 0 <= i < SEED_LEN ==> seed[i] == digest[i % DIGEST_LEN]
    ensures seed[..DIGEST_LEN] == digest && seed[DIGEST_LEN..] == digest[..SEED_LEN - DIGEST_LEN]
  {
    var buf := new byte[SEED_LEN](_ => 0);
    for i := 0 to SEED_LEN
      invariant forall k :: 0 <= k < i ==> buf[k] == digest[k % DIGEST_LEN]
    {
      buf[i] := digest[i % DIGEST_LEN];
    }
    seed := buf[..];
  }

  /**
   * One pass of the hashing loop: `hash = ((hash << 5) - hash) + b` and then
   * `hash = hash & hash`, which is one Horner step h = 31 h + b wrapped to
   * signed 32 bits.
   */
  method HashNext(h: int, b: byte) returns (next: int)
    requires IsInt32(h)
    ensures next == ToInt32(31 * h + b)
  {
    HashStep(h, b);
    next := ShiftLeft(h, 5) - h + b;
    next := BitAnd(next, next);
  }

  /** The first fallback loop: the 32-bit string hash of data. */
  method HashBytes(data: seq<byte>) returns (hash: int)
    ensures hash == StringHash(data)
  {
    hash := 0;
    for i := 0 to |data|
      invariant hash == StringHash(data[..i])
    {
      StringHashSnoc(data, i);
      hash := HashNext(hash, data[i]);
    }
    assert data[..|data|] == data;
  }

  /**
   * One pass of the generator loop: `h = (h * 1664525 + 1013904223) & 0xFFFFFFFF`
   * and the byte `(h >>> 24) & 0xFF` it stores. The new state is the next
   * generator state in its signed reading, and the byte is its top byte.
   */
  method GeneratorNext(h: int) returns (next: int, b: byte)
    requires IsInt32(h)
    ensures IsInt32(next) && ToUint32(next) == LcgNext(ToUint32(h))
    ensures b == TopByte(ToUint32(next))
  {
    GeneratorStep(h);
    next := BitAnd(h * 1664525 + 1013904223, 0xFFFF_FFFF);
    TopByteStep(next);
    b := BitAnd(UnsignedShiftRight(next, 24), 0xFF);
  }

  /** The second fallback loop: 48 generator steps from hash, keeping each state's top byte. */
  method GeneratorBytes(hash0: int) returns (seed: seq<byte>)
    requires IsInt32(hash0)
    ensures |seed| == SEED_LEN
    ensures forall i :: 0 <= i < SEED_LEN ==> seed[i] == LcgByte(ToUint32(hash0), i)
  {
    var buf := new byte[SEED_LEN](_ => 0);
    var hash := hash0;
    ghost var start := ToUint32(hash0);
    for i := 0 to SEED_LEN
      invariant IsInt32(hash) && ToUint32(hash) == LcgState(start, i)
      invariant forall k :: 0 <= k < i ==> buf[k] == LcgByte(start, k)
    {
      var next, b := GeneratorNext(hash);
      hash := next;
      buf[i] := b;
    }
    seed := buf[..];
  }

  /** The fallback path: the 32-bit string hash, then 48 generator steps. */
  method FallbackSeed(data: seq<byte>) returns (seed: seq<byte>)
    ensures |seed| == SEED_LEN
    ensures forall i :: 0 <= i < SEED_LEN ==> seed[i] == FallbackByte(data, i)
  {
    var hash := HashBytes(data);
    seed := GeneratorBytes(hash);
  }

  /**
   * `stringToSeed` on the encoded text data. digest is the SHA-256 digest
   * when the Web Crypto API produced one, and None when it is missing or
   * threw, which sends the call down the fallback path.
   */
  method StringToSeed(data: seq<byte>, digest: Option<seq<byte>>) returns (seed: seq<byte>)
    requires digest.Some? ==> |digest.value| == DIGEST_LEN
    ensures |seed| == SEED_LEN
    ensures digest.Some? ==> forall i :: 0 <= i < SEED_LEN ==> seed[i] == digest.value[i % DIGEST_LEN]
    ensures digest.None? ==> forall i :: 0 <= i < SEED_LEN ==> seed[i] == FallbackByte(data, i)
  {
    if digest.Some? {
      seed := ExpandDigest(digest.value);
    } else {
      seed := FallbackSeed(data);
    }
  }
}
