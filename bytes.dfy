/**
 * Byte buffers as the source uses them: `Uint8Array` values, read with
 * `slice` and written with `set`.
 */
module Bytes {

  type byte = x: int | 0 <= x < 0x100

  /**
   * A relative index of TypedArray.prototype.slice (section 23.2.3.27 of
   * ECMA-262): a negative index counts from the end, and the result is
   * clamped to 0..len.
   */
  function RelativeIndex(k: int, len: nat): (r: nat)
    ensures r <= len
    ensures 0 <= k <= len ==> r == k
    ensures k > len ==> r == len
    ensures k < 0 ==> r == if len + k < 0 then 0 else len + k
  {
    if k < 0 then (if len + k < 0 then 0 else len + k)
    else if k > len then len
    else k
  }

  /** `s.slice(start, end)`: a fresh copy of the elements between the clamped indices. */
  function Slice(s: seq<byte>, start: int, end: int): (r: seq<byte>)
    ensures var lo, hi := RelativeIndex(start, |s|), RelativeIndex(end, |s|);
      |r| == (if lo <= hi then hi - lo else 0) &&
      forall i :: 0 <= i < |r| ==> r[i] == s[lo + i]
  {
    var lo, hi := RelativeIndex(start, |s|), RelativeIndex(end, |s|);
    if lo <= hi then s[lo..hi] else []
  }

  /**
   * `target.set(source, offset)` (section 23.2.3.26 of ECMA-262): copies
   * source into target starting at offset and leaves every other element
   * alone. The JavaScript method throws a RangeError when source does not
   * fit; every call in the source fits by construction.
   */
  method Set(target: array<byte>, source: seq<byte>, offset: nat)
    requires offset + |source| <= target.Length
    modifies target
    ensures target[..] == old(target[..offset]) + source + old(target[offset + |source|..])
  {
    var i := 0;
    while i < |source|
      invariant 0 <= i <= |source|
      invariant target[..offset] == old(target[..offset])
      invariant target[offset..offset + i] == source[..i]
      invariant target[offset + |source|..] == old(target[offset + |source|..])
      invariant forall k :: offset + i <= k < offset + |source| ==> target[k] == old(target[k])
    {
      target[offset + i] := source[i];
      i := i + 1;
    }
    assert target[..] == target[..offset] + target[offset..offset + |source|] + target[offset + |source|..];
  }

  /** Whether every character of s is ASCII, which UTF-8 encodes as one byte. */
  predicate IsAscii(s: string)
  {
    forall i :: 0 <= i < |s| ==> s[i] as int < 0x80
  }

  /** `new TextEncoder().encode(s)` for ASCII text: one byte per character, its code. */
  function EncodeAscii(s: string): (r: seq<byte>)
    requires IsAscii(s)
    ensures |r| == |s|
    ensures forall i :: 0 <= i < |r| ==> r[i] == s[i] as int
  {
    if s == [] then [] else EncodeAscii(s[..|s| - 1]) + [s[|s| - 1] as int]
  }

  /** Encoding distributes over concatenation. */
  lemma EncodeAsciiAppend(a: string, b: string)
    requires IsAscii(a) && IsAscii(b)
    ensures IsAscii(a + b) && EncodeAscii(a + b) == EncodeAscii(a) + EncodeAscii(b)
  {
    assert IsAscii(a + b) by {
      forall i | 0 <= i < |a + b| ensures (a + b)[i] as int < 0x80 {
        if i >= |a| { assert (a + b)[i] == b[i - |a|]; }
      }
    }
  }

  /** `n` zero bytes, as in a fresh `new Uint8Array(n)`. */
  function Zeros(n: nat): (r: seq<byte>)
    ensures |r| == n && forall i :: 0 <= i < n ==> r[i] == 0
  {
    seq(n, _ => 0)
  }
}
