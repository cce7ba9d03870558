/**
 * JavaScript's conversions from text to integers: `parseInt(s, 10)`
 * (section 19.2.5 of ECMA-262) and `BigInt(s)` for a string argument
 * (StringToBigInt, section 7.1.14), with digit values in bases up to 36.
 */
module JsParse {
  import opened Wrappers
  import opened JsText

  /** The value of c as a digit: 0-9, then a/A = 10 up to z/Z = 35. */
  function DigitValue(c: char): (r: Option<nat>)
    ensures r.Some? ==> r.value < 36
    ensures r == Some(0) <==> c == '0'
  {
    if '0' <= c <= '9' then Some(c as int - '0' as int)
    else if 'a' <= c <= 'z' then Some(c as int - 'a' as int + 10)
    else if 'A' <= c <= 'Z' then Some(c as int - 'A' as int + 10)
    else None
  }

  predicate IsDigitOf(c: char, radix: nat)
  {
    DigitValue(c).Some? && DigitValue(c).value < radix
  }

  predicate AllDigitsOf(s: string, radix: nat)
  {
    forall i :: 0 <= i < |s| ==> IsDigitOf(s[i], radix)
  }

  predicate AllZeros(s: string)
  {
    forall i :: 0 <= i < |s| ==> s[i] == '0'
  }

  /** The number that the digits ds denote in base radix, most significant first. */
  function DigitsValue(ds: string, radix: nat): nat
    requires AllDigitsOf(ds, radix)
  {
    if ds == [] then 0
    else radix * DigitsValue(ds[..|ds| - 1], radix) + DigitValue(ds[|ds| - 1]).value
  }

  function Power(b: nat, e: nat): (p: nat)
  {
    if e == 0 then 1 else b * Power(b, e - 1)
  }

  lemma MulMonotone(a: nat, b: int, c: int)
    requires b <= c
    ensures a * b <= a * c
  {
  }

  lemma BoundStep(radix: nat, v: nat, d: nat, p: nat)
    requires v < p && d < radix
    ensures radix * v + d < radix * p
  {
    MulMonotone(radix, v + 1, p);
  }

  /** The longest prefix of s made of digits of radix. */
  function DigitPrefix(s: string, radix: nat): (r: string)
    ensures |r| <= |s| && r == s[..|r|] && AllDigitsOf(r, radix)
    ensures |r| < |s| ==> !IsDigitOf(s[|r|], radix)
  {
    if s != [] && IsDigitOf(s[0], radix) then [s[0]] + DigitPrefix(s[1..], radix) else []
  }

  function Signed(negative: bool, v: nat): Option<int>
  {
    Some(if negative then -(v as int) else v as int)
  }

  /** parseInt(s, 10); None stands for NaN. */
  function ParseInt10(s: string): Option<int>
  {
    var t := TrimStart(s);
    var negative := t != [] && t[0] == '-';
    var body := if t != [] && (t[0] == '-' || t[0] == '+') then t[1..] else t;
    var ds := DigitPrefix(body, 10);
    if ds == [] then None
    else Signed(negative, DigitsValue(ds, 10))
  }

  /** A non-empty run of digits of radix, and its value. */
  function UnsignedValue(ds: string, radix: nat): (r: Option<nat>)
    ensures r.Some? <==> ds != [] && AllDigitsOf(ds, radix)
    ensures r.Some? ==> r.value == DigitsValue(ds, radix)
  {
    if ds != [] && AllDigitsOf(ds, radix) then Some(DigitsValue(ds, radix)) else None
  }

  /**
   * BigInt(s) for a string s; None stands for the SyntaxError it throws.
   * After trimming, the text must be empty (giving 0), a hexadecimal, octal
   * or binary literal with prefix 0x, 0o or 0b (either case) and no sign, or
   * an optionally signed run of decimal digits.
   */
  function StringToBigInt(s: string): Option<int>
  {
    var t := Trim(s);
    if t == [] then Some(0)
    else if |t| >= 2 && t[0] == '0' && t[1] in "xXoObB" then
      UnsignedValue(t[2..], if t[1] in "xX" then 16 else if t[1] in "oO" then 8 else 2)
    else if t[0] == '+' || t[0] == '-' then
      match UnsignedValue(t[1..], 10)
      case None => None
      case Some(v) => Signed(t[0] == '-', v)
    else UnsignedValue(t, 10)
  }

  /** The decimal numeral of n, the reference rendering for the parsing round trip. */
  function NatDigits(n: nat): (r: string)
    ensures r != [] && AllDigitsOf(r, 10)
  {
    var d := ['0' + (n % 10) as char];
    assert DigitValue(d[0]) == Some(n % 10);
    if n < 10 then d else NatDigits(n / 10) + d
  }

  function DecimalString(n: int): string
  {
    if n < 0 then "-" + NatDigits(-n) else NatDigits(n)
  }

  lemma {:induction false} NatDigitsValue(n: nat)
    ensures DigitsValue(NatDigits(n), 10) == n
  {
    var d := ['0' + (n % 10) as char];
    if n >= 10 {
      NatDigitsValue(n / 10);
      var r := NatDigits(n);
      assert r[..|r| - 1] == NatDigits(n / 10);
    }
  }

  lemma {:induction false} DigitPrefixWhole(ds: string, rest: string, radix: nat)
    requires AllDigitsOf(ds, radix)
    requires rest == [] || !IsDigitOf(rest[0], radix)
    ensures DigitPrefix(ds + rest, radix) == ds
  {
    if ds != [] {
      assert (ds + rest)[1..] == ds[1..] + rest;
      DigitPrefixWhole(ds[1..], rest, radix);
      assert [ds[0]] + ds[1..] == ds;
    } else {
      assert ds + rest == rest;
    }
  }

  /** parseInt reads an optional sign and the longest run of decimal digits after it. */
  lemma ParseInt10Digits(sign: string, ds: string, rest: string)
    requires sign == "" || sign == "+" || sign == "-"
    requires ds != [] && AllDigitsOf(ds, 10)
    requires rest == [] || !IsDigitOf(rest[0], 10)
    ensures ParseInt10(sign + ds + rest) == Signed(sign == "-", DigitsValue(ds, 10))
  {
    var s := sign + ds + rest;
    assert !IsWhitespace(s[0]) by {
      assert s[0] == if sign == "" then ds[0] else sign[0];
      assert IsDigitOf(ds[0], 10);
    }
    assert TrimStart(s) == s;
    var body := if s[0] == '-' || s[0] == '+' then s[1..] else s;
    assert body == ds + rest by {
      if sign == "" {
        assert s == ds + rest;
        assert IsDigitOf(s[0], 10);
      } else {
        assert s[1..] == ds + rest;
      }
    }
    DigitPrefixWhole(ds, rest, 10);
  }

  /** Parsing the decimal numeral of any integer with parseInt gives the integer back. */
  lemma ParseInt10RoundTrip(n: int)
    ensures ParseInt10(DecimalString(n)) == Some(n)
  {
    var sign := if n < 0 then "-" else "";
    var ds := NatDigits(if n < 0 then -n else n);
    NatDigitsValue(if n < 0 then -n else n);
    ParseInt10Digits(sign, ds, []);
    assert sign + ds + [] == DecimalString(n);
  }

  /** Text whose first character (after any sign) is not a digit parses to NaN. */
  lemma ParseInt10NaN(s: string)
    requires var t := TrimStart(s);
      var body := if t != [] && (t[0] == '-' || t[0] == '+') then t[1..] else t;
      body == [] || !IsDigitOf(body[0], 10)
    ensures ParseInt10(s).None?
  {
  }

  /** A run of digits has value 0 exactly when every digit is '0'. */
  lemma {:induction false} DigitsValueZero(ds: string, radix: nat)
    requires radix >= 2 && AllDigitsOf(ds, radix)
    ensures DigitsValue(ds, radix) == 0 <==> AllZeros(ds)
  {
    if ds != [] {
      var init := ds[..|ds| - 1];
      DigitsValueZero(init, radix);
      var v := DigitsValue(init, radix);
      if v > 0 { MulMonotone(radix, 1, v); }
      if AllZeros(ds) {
        assert AllZeros(init);
      } else if AllZeros(init) {
        assert ds[|ds| - 1] != '0';
      }
    }
  }

  /** Leading zeros do not change the value. */
  lemma {:induction false} DigitsValueLeadingZeros(z: string, ds: string, radix: nat)
    requires radix >= 2 && AllZeros(z) && AllDigitsOf(ds, radix)
    ensures AllDigitsOf(z + ds, radix) && DigitsValue(z + ds, radix) == DigitsValue(ds, radix)
  {
    assert AllDigitsOf(z, radix) by {
      forall i | 0 <= i < |z| ensures IsDigitOf(z[i], radix) { assert z[i] == '0'; }
    }
    assert AllDigitsOf(z + ds, radix);
    if ds == [] {
      assert z + ds == z;
      DigitsValueZero(z, radix);
    } else {
      var init := ds[..|ds| - 1];
      DigitsValueLeadingZeros(z, init, radix);
      assert (z + ds)[..|z + ds| - 1] == z + init;
    }
  }

  /** n digits of radix denote a number below radix^n. */
  lemma {:induction false} DigitsValueBound(ds: string, radix: nat)
    requires radix >= 2 && AllDigitsOf(ds, radix)
    ensures DigitsValue(ds, radix) < Power(radix, |ds|)
  {
    if ds != [] {
      var init := ds[..|ds| - 1];
      DigitsValueBound(init, radix);
      var v, p := DigitsValue(init, radix), Power(radix, |init|);
      BoundStep(radix, v, DigitValue(ds[|ds| - 1]).value, p);
    }
  }

  /** Lower-casing digits does not change their value. */
  lemma {:induction false} DigitsValueLower(ds: string, radix: nat)
    requires AllDigitsOf(ds, radix)
    ensures AllDigitsOf(ToLower(ds), radix) && DigitsValue(ToLower(ds), radix) == DigitsValue(ds, radix)
  {
    var lo := ToLower(ds);
    assert forall i :: 0 <= i < |ds| ==> DigitValue(lo[i]) == DigitValue(ds[i]);
    if ds != [] {
      var init := ds[..|ds| - 1];
      DigitsValueLower(init, radix);
      assert lo[..|lo| - 1] == ToLower(init);
    }
  }

  /** A string with no whitespace at either end is its own trim. */
  lemma TrimUnchanged(s: string)
    requires s != [] && !IsWhitespace(s[0]) && !IsWhitespace(s[|s| - 1])
    ensures Trim(s) == s
  {
    assert TrimStart(s) == s;
    assert TrimEnd(s) == s;
  }

  /** BigInt of "0x" followed by hexadecimal digits is their value. */
  lemma BigIntOfHex(ds: string)
    requires ds != [] && AllDigitsOf(ds, 16)
    ensures StringToBigInt("0x" + ds) == Some(DigitsValue(ds, 16))
  {
    var s := "0x" + ds;
    assert !IsWhitespace(s[|s| - 1]) by { assert s[|s| - 1] == ds[|ds| - 1]; }
    TrimUnchanged(s);
    assert s[2..] == ds;
  }
}
