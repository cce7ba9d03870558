/**
 * The proof service's input helpers: the record handed to the Groth16
 * prover, and `parseArrayInput`, which reads a coefficient list typed by the
 * user either as a JSON array or as comma-separated integers.
 */
module ZkpInput {
  import opened Wrappers
  import opened JsText
  import opened JsParse
  import opened Json

  /** The prover's input record, filled by the circuit-input service. */
  datatype CircuitInput = CircuitInput(
    s1: seq<int>,
    h_hat: seq<int>,
    h_product_inv: seq<int>,
    h2p_d: seq<int>,
    pk_hash_in: string,
    in_tx_hash1: string,
    in_tx_hash2: string,
    in_c_hash: string)

  /** What parseArrayInput returns: a parsed JSON value, or the list of parseInt results (None for NaN). */
  datatype ArrayInput = FromJson(value: Json) | FromList(items: seq<Option<int>>)

  const INVALID_FORMAT: string := "Invalid array format"

  /** `cleaned.startsWith('[') && cleaned.endsWith(']')`. */
  predicate IsBracketed(s: string)
  {
    |s| > 0 && s[0] == '[' && s[|s| - 1] == ']'
  }

  /** `s.split(',').map(p => parseInt(p.trim(), 10))`. */
  function CommaList(s: string): (items: seq<Option<int>>)
    ensures |items| == |Split(s, ',')| == Count(s, ',') + 1
    ensures forall k :: 0 <= k < |items| ==> items[k] == ParseInt10(Trim(Split(s, ',')[k]))
  {
    var parts := Split(s, ',');
    SplitCount(s, ',');
    seq(|parts|, k requires 0 <= k < |parts| => ParseInt10(Trim(parts[k])))
  }

  /**
   * `parseArrayInput(input)`. jsonParse is JSON.parse, None when it throws;
   * only that branch can fail, with "Invalid array format".
   */
  function ParseArrayInput(input: string, jsonParse: string -> Option<Json>): (r: Result<ArrayInput, string>)
    ensures IsBracketed(Trim(input)) ==>
      && (r.Err? <==> jsonParse(Trim(input)).None?)
      && (r.Err? ==> r.error == INVALID_FORMAT)
      && (r.Ok? ==> r.value == FromJson(jsonParse(Trim(input)).value))
    ensures !IsBracketed(Trim(input)) ==> r == Ok(FromList(CommaList(Trim(input))))
  {
    var cleaned := Trim(input);
    if IsBracketed(cleaned) then
      match jsonParse(cleaned)
      case None => Err(INVALID_FORMAT)
      case Some(v) => Ok(FromJson(v))
    else Ok(FromList(CommaList(cleaned)))
  }

  /** Whitespace around the input never changes the result. */
  lemma ParseArrayIgnoresSurroundingWhitespace(w1: string, s: string, w2: string, jsonParse: string -> Option<Json>)
    requires AllWhitespace(w1) && AllWhitespace(w2)
    ensures ParseArrayInput(w1 + s + w2, jsonParse) == ParseArrayInput(s, jsonParse)
  {
    TrimAbsorbsWhitespace(w1, s, w2);
  }

  function DecimalList(ns: seq<int>): (parts: seq<string>)
    ensures |parts| == |ns|
    ensures forall k :: 0 <= k < |ns| ==> parts[k] == DecimalString(ns[k])
  {
    seq(|ns|, k requires 0 <= k < |ns| => DecimalString(ns[k]))
  }

  lemma DecimalStringShape(n: int)
    ensures var d := DecimalString(n);
      d != [] && !IsWhitespace(d[0]) && !IsWhitespace(d[|d| - 1]) && d[0] != '[' && ',' !in d
  {
    var ds := NatDigits(if n < 0 then -n else n);
    assert forall i :: 0 <= i < |ds| ==> '0' <= ds[i] <= '9';
    var d := DecimalString(n);
    assert d[|d| - 1] == ds[|ds| - 1];
  }

  lemma {:induction false} JoinFirstLast(parts: seq<string>, sep: char)
    requires |parts| >= 1 && forall k :: 0 <= k < |parts| ==> parts[k] != []
    ensures var j := Join(parts, sep); j != [] && j[0] == parts[0][0] && j[|j| - 1] == parts[|parts| - 1][|parts[|parts| - 1]| - 1]
  {
    if |parts| > 1 {
      JoinFirstLast(parts[1..], sep);
    }
  }

  /** Every piece of a list of decimal numerals is its own trim, holds no comma and parses back. */
  lemma DecimalPieces(ns: seq<int>)
    ensures var parts := DecimalList(ns);
      forall k :: 0 <= k < |ns| ==>
        && parts[k] != [] && ',' !in parts[k] && parts[k][0] != '['
        && !IsWhitespace(parts[k][0]) && !IsWhitespace(parts[k][|parts[k]| - 1])
        && Trim(parts[k]) == parts[k] && ParseInt10(parts[k]) == Some(ns[k])
  {
    var parts := DecimalList(ns);
    forall k | 0 <= k < |ns|
      ensures && parts[k] != [] && ',' !in parts[k] && parts[k][0] != '['
              && !IsWhitespace(parts[k][0]) && !IsWhitespace(parts[k][|parts[k]| - 1])
              && Trim(parts[k]) == parts[k] && ParseInt10(parts[k]) == Some(ns[k])
    {
      DecimalStringShape(ns[k]);
      TrimUnchanged(parts[k]);
      ParseInt10RoundTrip(ns[k]);
    }
  }

  /** The list parseArrayInput should give for ns: every entry a number, none NaN. */
  function AllParsed(ns: seq<int>): (items: seq<Option<int>>)
    ensures |items| == |ns|
    ensures forall k :: 0 <= k < |ns| ==> items[k] == Some(ns[k])
  {
    seq(|ns|, k requires 0 <= k < |ns| => Some(ns[k]))
  }

  lemma CommaListOfDecimals(ns: seq<int>)
    requires |ns| >= 1
    ensures CommaList(Join(DecimalList(ns), ',')) == AllParsed(ns)
  {
    var parts := DecimalList(ns);
    DecimalPieces(ns);
    SplitJoin(parts, ',');
    var items := CommaList(Join(parts, ','));
    forall k | 0 <= k < |ns| ensures items[k] == Some(ns[k]) {
      assert items[k] == ParseInt10(Trim(parts[k]));
    }
  }

  /** The joined numerals are their own trim and are not bracketed. */
  lemma DecimalTextPlain(ns: seq<int>)
    requires |ns| >= 1
    ensures var text := Join(DecimalList(ns), ','); Trim(text) == text && !IsBracketed(text)
  {
    var parts := DecimalList(ns);
    forall k | 0 <= k < |parts| ensures parts[k] != [] {
      DecimalStringShape(ns[k]);
    }
    JoinFirstLast(parts, ',');
    var first, last := parts[0], parts[|parts| - 1];
    assert first == DecimalString(ns[0]);
    DecimalStringShape(ns[0]);
    assert last == DecimalString(ns[|ns| - 1]);
    DecimalStringShape(ns[|ns| - 1]);
    PlainText(Join(parts, ','), first, last);
  }

  /** Text that starts like first and ends like last, both plain numerals, is its own trim and unbracketed. */
  lemma PlainText(text: string, first: string, last: string)
    requires first != [] && last != [] && text != []
    requires text[0] == first[0] && text[|text| - 1] == last[|last| - 1]
    requires !IsWhitespace(first[0]) && !IsWhitespace(last[|last| - 1]) && first[0] != '['
    ensures Trim(text) == text && !IsBracketed(text)
  {
    TrimUnchanged(text);
  }

  /**
   * A comma-separated list of decimal numerals reads back as the integers
   * themselves, none of them NaN.
   */
  lemma ParseArrayCommaRoundTrip(ns: seq<int>, jsonParse: string -> Option<Json>)
    requires |ns| >= 1
    ensures ParseArrayInput(Join(DecimalList(ns), ','), jsonParse) == Ok(FromList(AllParsed(ns)))
  {
    DecimalTextPlain(ns);
    CommaListOfDecimals(ns);
  }
}
