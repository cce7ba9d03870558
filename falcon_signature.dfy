/**
 * The Falcon signature page: the check that enables its "generate" button
 * (`isFormValid`) and the validation that `generateAndNavigate` performs
 * before it asks the circuit-input service for the prover's input.
 *
 * The text fields s1, h and h2p hold JSON arrays of the 512 coefficients of
 * the signature half, the public key and the hash-to-point polynomial.
 * JSON.parse and the circuit-input service are outside the model; their
 * results are inputs.
 */
module FalconSignature {
  import opened Wrappers
  import opened Json
  import opened ZkpInput

  /** Falcon-512's ring degree: every coefficient vector has this many entries. */
  const N: nat := 512

  /** 2^128 - 1, the initial value of both transaction-hash fields. */
  const DEFAULT_TX_HASH: string := "340282366920938463463374607431768211455"

  const S1_LENGTH_MESSAGE: string := "s1 must have 512 coefficients"
  const H_LENGTH_MESSAGE: string := "h must have 512 coefficients"
  const H2P_LENGTH_MESSAGE: string := "h2p must have 512 coefficients"
  const FALLBACK_MESSAGE: string := "Failed to generate circuit inputs"

  /** The TypeError message a V8-based browser gives for `null.length`. */
  const NULL_LENGTH_MESSAGE: string := "Cannot read properties of null (reading 'length')"

  /** `Array.isArray(v) && v.length === 512`. */
  predicate IsCoefficientArray(v: Json)
  {
    v.JArray? && |v.items| == N
  }

  /**
   * `v.length === 512` on a parsed value, with None when reading `length`
   * throws (v is null). Arrays and strings have a length; an object has one
   * only if it has a "length" member; booleans and numbers have none.
   */
  function HasLength512(v: Json): (r: Option<bool>)
    ensures r.None? <==> v.JNull?
    ensures IsCoefficientArray(v) ==> r == Some(true)
    ensures v.JArray? ==> r == Some(|v.items| == N)
  {
    match v
    case JNull => None
    case JArray(items) => Some(|items| == N)
    case JString(s) => Some(|s| == N)
    case JObject(fields) => Some("length" in fields && fields["length"] == JNumber(N))
    case _ => Some(false)
  }

  /** The three length checks of generateAndNavigate, in the order s1, h, h2p: the first failure's message. */
  function LengthFailure(s1: Json, h: Json, h2p: Json): (r: Option<string>)
    ensures r.None? <==> HasLength512(s1) == Some(true) && HasLength512(h) == Some(true) && HasLength512(h2p) == Some(true)
    ensures HasLength512(s1) == Some(false) ==> r == Some(S1_LENGTH_MESSAGE)
    ensures HasLength512(s1) == Some(true) && HasLength512(h) == Some(false) ==> r == Some(H_LENGTH_MESSAGE)
    ensures HasLength512(s1) == Some(true) && HasLength512(h) == Some(true) && HasLength512(h2p) == Some(false) ==>
      r == Some(H2P_LENGTH_MESSAGE)
  {
    match (HasLength512(s1), HasLength512(h), HasLength512(h2p))
    case (None, _, _) => Some(NULL_LENGTH_MESSAGE)
    case (Some(false), _, _) => Some(S1_LENGTH_MESSAGE)
    case (Some(true), None, _) => Some(NULL_LENGTH_MESSAGE)
    case (Some(true), Some(false), _) => Some(H_LENGTH_MESSAGE)
    case (Some(true), Some(true), None) => Some(NULL_LENGTH_MESSAGE)
    case (Some(true), Some(true), Some(false)) => Some(H2P_LENGTH_MESSAGE)
    case (Some(true), Some(true), Some(true)) => None
  }

  /**
   * The first error generateAndNavigate meets, if any: parsing s1, h, h2p,
   * then the length checks, then the circuit-input service.
   */
  function PrepareFailure(p1: Result<Json, string>, p2: Result<Json, string>, p3: Result<Json, string>,
                          service: Result<CircuitInput, string>): (r: Option<string>)
    ensures p1.Err? ==> r == Some(p1.error)
    ensures p1.Ok? && p2.Err? ==> r == Some(p2.error)
    ensures p1.Ok? && p2.Ok? && p3.Err? ==> r == Some(p3.error)
    ensures p1.Ok? && p2.Ok? && p3.Ok? ==>
      r == match LengthFailure(p1.value, p2.value, p3.value)
           case Some(m) => Some(m)
           case None => if service.Err? then Some(service.error) else None
    ensures r.None? <==> p1.Ok? && p2.Ok? && p3.Ok? && LengthFailure(p1.value, p2.value, p3.value).None? && service.Ok?
  {
    if p1.Err? then Some(p1.error)
    else if p2.Err? then Some(p2.error)
    else if p3.Err? then Some(p3.error)
    else match LengthFailure(p1.value, p2.value, p3.value)
      case Some(m) => Some(m)
      case None => if service.Err? then Some(service.error) else None
  }

  /** `err.message || 'Failed to generate circuit inputs'`. */
  function ErrorText(message: string): (r: string)
    ensures r != ""
    ensures message != "" ==> r == message
  {
    if message == "" then FALLBACK_MESSAGE else message
  }

  /**
   * `isFormValid` on the field values. jsonParse is JSON.parse, Err when it
   * throws; any parse failure makes the form invalid.
   */
  function FormValid(txHash1: string, txHash2: string, s1: string, h: string, h2p: string,
                     jsonParse: string -> Result<Json, string>): (r: bool)
    ensures txHash1 == "" || txHash2 == "" ==> !r
    ensures jsonParse(s1).Err? || jsonParse(h).Err? || jsonParse(h2p).Err? ==> !r
    ensures r <==> (txHash1 != "" && txHash2 != "" &&
                    jsonParse(s1).Ok? && jsonParse(h).Ok? && jsonParse(h2p).Ok? &&
                    IsCoefficientArray(jsonParse(s1).value) && IsCoefficientArray(jsonParse(h).value) &&
                    IsCoefficientArray(jsonParse(h2p).value))
  {
    if txHash1 == "" || txHash2 == "" then false
    else match (jsonParse(s1), jsonParse(h), jsonParse(h2p))
      case (Ok(a), Ok(b), Ok(c)) => IsCoefficientArray(a) && IsCoefficientArray(b) && IsCoefficientArray(c)
      case _ => false
  }

  /** When the form is valid, generateAndNavigate can fail only in the circuit-input service. */
  lemma ValidFormPassesValidation(txHash1: string, txHash2: string, s1: string, h: string, h2p: string,
                                  jsonParse: string -> Result<Json, string>, service: Result<CircuitInput, string>)
    requires FormValid(txHash1, txHash2, s1, h, h2p, jsonParse)
    ensures PrepareFailure(jsonParse(s1), jsonParse(h), jsonParse(h2p), service) ==
      if service.Err? then Some(service.error) else None
  {
  }

  /**
   * The converse fails: generateAndNavigate does not check Array.isArray, so
   * an object with a "length" member of 512 or a 512-character string passes
   * its length checks while the form reports it invalid.
   */
  lemma LengthChecksAcceptNonArrays(s: string)
    requires |s| == N
    ensures var obj := JObject(map["length" := JNumber(N)]);
      && LengthFailure(obj, JString(s), obj).None?
      && !IsCoefficientArray(obj) && !IsCoefficientArray(JString(s))
  {
  }

  /** The fields of the signature page that generateAndNavigate reads and writes. */
  class FalconSignatureComponent {
    var s1: string
    var h: string
    var h2p: string
    var inTxHash1: string
    var inTxHash2: string
    var loading: bool
    var error: Option<string>

    constructor ()
      ensures s1 == "" && h == "" && h2p == ""
      ensures inTxHash1 == DEFAULT_TX_HASH && inTxHash2 == DEFAULT_TX_HASH
      ensures !loading && error == None
    {
      s1, h, h2p := "", "", "";
      inTxHash1, inTxHash2 := DEFAULT_TX_HASH, DEFAULT_TX_HASH;
      loading, error := false, None;
    }

    /**
     * `generateAndNavigate`: parses and checks the three arrays, and only
     * then calls the circuit-input service (whose result is service).
     * Returns whether the service was called and the record stored for the
     * proof page, if any.
     */
    method GenerateAndNavigate(jsonParse: string -> Result<Json, string>, service: Result<CircuitInput, string>)
      returns (serviceCalled: bool, stored: Option<CircuitInput>)
      modifies this`loading, this`error
      ensures !loading
      ensures serviceCalled <==>
        jsonParse(s1).Ok? && jsonParse(h).Ok? && jsonParse(h2p).Ok? &&
        LengthFailure(jsonParse(s1).value, jsonParse(h).value, jsonParse(h2p).value).None?
      ensures var failure := PrepareFailure(jsonParse(s1), jsonParse(h), jsonParse(h2p), service);
        && (failure.None? ==> serviceCalled && stored == Some(service.value) && error == None)
        && (failure.Some? ==> stored == None && error == Some(ErrorText(failure.value)))
    {
      loading := true;
      error := None;
      serviceCalled, stored := false, None;
      var p1 := jsonParse(s1);
      if p1.Err? {
        error := Some(ErrorText(p1.error));
        loading := false;
        return;
      }
      var p2 := jsonParse(h);
      if p2.Err? {
        error := Some(ErrorText(p2.error));
        loading := false;
        return;
      }
      var p3 := jsonParse(h2p);
      if p3.Err? {
        error := Some(ErrorText(p3.error));
        loading := false;
        return;
      }
      var lengthFailure := LengthFailure(p1.value, p2.value, p3.value);
      if lengthFailure.Some? {
        error := Some(ErrorText(lengthFailure.value));
        loading := false;
        return;
      }
      serviceCalled := true;
      match service {
        case Err(m) =>
          error := Some(ErrorText(m));
        case Ok(input) =>
          stored := Some(input);
      }
      loading := false;
    }
  }
}
