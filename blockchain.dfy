/**
 * The wallet service: the calldata of the `isAuthorized(address)` call to
 * the authorization contract, the decoding of its result, the short form of
 * an address, and the connection state the service publishes.
 *
 * The calldata follows the Solidity Contract ABI Specification: a 4-byte
 * function selector ("Function Selector") followed by the argument, an
 * address encoded as uint160 in one 32-byte word, left-padded with zeros
 * ("Formal Specification of the Encoding"). Hex text is used throughout, so
 * the selector is 8 hex characters after "0x" and the word 64.
 */
module Blockchain {
  import opened Wrappers
  import opened JsText
  import opened JsParse

  /** First four bytes of keccak256("isAuthorized(address)"), as written in the service. */
  const IS_AUTHORIZED_SELECTOR: string := "0xfe9fbb80"
  const WORD_HEX_LEN: nat := 64
  const ADDRESS_HEX_LEN: nat := 40

  /** JavaScript truthiness of a `string | null` value. */
  predicate Truthy(s: Option<string>)
  {
    s.Some? && s.value != ""
  }

  /** `address.toLowerCase().replace("0x", "")`: only the first "0x" goes. */
  function CleanAddress(address: string): (r: string)
    ensures var lower := ToLower(address);
      match IndexOf(lower, "0x")
      case None => r == lower
      case Some(k) => r == lower[..k] + lower[k + 2..]
  {
    ReplaceFirst(ToLower(address), "0x", "")
  }

  /** The eth_call data: selector, then the cleaned address left-padded to one 64-hex-digit word. */
  function AuthorizationCalldata(address: string): (data: string)
    ensures var clean := CleanAddress(address);
      var bodyLen := if |clean| >= WORD_HEX_LEN then |clean| else WORD_HEX_LEN;
      && |data| == |IS_AUTHORIZED_SELECTOR| + bodyLen
      && data[..|IS_AUTHORIZED_SELECTOR|] == IS_AUTHORIZED_SELECTOR
      && data[|data| - |clean|..] == clean
      && AllZeros(data[|IS_AUTHORIZED_SELECTOR|..|data| - |clean|])
  {
    var clean := CleanAddress(address);
    var padded := PadStart(clean, WORD_HEX_LEN, '0');
    var data := IS_AUTHORIZED_SELECTOR + padded;
    assert data[|IS_AUTHORIZED_SELECTOR|..] == padded;
    assert data[|data| - |clean|..] == padded[|padded| - |clean|..];
    data
  }

  lemma LowerPrefixed(d: string)
    ensures ToLower("0x" + d) == "0x" + ToLower(d)
  {
  }

  /**
   * For a well-formed address ("0x" and 40 hex digits, either case) the
   * calldata is 74 characters: the selector, 24 zeros and the lower-cased
   * digits; the 64-digit word denotes the address as a number below 2^160.
   */
  lemma CalldataOfAddress(d: string)
    requires |d| == ADDRESS_HEX_LEN && AllDigitsOf(d, 16)
    ensures AuthorizationCalldata("0x" + d) == IS_AUTHORIZED_SELECTOR + Repeat('0', 24) + ToLower(d)
    ensures |AuthorizationCalldata("0x" + d)| == 74
    ensures var word := AuthorizationCalldata("0x" + d)[|IS_AUTHORIZED_SELECTOR|..];
      AllDigitsOf(word, 16) && DigitsValue(word, 16) == DigitsValue(d, 16) < Power(16, ADDRESS_HEX_LEN)
  {
    var zeros := Repeat('0', 24);
    CalldataText(d);
    AppendAssociative(IS_AUTHORIZED_SELECTOR, zeros, ToLower(d));
    var data := AuthorizationCalldata("0x" + d);
    assert data[|IS_AUTHORIZED_SELECTOR|..] == zeros + ToLower(d);
    DigitsValueLower(d, 16);
    DigitsValueLeadingZeros(zeros, ToLower(d), 16);
    DigitsValueBound(d, 16);
  }

  /** The calldata for "0x" + d is the selector followed by d lower-cased and padded by 24 zeros. */
  lemma CalldataText(d: string)
    requires |d| == ADDRESS_HEX_LEN
    ensures AuthorizationCalldata("0x" + d) == IS_AUTHORIZED_SELECTOR + (Repeat('0', 24) + ToLower(d))
  {
    var lower := ToLower("0x" + d);
    LowerPrefixed(d);
    assert OccursAt(lower, "0x", 0);
    assert IndexOf(lower, "0x") == Some(0);
    assert CleanAddress("0x" + d) == ToLower(d);
    assert PadStart(ToLower(d), WORD_HEX_LEN, '0') == Repeat('0', 24) + ToLower(d);
  }

  /** Only the first "0x" is removed: a second one stays in the cleaned text. */
  lemma CleanAddressFirstOnly()
    ensures CleanAddress("0x0xAB") == "0xab"
  {
    var lower := ToLower("0x0xAB");
    assert lower == "0x0xab";
    assert OccursAt(lower, "0x", 0);
    assert IndexOf(lower, "0x") == Some(0);
  }

  /**
   * The authorization flag from an eth_call result (None for null or
   * undefined). A falsy result or "0x" is false; otherwise the flag is
   * whether BigInt(result) is nonzero, and None when BigInt throws.
   */
  function DecodeAuthorized(result: Option<string>): (r: Option<bool>)
    ensures !Truthy(result) || result == Some("0x") ==> r == Some(false)
    ensures Truthy(result) && result != Some("0x") ==>
      (r.None? <==> StringToBigInt(result.value).None?) &&
      (r == Some(true) <==> StringToBigInt(result.value).Some? && StringToBigInt(result.value).value != 0)
  {
    if !Truthy(result) || result.value == "0x" then Some(false)
    else match StringToBigInt(result.value)
      case None => None
      case Some(v) => Some(v != 0)
  }

  /** A hex word "0x" + digits decodes to authorized exactly when some digit is not '0'. */
  lemma DecodeHexWord(ds: string)
    requires ds != [] && AllDigitsOf(ds, 16)
    ensures DecodeAuthorized(Some("0x" + ds)) == Some(!AllZeros(ds))
  {
    BigIntOfHex(ds);
    DigitsValueZero(ds, 16);
    assert "0x" + ds != "0x";
  }

  /** `formatAddress`: the first 6 characters, "...", and the last 4, with substring's clamping. */
  function FormatAddress(address: string): (r: string)
    ensures address == "" ==> r == ""
    ensures address != "" ==>
      r == address[..if |address| < 6 then |address| else 6] + "..." +
           address[if |address| < 4 then 0 else |address| - 4..]
    ensures |address| >= 10 ==>
      |r| == 13 && r[..6] == address[..6] && r[6..9] == "..." && r[9..] == address[|address| - 4..]
  {
    if address == "" then ""
    else Substring(address, 0, 6) + "..." + Substring(address, |address| - 4, |address|)
  }

  /** Outcome of `eth_call`: the result (None for null or undefined), or a thrown error. */
  datatype CallOutcome = Returned(result: Option<string>) | Threw

  /** Outcome of `eth_requestAccounts`: the account list, or a thrown error. */
  datatype AccountsOutcome = Accounts(list: seq<string>) | Denied

  /** The service's four subjects, as fields holding their current values. */
  class BlockchainService {
    var walletAddress: Option<string>
    var isAuthorized: Option<bool>
    var checkingAuth: bool
    var isConnecting: bool

    constructor ()
      ensures walletAddress == None && isAuthorized == None && !checkingAuth && !isConnecting
    {
      walletAddress, isAuthorized, checkingAuth, isConnecting := None, None, false, false;
    }

    /** Clears the address and the authorization flag. */
    method DisconnectWallet()
      modifies this
      ensures walletAddress == None && isAuthorized == None
      ensures checkingAuth == old(checkingAuth) && isConnecting == old(isConnecting)
    {
      walletAddress := None;
      isAuthorized := None;
    }

    /**
     * Asks the contract whether the connected address is authorized; rpc is
     * what eth_call gave back. Returns the calldata sent, if any.
     */
    method CheckAuthorization(rpc: CallOutcome) returns (calldata: Option<string>)
      modifies this
      ensures !Truthy(old(walletAddress)) ==> calldata == None && unchanged(this)
      ensures Truthy(old(walletAddress)) ==>
        && calldata == Some(AuthorizationCalldata(old(walletAddress).value))
        && isAuthorized == (match rpc case Threw => None case Returned(res) => DecodeAuthorized(res))
        && !checkingAuth
      ensures walletAddress == old(walletAddress) && isConnecting == old(isConnecting)
    {
      var address := walletAddress;
      if !Truthy(address) {
        return None;
      }
      checkingAuth := true;
      var data := AuthorizationCalldata(address.value);
      calldata := Some(data);
      match rpc {
        case Threw =>
          isAuthorized := None;
        case Returned(res) =>
          isAuthorized := DecodeAuthorized(res);
      }
      checkingAuth := false;
    }

    /**
     * Toggles the connection. When an address is set this only disconnects.
     * Otherwise hasProvider says whether a wallet is installed, accounts is
     * the answer to the account request and rpc the answer to the
     * authorization call that follows a successful connection.
     */
    method ConnectWallet(hasProvider: bool, accounts: AccountsOutcome, rpc: CallOutcome) returns (calldata: Option<string>)
      modifies this
      ensures Truthy(old(walletAddress)) ==>
        && walletAddress == None && isAuthorized == None && calldata == None
        && isConnecting == old(isConnecting) && checkingAuth == old(checkingAuth)
      ensures !Truthy(old(walletAddress)) ==> !isConnecting
      ensures !Truthy(old(walletAddress)) && hasProvider && accounts.Accounts? && |accounts.list| > 0 ==>
        && walletAddress == Some(accounts.list[0])
        && (!Truthy(walletAddress) ==> calldata == None && isAuthorized == old(isAuthorized) && checkingAuth == old(checkingAuth))
        && (Truthy(walletAddress) ==>
              && calldata == Some(AuthorizationCalldata(accounts.list[0]))
              && isAuthorized == (match rpc case Threw => None case Returned(res) => DecodeAuthorized(res))
              && !checkingAuth)
      ensures !Truthy(old(walletAddress)) && !(hasProvider && accounts.Accounts? && |accounts.list| > 0) ==>
        && calldata == None && walletAddress == old(walletAddress)
        && isAuthorized == old(isAuthorized) && checkingAuth == old(checkingAuth)
    {
      calldata := None;
      if Truthy(walletAddress) {
        DisconnectWallet();
        return;
      }
      isConnecting := true;
      if hasProvider {
        match accounts {
          case Denied =>
          case Accounts(list) =>
            if |list| > 0 {
              walletAddress := Some(list[0]);
              calldata := CheckAuthorization(rpc);
            }
        }
      }
      isConnecting := false;
    }
  }
}
