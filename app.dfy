/**
 * The root component: a wallet button in the header that connects or
 * disconnects, and the abbreviated address it shows (the same
 * `formatAddress` expression as the blockchain service, modelled there).
 */
module App {
  import opened Wrappers
  import opened Blockchain

  const TITLE: string := "Falcon-512 ZKP Demo"

  class App {
    var walletAddress: Option<string>
    var isWalletConnecting: bool

    constructor ()
      ensures walletAddress == None && !isWalletConnecting
    {
      walletAddress, isWalletConnecting := None, false;
    }

    /** `disconnectWallet`: forgets the address. */
    method DisconnectWallet()
      modifies this`walletAddress
      ensures walletAddress == None
    {
      walletAddress := None;
    }

    /**
     * `connectWallet`. With an address set it only disconnects. Otherwise
     * hasProvider says whether a wallet is installed and accounts is the
     * answer to the account request; the first account becomes the address.
     */
    method ConnectWallet(hasProvider: bool, accounts: AccountsOutcome)
      modifies this
      ensures Truthy(old(walletAddress)) ==> walletAddress == None && isWalletConnecting == old(isWalletConnecting)
      ensures !Truthy(old(walletAddress)) ==> !isWalletConnecting
      ensures !Truthy(old(walletAddress)) ==>
        walletAddress == if hasProvider && accounts.Accounts? && |accounts.list| > 0
                         then Some(accounts.list[0]) else old(walletAddress)
    {
      if Truthy(walletAddress) {
        DisconnectWallet();
        return;
      }
      isWalletConnecting := true;
      if hasProvider {
        match accounts {
          case Denied =>
          case Accounts(list) =>
            if |list| > 0 {
              walletAddress := Some(list[0]);
            }
        }
      }
      isWalletConnecting := false;
    }
  }

  /**
   * The header's abbreviation: never longer than 13 characters, exactly 13
   * once the address has at least 6, and for shorter addresses the whole
   * address comes before the dots.
   */
  lemma FormatAddressShape(address: string)
    ensures |FormatAddress(address)| <= 13
    ensures address != "" ==> (|FormatAddress(address)| == 13 <==> |address| >= 6)
    ensures 0 < |address| < 6 ==> FormatAddress(address)[..|address| + 3] == address + "..."
  {
    if address != "" {
      var r := FormatAddress(address);
      var p := if |address| < 6 then |address| else 6;
      assert r[..p + 3] == address[..p] + "...";
    }
  }
}
