/**
 * The PQC lock page: a seed is turned into a Falcon-512 key pair whose
 * public-key hash serves as the lock's identifier, and the lock is opened by
 * signing an unlock request and proving knowledge of the signature.
 *
 * Key generation, signing, hash-to-point, the Poseidon hash and the proof
 * are foreign code; their results (or the messages they throw) are inputs.
 */
module PqcLock {
  import opened Wrappers
  import opened Bytes
  import opened Json
  import opened JsParse
  import Framing
  import opened Seed

  const EMPTY_SEED_MESSAGE: string := "Please enter a seed first."
  const KEYGEN_STATUS: string := "Generating keys from seed..."
  const KEYGEN_DONE_STATUS: string := "Keys generated successfully!"
  const KEYGEN_ERROR_PREFIX: string := "Key generation failed: "
  const UNLOCK_STATUS: string := "Signing unlock request and generating proof (this takes ~10s)..."
  const UNLOCK_DONE_STATUS: string := "\U{1F513} Unlocked successfully! Zero-Knowledge Proof generated."
  const UNLOCK_ERROR_PREFIX: string := "Unlock failed: "
  const UNLOCK_PREFIX: string := "UNLOCK_REQUEST_"

  /** The fixed transaction hashes that unlock hands to the circuit-input service. */
  const MOCK_TX_HASH1: string := "12345678901234567890"
  const MOCK_TX_HASH2: string := "98765432109876543210"

  /** seed48 is seedBytes cut or zero-padded to exactly SEED_LEN bytes. */
  predicate PadsTo(seedBytes: seq<byte>, seed48: seq<byte>)
  {
    && |seed48| == SEED_LEN
    && forall i :: 0 <= i < SEED_LEN ==> seed48[i] == if i < |seedBytes| then seedBytes[i] else 0
  }

  /** A fresh 48-byte buffer with `seedBytes.slice(0, 48)` written at its start. */
  method PadSeed(seedBytes: seq<byte>) returns (seed48: seq<byte>)
    ensures PadsTo(seedBytes, seed48)
    ensures |seedBytes| >= SEED_LEN ==> seed48 == seedBytes[..SEED_LEN]
    ensures |seedBytes| < SEED_LEN ==> seed48 == seedBytes + Zeros(SEED_LEN - |seedBytes|)
  {
    var buf := new byte[SEED_LEN](_ => 0);
    var head := Slice(seedBytes, 0, SEED_LEN);
    Set(buf, head, 0);
    seed48 := buf[..];
  }

  /** Decimal digits are ASCII. */
  lemma DigitsAreAscii(ds: string)
    requires AllDigitsOf(ds, 10)
    ensures IsAscii(ds)
  {
    forall i | 0 <= i < |ds| ensures ds[i] as int < 0x80 {
      assert IsDigitOf(ds[i], 10);
    }
  }

  /** The request that unlock signs: the prefix followed by the decimal millisecond clock. */
  function UnlockMessage(now: nat): (r: string)
    ensures IsAscii(r)
    ensures |r| > |UNLOCK_PREFIX| && r[..|UNLOCK_PREFIX|] == UNLOCK_PREFIX
  {
    var digits := NatDigits(now);
    DigitsAreAscii(digits);
    assert IsAscii(UNLOCK_PREFIX);
    EncodeAsciiAppend(UNLOCK_PREFIX, digits);
    UNLOCK_PREFIX + digits
  }

  /** The clock reading can be recovered from the message with parseInt. */
  lemma UnlockMessageClock(now: nat)
    ensures ParseInt10(UnlockMessage(now)[|UNLOCK_PREFIX|..]) == Some(now)
  {
    assert UnlockMessage(now)[|UNLOCK_PREFIX|..] == NatDigits(now);
    ParseInt10RoundTrip(now);
    assert DecimalString(now) == NatDigits(now);
  }

  /** What `createKeypairFromSeed` gives back; the base64 strings are `toBase64` of the keys. */
  datatype KeyPair = KeyPair(privateKey: seq<byte>, publicKey: seq<byte>,
                             privateKeyBase64: string, publicKeyBase64: string)

  class PqcLockComponent {
    var seed: string
    var privateKey: Option<seq<byte>>
    var publicKey: Option<seq<byte>>
    var publicKeyBase64: string
    var privateKeyBase64: string
    var lockId: string
    var isPrivateKeyRevealed: bool
    var isUnlocked: bool
    var proof: Option<Json>
    var loading: bool
    var error: Option<string>
    var statusMessage: string

    /** Every field except loading holds its initial value. */
    predicate IsInitial()
      reads this
    {
      && seed == "" && privateKey == None && publicKey == None
      && publicKeyBase64 == "" && privateKeyBase64 == "" && lockId == ""
      && !isPrivateKeyRevealed && !isUnlocked && proof == None
      && error == None && statusMessage == ""
    }

    constructor ()
      ensures IsInitial() && !loading
    {
      seed, privateKey, publicKey := "", None, None;
      publicKeyBase64, privateKeyBase64, lockId := "", "", "";
      isPrivateKeyRevealed, isUnlocked, proof := false, false, None;
      loading, error, statusMessage := false, None, "";
    }

    /**
     * `generateKey`. seedBytes is the UTF-8 encoding of seed, keypair the
     * outcome of key generation and lockHash that of the Poseidon hash of
     * the public key. Returns the 48-byte seed handed to key generation.
     */
    method GenerateKey(seedBytes: seq<byte>, keypair: Result<KeyPair, string>, lockHash: Result<nat, string>)
      returns (seed48: Option<seq<byte>>)
      modifies this`privateKey, this`publicKey, this`privateKeyBase64, this`publicKeyBase64
      modifies this`lockId, this`loading, this`error, this`statusMessage
      ensures old(seed) == "" ==>
        && seed48 == None && error == Some(EMPTY_SEED_MESSAGE)
        && privateKey == old(privateKey) && publicKey == old(publicKey)
        && privateKeyBase64 == old(privateKeyBase64) && publicKeyBase64 == old(publicKeyBase64)
        && lockId == old(lockId) && loading == old(loading) && statusMessage == old(statusMessage)
      ensures old(seed) != "" ==> !loading && seed48.Some? && PadsTo(seedBytes, seed48.value)
      ensures old(seed) != "" && keypair.Err? ==>
        && error == Some(KEYGEN_ERROR_PREFIX + keypair.error) && statusMessage == KEYGEN_STATUS
        && privateKey == old(privateKey) && publicKey == old(publicKey)
        && privateKeyBase64 == old(privateKeyBase64) && publicKeyBase64 == old(publicKeyBase64)
        && lockId == old(lockId)
      ensures old(seed) != "" && keypair.Ok? ==>
        && privateKey == Some(keypair.value.privateKey) && publicKey == Some(keypair.value.publicKey)
        && privateKeyBase64 == keypair.value.privateKeyBase64 && publicKeyBase64 == keypair.value.publicKeyBase64
        && (lockHash.Err? ==>
              error == Some(KEYGEN_ERROR_PREFIX + lockHash.error) && statusMessage == KEYGEN_STATUS && lockId == old(lockId))
        && (lockHash.Ok? ==>
              error == None && statusMessage == KEYGEN_DONE_STATUS && lockId == NatDigits(lockHash.value))
    {
      if seed == "" {
        error := Some(EMPTY_SEED_MESSAGE);
        return None;
      }
      loading := true;
      error := None;
      statusMessage := KEYGEN_STATUS;
      var padded := PadSeed(seedBytes);
      seed48 := Some(padded);
      match keypair {
        case Err(m) =>
          error := Some(KEYGEN_ERROR_PREFIX + m);
          loading := false;
        case Ok(kp) =>
          privateKey := Some(kp.privateKey);
          publicKey := Some(kp.publicKey);
          publicKeyBase64 := kp.publicKeyBase64;
          privateKeyBase64 := kp.privateKeyBase64;
          match lockHash {
            case Err(m) =>
              error := Some(KEYGEN_ERROR_PREFIX + m);
              loading := false;
            case Ok(hash) =>
              lockId := NatDigits(hash);
              statusMessage := KEYGEN_DONE_STATUS;
              loading := false;
          }
      }
    }

    /**
     * `unlock`. now is Date.now(); signed is the encoded signature of the
     * unlock message (or the message thrown while signing and reading the
     * coefficients); proved is the proof (or the message thrown by
     * hash-to-point, the circuit-input service or the prover). Returns the
     * bytes handed to hash-to-point, if it is reached.
     */
    method Unlock(now: nat, signed: Result<seq<byte>, string>, proved: Result<Json, string>)
      returns (hashInput: Option<seq<byte>>)
      modifies this`loading, this`error, this`statusMessage, this`proof, this`isUnlocked
      ensures old(privateKey).None? || old(publicKey).None? ==> hashInput == None && unchanged(this)
      ensures old(privateKey).Some? && old(publicKey).Some? ==>
        && !loading
        && (signed.Err? ==>
              && hashInput == None && error == Some(UNLOCK_ERROR_PREFIX + signed.error)
              && statusMessage == UNLOCK_STATUS && proof == old(proof) && isUnlocked == old(isUnlocked))
        && (signed.Ok? ==>
              && hashInput == Some(Slice(signed.value, Framing.NONCE_START, Framing.NONCE_END) + EncodeAscii(UnlockMessage(now)))
              && (proved.Err? ==>
                    error == Some(UNLOCK_ERROR_PREFIX + proved.error) && statusMessage == UNLOCK_STATUS
                    && proof == old(proof) && isUnlocked == old(isUnlocked))
              && (proved.Ok? ==>
                    error == None && statusMessage == UNLOCK_DONE_STATUS && proof == Some(proved.value) && isUnlocked))
    {
      if privateKey.None? || publicKey.None? {
        return None;
      }
      loading := true;
      error := None;
      statusMessage := UNLOCK_STATUS;
      hashInput := SignAndProve(EncodeAscii(UnlockMessage(now)), signed, proved);
    }

    /**
     * The `try` block of unlock once the request message is encoded: frame
     * the signature's nonce with the message for hash-to-point, then record
     * the proof, or the message of whichever step threw.
     */
    method SignAndProve(message: seq<byte>, signed: Result<seq<byte>, string>, proved: Result<Json, string>)
      returns (hashInput: Option<seq<byte>>)
      modifies this`loading, this`error, this`statusMessage, this`proof, this`isUnlocked
      ensures !loading
      ensures signed.Err? ==>
        && hashInput == None && error == Some(UNLOCK_ERROR_PREFIX + signed.error)
        && statusMessage == old(statusMessage) && proof == old(proof) && isUnlocked == old(isUnlocked)
      ensures signed.Ok? ==>
        hashInput == Some(Slice(signed.value, Framing.NONCE_START, Framing.NONCE_END) + message)
      ensures signed.Ok? && proved.Err? ==>
        && error == Some(UNLOCK_ERROR_PREFIX + proved.error) && statusMessage == old(statusMessage)
        && proof == old(proof) && isUnlocked == old(isUnlocked)
      ensures signed.Ok? && proved.Ok? ==>
        error == old(error) && statusMessage == UNLOCK_DONE_STATUS && proof == Some(proved.value) && isUnlocked
    {
      match signed {
        case Err(m) =>
          hashInput := None;
          error := Some(UNLOCK_ERROR_PREFIX + m);
          loading := false;
        case Ok(signature) =>
          var nonce, framed := Framing.HashToPointInput(signature, message);
          assert nonce == Slice(signature, Framing.NONCE_START, Framing.NONCE_END);
          hashInput := Some(framed);
          match proved {
            case Err(m) =>
              error := Some(UNLOCK_ERROR_PREFIX + m);
              loading := false;
            case Ok(p) =>
              proof := Some(p);
              isUnlocked := true;
              statusMessage := UNLOCK_DONE_STATUS;
              loading := false;
          }
      }
    }

    /** `reset`: back to the initial state, except that loading is left as it is. */
    method Reset()
      modifies this`seed, this`privateKey, this`publicKey, this`publicKeyBase64, this`privateKeyBase64
      modifies this`lockId, this`isPrivateKeyRevealed, this`isUnlocked, this`proof, this`error, this`statusMessage
      ensures IsInitial()
    {
      seed, privateKey, publicKey := "", None, None;
      publicKeyBase64, privateKeyBase64, lockId := "", "", "";
      isPrivateKeyRevealed, isUnlocked, proof := false, false, None;
      error, statusMessage := None, "";
    }

    /** `toggleRevealPrivateKey`: flips whether the private key is shown. */
    method ToggleRevealPrivateKey()
      modifies this`isPrivateKeyRevealed
      ensures isPrivateKeyRevealed == !old(isPrivateKeyRevealed)
    {
      isPrivateKeyRevealed := !isPrivateKeyRevealed;
    }
  }

  /** Toggling twice restores the flag and changes nothing else. */
  method ToggleRevealTwice(c: PqcLockComponent)
    modifies c
    ensures unchanged(c)
  {
    c.ToggleRevealPrivateKey();
    c.ToggleRevealPrivateKey();
  }
}
