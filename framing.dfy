/**
 * The input of Falcon's HashToPoint as both pages build it: the 40-byte
 * nonce cut out of an encoded signature, followed by the message.
 *
 * In the Falcon signature encoding (section 3.11.3 of the Falcon
 * specification, v1.2) byte 0 is the header and bytes 1..40 are the salt r;
 * HashToPoint (section 3.7) hashes r || m.
 */
module Framing {
  import opened Bytes

  const NONCE_START: int := 1
  const NONCE_END: int := 41
  const NONCE_LEN: nat := 40

  /** Length of `signature.slice(1, 41)`. */
  function NonceLength(sigLen: nat): (n: nat)
    ensures n <= NONCE_LEN
    ensures sigLen >= NONCE_END ==> n == NONCE_LEN
    ensures sigLen <= NONCE_START ==> n == 0
    ensures NONCE_START <= sigLen <= NONCE_END ==> n == sigLen - NONCE_START
  {
    if sigLen >= NONCE_END then NONCE_LEN
    else if sigLen >= NONCE_START then sigLen - NONCE_START
    else 0
  }

  /**
   * `nonce = signature.slice(1, 41)`, then a zeroed buffer of
   * |nonce| + |message| bytes with nonce written at 0 and message right after.
   */
  method HashToPointInput(signature: seq<byte>, message: seq<byte>) returns (nonce: seq<byte>, framed: seq<byte>)
    ensures |nonce| == NonceLength(|signature|)
    ensures forall i :: 0 <= i < |nonce| ==> nonce[i] == signature[NONCE_START + i]
    ensures |framed| == |nonce| + |message|
    ensures framed[..|nonce|] == nonce && framed[|nonce|..] == message
    ensures framed == nonce + message
    ensures |signature| >= NONCE_END ==>
      nonce == signature[NONCE_START..NONCE_END] && framed == signature[NONCE_START..NONCE_END] + message
  {
    nonce := Slice(signature, NONCE_START, NONCE_END);
    var buf := new byte[|nonce| + |message|](_ => 0);
    Set(buf, nonce, 0);
    Set(buf, message, |nonce|);
    framed := buf[..];
    assert framed == framed[..|nonce|] + framed[|nonce|..];
  }
}
