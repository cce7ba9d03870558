# Falcon-512 ZKP demo: a Dafny model of its byte and string transforms

The Falcon-512 ZKP demo is an Angular app. It derives Falcon-512 keys from a
seed, signs messages, builds the input record of a Groth16 circuit and asks a
contract on Hyperliquid's testnet whether a wallet is authorized. The
arithmetic that turns coefficients into circuit inputs (NTT, modular inverse,
Poseidon) lives in a circuit-input service whose source is not part of this
model; key generation, signing and hash-to-point run in a WASM module. What
remains in the app's own code is a set of small transforms and state
updates. This project models those and proves what they promise:

- **Seed derivation** (`Seed`). `stringToSeed` turns seed text into the 48
  bytes Falcon key generation takes. A SHA-256 digest is cycled to 48 bytes.
  Without the Web Crypto API, a 32-bit string hash seeds a linear
  congruential generator. The JavaScript `<<`, `&` and `>>>` steps
  (`JsInt32`) are proved to equal exact arithmetic modulo 2^32.
- **Seed padding** (`PqcLock.PadSeed`): the lock page cuts or zero-pads the
  encoded seed to 48 bytes.
- **Hash-to-point framing** (`Framing`). Both pages take bytes 1..40 of the
  encoded signature as the nonce and feed nonce || message to HashToPoint.
  This is the Falcon signature layout: a header byte, then the 40-byte salt r
  (section 3.11.3 of the Falcon specification, v1.2). HashToPoint hashes
  r || m (section 3.7).
- **Input-shape validation** (`FalconSignature`): `isFormValid` and the length
  checks that run before the circuit-input service is called.
- **`isAuthorized(address)` calldata and result decoding** (`Blockchain`).
  The calldata follows the Solidity Contract ABI Specification: the 4-byte
  function selector, then the address as one zero-padded 32-byte word.
  `BigInt` of the result is modelled after StringToBigInt (section 7.1.14 of
  ECMA-262).
- **Address abbreviation** `formatAddress`, with `substring`'s clamping.
- **Wallet connect and disconnect state** of the blockchain service and of
  the root component. The service's BehaviorSubjects are plain fields.
- **`parseArrayInput`** (`ZkpInput`): trim, route bracketed input to
  JSON.parse, otherwise split on commas and apply `parseInt(s, 10)` (section
  19.2.5 of ECMA-262) to each trimmed piece.

Foreign code is never modelled. Its results, or the messages it throws, are
method parameters:

- the SHA-256 digest;
- UTF-8 bytes of free text;
- `JSON.parse`;
- key generation, signing and hash-to-point;
- the Poseidon hash and the circuit-input service;
- the prover;
- the wallet's RPC answers;
- `Date.now()`.

The JavaScript built-ins the code relies on are written out in `JsText`,
`JsParse`, `JsInt32` and `Bytes`. They cover trim, substring, split, padStart,
replace, toLowerCase, parseInt, BigInt, ToInt32/ToUint32, shifts, `&`,
TypedArray `slice` and `set`, and TextEncoder on ASCII text.

Errors are the strings the code throws, checked in the order the code
checks them.

## Model

| member | source | states |
|---|---|---|
| JsInt32.ToInt32 | src/app/components/falcon-signature/falcon-signature.ts:174-175 | ECMA-262 ToInt32: a signed 32-bit value congruent to x modulo 2^32 |
| JsInt32.ToUint32 | src/app/components/falcon-signature/falcon-signature.ts:179 | ECMA-262 ToUint32: an unsigned 32-bit value congruent to x modulo 2^32 |
| JsInt32.ShiftLeft | src/app/components/falcon-signature/falcon-signature.ts:174 | `x << n` always yields a signed 32-bit value |
| JsInt32.ShiftLeftFive | src/app/components/falcon-signature/falcon-signature.ts:174 | `h << 5` on a signed 32-bit h is 32 h wrapped to signed 32 bits |
| JsInt32.UnsignedShiftRightTop | src/app/components/falcon-signature/falcon-signature.ts:179 | `x >>> 24` is the unsigned reading of x divided by 2^24 |
| JsInt32.BitAnd | src/app/components/falcon-signature/falcon-signature.ts:175 | `x & y` always yields a signed 32-bit value |
| JsInt32.AndBitsSelf | src/app/components/falcon-signature/falcon-signature.ts:175 | a value ANDed with itself over n bits is its low n bits |
| JsInt32.LowBitsMod | src/app/components/falcon-signature/falcon-signature.ts:178-179 | collecting the low k bits of a one at a time gives a mod 2^k |
| JsInt32.AndBitsLowBits | src/app/components/falcon-signature/falcon-signature.ts:178-179 | ANDing with 2^k - 1 over n >= k bits collects exactly the low k bits of a |
| JsInt32.AndBitsLowMask | src/app/components/falcon-signature/falcon-signature.ts:178-179 | ANDing with 2^k - 1 keeps exactly the low k bits |
| JsInt32.BitAndSelf | src/app/components/falcon-signature/falcon-signature.ts:175 | `h & h` is ToInt32(h): the statement only wraps the accumulator |
| JsInt32.BitAndAllOnes | src/app/components/falcon-signature/falcon-signature.ts:178 | `x & 0xFFFFFFFF` is ToInt32(x), a signed value and not an unsigned one |
| JsInt32.BitAndByte | src/app/components/falcon-signature/falcon-signature.ts:179 | `& 0xFF` leaves a value already in 0..255 unchanged |
| Bytes.Slice | src/app/components/falcon-signature/falcon-signature.ts:84 | `slice(start, end)` has the clamped length and copies the elements between the clamped bounds |
| Bytes.Set | src/app/components/falcon-signature/falcon-signature.ts:88-90 | `target.set(source, offset)` writes source at offset and leaves every other element of target as it was |
| Bytes.EncodeAscii | src/app/components/pqc-lock/pqc-lock.ts:82-83 | TextEncoder on ASCII text gives one byte per character, equal to its code |
| Bytes.EncodeAsciiAppend | src/app/components/pqc-lock/pqc-lock.ts:82-83 | encoding a concatenation is the concatenation of the encodings |
| Seed.StringHash | src/app/components/falcon-signature/falcon-signature.ts:172-176 | the fallback accumulator is a signed 32-bit value after any input |
| Seed.StringHashIsPolyHashWrapped | src/app/components/falcon-signature/falcon-signature.ts:172-176 | wrapping at every step equals wrapping the exact polynomial hash (h = 31 h + b) once at the end |
| Seed.HashStep | src/app/components/falcon-signature/falcon-signature.ts:174-175 | one loop iteration (`(h << 5) - h + b`, then `h & h`) is one wrapped step of h = 31 h + b, with an intermediate below 2^53 |
| Seed.StringHashSnoc | src/app/components/falcon-signature/falcon-signature.ts:173-176 | hashing one more byte is one wrapped step h = 31 h + b from the hash of the bytes before it |
| Seed.HornerCongruent | src/app/components/falcon-signature/falcon-signature.ts:174-175 | one step h = 31 h + b gives the same wrapped result from h and from h reduced to signed 32 bits |
| Seed.HashNext | src/app/components/falcon-signature/falcon-signature.ts:174-175 | the body of the first fallback loop turns h into 31 h + b wrapped to signed 32 bits |
| Seed.HashBytes | src/app/components/falcon-signature/falcon-signature.ts:172-176 | the first fallback loop leaves the string hash of the input bytes |
| Seed.LcgNext | src/app/components/falcon-signature/falcon-signature.ts:178 | one generator step yields an unsigned 32-bit state |
| Seed.LcgState | src/app/components/falcon-signature/falcon-signature.ts:177-178 | after one or more steps the generator state is an unsigned 32-bit value |
| Seed.GeneratorCongruent | src/app/components/falcon-signature/falcon-signature.ts:178 | the generator step commutes with reduction modulo 2^32, so the signed accumulator is as good as the unsigned state |
| Seed.GeneratorStep | src/app/components/falcon-signature/falcon-signature.ts:178 | `(h * 1664525 + 1013904223) & 0xFFFFFFFF` stays below 2^53, so floating point is exact, and read as unsigned it is one step (1664525 u + 1013904223) mod 2^32 |
| Seed.TopByte | src/app/components/falcon-signature/falcon-signature.ts:179 | the seed byte is the top 8 bits: b * 2^24 <= u < (b + 1) * 2^24 |
| Seed.TopByteStep | src/app/components/falcon-signature/falcon-signature.ts:179 | `(h >>> 24) & 0xFF` is the top byte of h read as unsigned, in 0..255 |
| Seed.GeneratorNext | src/app/components/falcon-signature/falcon-signature.ts:178-179 | the body of the second loop leaves a signed accumulator whose unsigned reading is one generator step, and emits that state's top byte |
| Seed.GeneratorBytes | src/app/components/falcon-signature/falcon-signature.ts:177-181 | the second loop writes 48 bytes; byte i is the top byte of the generator state after i + 1 steps |
| Seed.FallbackSeed | src/app/components/falcon-signature/falcon-signature.ts:170-181 | the fallback seed has 48 bytes, byte i determined by the input's 32-bit hash alone |
| Seed.FallbackCollision | src/app/components/falcon-signature/falcon-signature.ts:171-181 | "Aa" and "BB" hash alike and so get the same 48-byte fallback seed |
| Seed.EmptyInputKnownAnswer | src/app/components/falcon-signature/falcon-signature.ts:171-181 | empty input runs the generator from 0; the first seed bytes are 60, 71, 209, 170 |
| Seed.ExpandDigest | src/app/components/falcon-signature/falcon-signature.ts:158-164 | the digest path yields 48 bytes with seed[i] = digest[i mod 32], so bytes 32..47 repeat digest bytes 0..15 |
| Seed.StringToSeed | src/app/components/falcon-signature/falcon-signature.ts:152-182 | exactly 48 bytes on both paths; the digest path cycles the digest, the fallback path is the hash-and-generator sequence |
| Framing.NonceLength | src/app/components/falcon-signature/falcon-signature.ts:84 | the nonce is 40 bytes when the signature has at least 41, |signature| - 1 bytes for a signature of 1 to 41 bytes, 0 for an empty one, and never longer than 40 |
| Framing.HashToPointInput | src/app/components/falcon-signature/falcon-signature.ts:84-90 | the nonce is signature bytes 1..40; the hash-to-point input is nonce followed by message, of length \|nonce\| + \|message\| |
| JsText.TrimStart | src/app/services/zkp.ts:83 | the result of dropping leading characters is a suffix of the input |
| JsText.TrimEnd | src/app/services/zkp.ts:83 | the result of dropping trailing characters is a prefix of the input |
| JsText.TrimStartSpec | src/app/services/zkp.ts:83 | TrimStart drops exactly the leading whitespace: everything dropped is whitespace, and the rest is empty or starts with a non-whitespace character |
| JsText.TrimEndSpec | src/app/services/zkp.ts:83 | TrimEnd drops exactly the trailing whitespace: everything dropped is whitespace, and the rest is empty or ends with a non-whitespace character |
| JsText.TrimSpec | src/app/services/zkp.ts:83 | `trim()` is a contiguous slice of the input with only whitespace before and after it, and it neither starts nor ends with whitespace |
| JsText.TrimStartPrefix | src/app/services/zkp.ts:83 | leading whitespace never affects TrimStart |
| JsText.TrimEndSuffix | src/app/services/zkp.ts:83 | trailing whitespace never affects TrimEnd |
| JsText.TrimStartAppend | src/app/services/zkp.ts:83 | once a non-whitespace character is reached, what follows is kept |
| JsText.TrimAbsorbsTrailing | src/app/services/zkp.ts:83 | whitespace appended to a text does not change its trim |
| JsText.BlankAppend | src/app/services/zkp.ts:83 | a text that trims at the start to nothing still does so after whitespace is appended |
| JsText.TrimAbsorbsWhitespace | src/app/services/zkp.ts:83 | whitespace added on either side does not change the trim |
| JsText.ClampIndex | src/app/services/blockchain.service.ts:145 | a substring bound is clamped into 0..len |
| JsText.Substring | src/app/services/blockchain.service.ts:145 | `substring(a, b)` has the distance between the clamped bounds as its length and copies the characters starting at the smaller clamped bound |
| JsText.LowerChar | src/app/services/blockchain.service.ts:116 | an ASCII capital maps to its small letter; any other character, digits included, is unchanged |
| JsText.FindFrom | src/app/services/blockchain.service.ts:116 | finds the first occurrence of a pattern at or after an index, or reports that none exists |
| JsText.IndexOf | src/app/services/blockchain.service.ts:116 | the first occurrence of the pattern, or None when there is none |
| JsText.Repeat | src/app/services/blockchain.service.ts:117 | n copies of one character |
| JsText.PadStart | src/app/services/blockchain.service.ts:117 | `padStart(n, c)` has length max(\|s\|, n), ends with s and is c before it; it never truncates |
| JsText.Split | src/app/services/zkp.ts:87 | `split` on a character always yields at least one piece |
| JsText.JoinSplit | src/app/services/zkp.ts:87 | joining the pieces of a split with the separator gives back the text |
| JsText.SplitCount | src/app/services/zkp.ts:87 | a split yields one more piece than there are separators, and no piece contains the separator |
| JsText.SplitJoin | src/app/services/zkp.ts:87 | splitting a join of separator-free pieces gives back the pieces |
| JsText.SplitNoSeparator | src/app/services/zkp.ts:87 | text without the separator splits into itself alone |
| JsText.SplitAfterPiece | src/app/services/zkp.ts:87 | a leading piece followed by the separator splits off as the first piece |
| JsParse.DigitValue | src/app/services/zkp.ts:87 | a digit's value is below 36 and is 0 exactly for '0' |
| JsParse.DigitPrefix | src/app/services/zkp.ts:87 | the longest prefix of digits: all digits, followed by a non-digit or the end |
| JsParse.NatDigits | src/app/components/pqc-lock/pqc-lock.ts:63 | `toString()` of a natural is a non-empty run of decimal digits |
| JsParse.NatDigitsValue | src/app/components/pqc-lock/pqc-lock.ts:63 | the decimal numeral of n denotes n |
| JsParse.DigitPrefixWhole | src/app/services/zkp.ts:87 | a run of digits followed by a non-digit is the whole digit prefix |
| JsParse.ParseInt10Digits | src/app/services/zkp.ts:87 | `parseInt(s, 10)` reads an optional sign and the longest run of decimal digits, ignoring what follows |
| JsParse.ParseInt10RoundTrip | src/app/services/zkp.ts:87 | parseInt of the decimal rendering of any integer gives the integer back |
| JsParse.ParseInt10NaN | src/app/services/zkp.ts:87 | text with no digit after the optional sign parses to NaN |
| JsParse.DigitsValueZero | src/app/services/blockchain.service.ts:132 | a numeral is 0 exactly when every digit is '0' |
| JsParse.DigitsValueLeadingZeros | src/app/services/blockchain.service.ts:117 | leading zeros do not change a numeral's value |
| JsParse.DigitsValueBound | src/app/services/blockchain.service.ts:117 | n digits of radix r denote a number below r^n |
| JsParse.DigitsValueLower | src/app/services/blockchain.service.ts:116 | lower-casing hex digits does not change their value |
| JsParse.TrimUnchanged | src/app/services/zkp.ts:83 | text with no whitespace at either end is its own trim |
| JsParse.BigIntOfHex | src/app/services/blockchain.service.ts:132 | `BigInt("0x" + digits)` is the value of the hex digits |
| Blockchain.CleanAddress | src/app/services/blockchain.service.ts:116 | the address is lower-cased and only the first "0x" is removed, wherever it occurs |
| Blockchain.CleanAddressFirstOnly | src/app/services/blockchain.service.ts:116 | a second "0x" survives: "0x0xAB" cleans to "0xab" |
| Blockchain.AuthorizationCalldata | src/app/services/blockchain.service.ts:115-118 | the calldata starts with "0xfe9fbb80", ends with the cleaned address and holds only zeros between; its body is at least 64 characters and the address is never truncated |
| Blockchain.LowerPrefixed | src/app/services/blockchain.service.ts:116 | lower-casing keeps a "0x" prefix |
| Blockchain.CalldataText | src/app/services/blockchain.service.ts:115-118 | for "0x" + 40 characters the calldata is the selector, 24 zeros and the lower-cased characters |
| Blockchain.CalldataOfAddress | src/app/services/blockchain.service.ts:115-118 | a "0x" + 40-hex-digit address gives 74 characters: selector, 24 zeros, lower-cased digits; the word denotes the address below 2^160 |
| Blockchain.DecodeAuthorized | src/app/services/blockchain.service.ts:129-137 | a falsy result or "0x" decodes to false; otherwise authorized iff BigInt(result) is nonzero, and null when BigInt throws |
| Blockchain.DecodeHexWord | src/app/services/blockchain.service.ts:129-133 | a "0x" hex word decodes to authorized exactly when some digit is not '0' |
| Blockchain.FormatAddress | src/app/services/blockchain.service.ts:143-146 | '' for ''; otherwise the first min(6, len) characters, "...", and the characters from max(0, len - 4); 13 characters with the address's own ends when len >= 10 |
| Blockchain.BlockchainService.constructor | src/app/services/blockchain.service.ts:17-26 | all four subjects start as null or false |
| Blockchain.BlockchainService.DisconnectWallet | src/app/services/blockchain.service.ts:101-105 | the address and the authorization become null; nothing else changes |
| Blockchain.BlockchainService.CheckAuthorization | src/app/services/blockchain.service.ts:107-141 | without an address nothing changes and nothing is sent; otherwise the calldata is sent, the flag is the decoded result (null on a thrown call) and checkingAuth ends false |
| Blockchain.BlockchainService.ConnectWallet | src/app/services/blockchain.service.ts:33-65 | with an address set it only disconnects; otherwise isConnecting ends false, the first account becomes the address and is checked, and without a provider or accounts the address and flag are unchanged |
| App.App.constructor | src/app/app.ts:14-15 | no wallet and not connecting at start |
| App.App.DisconnectWallet | src/app/app.ts:49-52 | the address becomes null |
| App.App.ConnectWallet | src/app/app.ts:17-47 | with an address set it only disconnects and leaves isWalletConnecting alone; otherwise isWalletConnecting ends false on every path and a non-empty account list sets the address to its first entry |
| App.FormatAddressShape | src/app/app.ts:54-57 | the header's abbreviation is at most 13 characters, exactly 13 iff the address has at least 6, and a shorter address appears whole before the dots |
| ZkpInput.CommaList | src/app/services/zkp.ts:87 | one element per comma-separated piece (commas + 1), in order, each the parseInt of the trimmed piece |
| ZkpInput.ParseArrayInput | src/app/services/zkp.ts:81-91 | bracketed trimmed input goes to JSON.parse and fails with "Invalid array format" exactly when that throws; any other input takes the comma branch, which never fails |
| ZkpInput.ParseArrayIgnoresSurroundingWhitespace | src/app/services/zkp.ts:83 | whitespace around the input never changes the result |
| ZkpInput.DecimalStringShape | src/app/services/zkp.ts:84-87 | a decimal numeral is non-empty, has no whitespace at either end, holds no comma and does not start with '[' |
| ZkpInput.JoinFirstLast | src/app/services/zkp.ts:84 | a join of non-empty pieces starts with the first piece's first character and ends with the last piece's last character |
| ZkpInput.DecimalPieces | src/app/services/zkp.ts:87 | each numeral of the list is its own trim, comma-free, and parses back to its integer |
| ZkpInput.DecimalTextPlain | src/app/services/zkp.ts:83-84 | comma-joined decimal numerals are their own trim and are not bracketed, so they take the comma branch |
| ZkpInput.CommaListOfDecimals | src/app/services/zkp.ts:87 | the comma branch applied to joined numerals yields exactly the integers, none NaN |
| ZkpInput.ParseArrayCommaRoundTrip | src/app/services/zkp.ts:81-91 | parseArrayInput of comma-joined decimal numerals returns the integers themselves |
| FalconSignature.HasLength512 | src/app/components/falcon-signature/falcon-signature.ts:204-206 | `v.length !== 512` on a parsed value: throws only for null; an array passes exactly when it has 512 elements |
| FalconSignature.LengthFailure | src/app/components/falcon-signature/falcon-signature.ts:204-206 | the checks run in the order s1, h, h2p and report the first failing one's message; none fails iff all three have length 512 |
| FalconSignature.PrepareFailure | src/app/components/falcon-signature/falcon-signature.ts:198-214 | parse errors of s1, h, h2p come first in that order, then the length checks, and only then the circuit-input service; there is no error exactly when all three parse, all three length checks pass and the service succeeds |
| FalconSignature.ErrorText | src/app/components/falcon-signature/falcon-signature.ts:221 | the shown error is never empty: the thrown message, or "Failed to generate circuit inputs" when it is empty |
| FalconSignature.FormValid | src/app/components/falcon-signature/falcon-signature.ts:227-239 | true iff both tx-hash strings are non-empty and s1, h and h2p each parse to an array of exactly 512 elements; any parse failure gives false |
| FalconSignature.ValidFormPassesValidation | src/app/components/falcon-signature/falcon-signature.ts:198-208 | when the form is valid, generateAndNavigate can fail only in the circuit-input service |
| FalconSignature.LengthChecksAcceptNonArrays | src/app/components/falcon-signature/falcon-signature.ts:204-206 | the converse fails: an object with length 512, or a 512-character string, passes the length checks but not isFormValid |
| FalconSignature.FalconSignatureComponent.constructor | src/app/components/falcon-signature/falcon-signature.ts:32-40 | s1, h and h2p start as the empty string, both tx hashes as 2^128 - 1, not loading, no error |
| FalconSignature.FalconSignatureComponent.GenerateAndNavigate | src/app/components/falcon-signature/falcon-signature.ts:193-225 | the service is called iff parsing and the length checks pass; its record is stored only on full success; otherwise the first failure's message is the error; loading ends false |
| PqcLock.PadSeed | src/app/components/pqc-lock/pqc-lock.ts:50-52 | always 48 bytes: byte i is seedBytes[i] for i < min(48, \|seedBytes\|) and 0 otherwise; longer seeds are truncated, shorter ones zero-padded |
| PqcLock.DigitsAreAscii | src/app/components/pqc-lock/pqc-lock.ts:82 | decimal digits are ASCII |
| PqcLock.UnlockMessage | src/app/components/pqc-lock/pqc-lock.ts:82 | the unlock request is ASCII text starting with "UNLOCK_REQUEST_", followed by at least one character |
| PqcLock.UnlockMessageClock | src/app/components/pqc-lock/pqc-lock.ts:82 | the clock reading can be read back from the request with parseInt |
| PqcLock.PqcLockComponent.constructor | src/app/components/pqc-lock/pqc-lock.ts:16-29 | every field starts at its initial value and loading is false |
| PqcLock.PqcLockComponent.GenerateKey | src/app/components/pqc-lock/pqc-lock.ts:37-71 | an empty seed sets only the error 'Please enter a seed first.'; otherwise the 48-byte padded seed goes to key generation, keys are stored before the hash is taken, failures set 'Key generation failed: ' + message, and loading ends false |
| PqcLock.PqcLockComponent.Unlock | src/app/components/pqc-lock/pqc-lock.ts:73-126 | without both keys nothing changes; otherwise hash-to-point gets signature bytes 1..40 followed by the encoded request, success stores the proof and sets isUnlocked, failures set 'Unlock failed: ' + message, and loading ends false |
| PqcLock.PqcLockComponent.SignAndProve | src/app/components/pqc-lock/pqc-lock.ts:81-124 | the try block after the status update: a signing failure or a prover failure sets 'Unlock failed: ' + message and leaves status, proof and isUnlocked as they were; hash-to-point receives signature bytes 1..40 followed by the message; success stores the proof, sets isUnlocked and the success status; loading ends false |
| PqcLock.PqcLockComponent.Reset | src/app/components/pqc-lock/pqc-lock.ts:128-140 | every field except loading returns to its initial value; loading is outside the method's frame, so it is untouched |
| PqcLock.PqcLockComponent.ToggleRevealPrivateKey | src/app/components/pqc-lock/pqc-lock.ts:166-168 | the reveal flag is negated and nothing else changes |
| PqcLock.ToggleRevealTwice | src/app/components/pqc-lock/pqc-lock.ts:166-168 | toggling twice leaves the component exactly as it was |

## Left out

- The circuit-input service (NTT, modular inverse, Poseidon, `generateCircuitInputs`, `computePoseidonHash`) is not part of this model. Its outcome and the record it builds are inputs.
- Falcon key generation, signing, coefficient extraction and hash-to-point run in the WASM module. They are foreign code, so their results are inputs.
- `generateProof` and `verifyProof` call snarkjs and `fetch`. The prover's outcome is an input to `Unlock`.
- `crypto.subtle.digest` is foreign: the SHA-256 digest is an input, and None stands for "missing or threw".
- TextEncoder on free text (the seed) is foreign: its UTF-8 bytes are an input. Only the ASCII unlock request is encoded in the model.
- JSON.parse and JSON.stringify are foreign: parsing is a function parameter, and stringified arrays are not modelled.
- `toBase64` (`btoa`) is foreign: the base64 strings arrive with the key pair.
- `randomizeSeed` uses Math.random and Date.now. It is nondeterministic and is not modelled.
- `waitForReady` and `ngOnInit` are asynchronous start-up plumbing and are not modelled.
- `switchNetwork`, alerts, console output, sessionStorage and navigation are I/O and are not modelled. GenerateAndNavigate returns the record it would store.
- `generateSignature` is glue between foreign calls. Its two modelled parts, `stringToSeed` and the nonce framing, are `Seed.StringToSeed` and `Framing.HashToPointInput`.
- `copyToClipboard` and `loadExampleInput` are clipboard and network I/O and are not modelled.
- Each async method (PqcLock.PqcLockComponent.GenerateKey, PqcLock.PqcLockComponent.Unlock, FalconSignature.FalconSignatureComponent.GenerateAndNavigate, Blockchain.BlockchainService.CheckAuthorization, Blockchain.BlockchainService.ConnectWallet, App.App.ConnectWallet) is modelled as running to completion, with no other handler interleaving at its awaits. In the source, `reset()` can run while `unlock()` awaits the circuit-input service or the prover, and `unlock()` then still stores the proof, sets isUnlocked and the success status on the reset component; the model does not capture such interleavings.
- Blockchain.BlockchainService.ConnectWallet: `checkAuthorization` is not awaited in the source, so its RPC can finish after `isConnecting` is reset. The model runs it to completion inside the call.
- Blockchain.IS_AUTHORIZED_SELECTOR is a constant, as in the source. Its derivation from keccak-256 is not modelled.
- JsText.LowerChar: `toLowerCase` is modelled for ASCII letters only. Non-ASCII characters are left unchanged, which is exact for hex addresses.
- JsParse.ParseInt10 returns an exact integer. JavaScript rounds results above 2^53 to a double and yields -0 for "-0"; floating point is not modelled.
- Json.JNumber holds integers only, so JSON numbers with fractions or exponents are not modelled.
- String lengths and indices count code points, while JavaScript counts UTF-16 code units. The two agree on ASCII text, which is what the addresses, numerals and unlock request are. FalconSignature.HasLength512 on a parsed JSON string counts code points, so a 512-character string holding a character outside the Basic Multilingual Plane is judged differently from `length`.
- FalconSignature.HasLength512: reading `length` of JSON null throws a TypeError. The model uses V8's message for it, where other engines word it differently.
