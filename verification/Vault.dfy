// Provider secrets at rest: packages/config/provider_vault.py, and the two codecs of
// packages/config/provider_connections.py that sit on it.
module Vault {
  import opened Wrappers
  import opened Text
  import opened Utf8

  const VERSION: Byte := 1
  const NONCE_BYTES := 16
  const BLOCK_BYTES := 32
  const MAX_BLOCKS := 0x1_0000_0000

  datatype VaultError = CounterOverflow | InvalidBlob | NotUtf8 | ApiKeyRequired

  /** SHA-256 is any function whose digests have 32 bytes. */
  ghost predicate Wide(hash: seq<Byte> -> seq<Byte>) {
    forall b :: |hash(b)| == BLOCK_BYTES
  }

  // ---- The keystream ------------------------------------------------------

  /** `int.to_bytes(4, "big")`. */
  function CounterBytes(n: nat): seq<Byte>
    requires n < MAX_BLOCKS
  {
    [n / 0x100_0000, n / 0x1_0000 % 0x100, n / 0x100 % 0x100, n % 0x100]
  }

  /** Byte `i` of the stream a key and a nonce give. */
  function StreamByte(hash: seq<Byte> -> seq<Byte>, key: seq<Byte>, nonce: seq<Byte>, i: nat): Byte
    requires Wide(hash) && i < MAX_BLOCKS * BLOCK_BYTES
  {
    hash(key + nonce + CounterBytes(i / BLOCK_BYTES))[i % BLOCK_BYTES]
  }

  function Stream(hash: seq<Byte> -> seq<Byte>, key: seq<Byte>, nonce: seq<Byte>, length: nat): seq<Byte>
    requires Wide(hash) && length <= MAX_BLOCKS * BLOCK_BYTES
  {
    seq(length, i requires 0 <= i < length => StreamByte(hash, key, nonce, i))
  }

  /** The loop yields exactly the first `length` bytes of the stream; it fails exactly when the block
      counter would need a fifth byte. */
  method Keystream(hash: seq<Byte> -> seq<Byte>, key: seq<Byte>, nonce: seq<Byte>, length: nat)
    returns (r: Result<seq<Byte>, VaultError>)
    requires Wide(hash)
    ensures r.Ok? <==> length <= MAX_BLOCKS * BLOCK_BYTES
    ensures r.Ok? ==> r.value == Stream(hash, key, nonce, length)
    ensures r.Err? ==> r.error == CounterOverflow
  {
    var out: seq<Byte> := [];
    var counter: nat := 0;
    while |out| < length
      invariant counter <= MAX_BLOCKS && |out| == counter * BLOCK_BYTES
      invariant forall i :: 0 <= i < |out| ==> out[i] == StreamByte(hash, key, nonce, i)
    {
      if counter == MAX_BLOCKS {
        return Err(CounterOverflow);
      }
      var block := hash(key + nonce + CounterBytes(counter));
      out := out + block;
      counter := counter + 1;
    }
    r := Ok(out[..length]);
  }

  /** A shorter stream is a prefix of a longer one. */
  lemma StreamIsPrefixStable(hash: seq<Byte> -> seq<Byte>, key: seq<Byte>, nonce: seq<Byte>, m: nat, n: nat)
    requires Wide(hash) && m <= n <= MAX_BLOCKS * BLOCK_BYTES
    ensures Stream(hash, key, nonce, n)[..m] == Stream(hash, key, nonce, m)
  {
  }

  // ---- Encryption ---------------------------------------------------------

  /** Exclusive or of two numbers below 2^bits, digit by digit. */
  function XorBits(a: nat, b: nat, bits: nat): nat {
    if bits == 0 then 0 else (a % 2 + b % 2) % 2 + 2 * XorBits(a / 2, b / 2, bits - 1)
  }

  function Pow2(n: nat): nat {
    if n == 0 then 1 else 2 * Pow2(n - 1)
  }

  lemma {:induction false} XorBitsFit(a: nat, b: nat, bits: nat)
    ensures XorBits(a, b, bits) < Pow2(bits)
  {
    if bits > 0 {
      XorBitsFit(a / 2, b / 2, bits - 1);
    }
  }

  lemma {:induction false} XorBitsTwice(a: nat, b: nat, bits: nat)
    requires a < Pow2(bits)
    ensures XorBits(XorBits(a, b, bits), b, bits) == a
  {
    if bits > 0 {
      XorBitsTwice(a / 2, b / 2, bits - 1);
      var digit, rest := (a % 2 + b % 2) % 2, XorBits(a / 2, b / 2, bits - 1);
      LowDigit(digit, rest);
      DigitTwice(a, b);
    }
  }

  lemma LowDigit(digit: nat, rest: nat)
    requires digit < 2
    ensures (digit + 2 * rest) % 2 == digit && (digit + 2 * rest) / 2 == rest
  {
  }

  lemma DigitTwice(a: nat, b: nat)
    ensures ((a % 2 + b % 2) % 2 + b % 2) % 2 == a % 2
  {
  }

  lemma Pow2Of8()
    ensures Pow2(8) == 256
  {
    assert Pow2(4) == 16;
  }

  function Xor(a: Byte, b: Byte): Byte {
    XorBitsFit(a, b, 8);
    Pow2Of8();
    XorBits(a, b, 8)
  }

  /** `bytes(a ^ b for a, b in zip(data, stream))`. */
  function XorAll(data: seq<Byte>, stream: seq<Byte>): seq<Byte>
    requires |data| == |stream|
  {
    seq(|data|, i requires 0 <= i < |data| => Xor(data[i], stream[i]))
  }

  lemma XorAllTwice(data: seq<Byte>, stream: seq<Byte>)
    requires |data| == |stream|
    ensures XorAll(XorAll(data, stream), stream) == data
  {
    Pow2Of8();
    forall i | 0 <= i < |data|
      ensures Xor(Xor(data[i], stream[i]), stream[i]) == data[i]
    {
      XorBitsTwice(data[i], stream[i], 8);
    }
  }

  predicate TooLong(data: seq<Byte>) {
    |data| > MAX_BLOCKS * BLOCK_BYTES
  }

  function Encrypted(hash: seq<Byte> -> seq<Byte>, key: seq<Byte>, nonce: seq<Byte>, plaintext: string): Result<seq<Byte>, VaultError>
    requires Wide(hash)
  {
    var data := Encode(plaintext);
    if TooLong(data) then Err(CounterOverflow)
    else Ok([VERSION] + nonce + XorAll(data, Stream(hash, key, nonce, |data|)))
  }

  /** Ok(None) is the answer to a missing or empty blob. */
  function Decrypted(hash: seq<Byte> -> seq<Byte>, key: seq<Byte>, blob: Option<seq<Byte>>): Result<Option<string>, VaultError>
    requires Wide(hash)
  {
    if blob.None? || blob.value == [] then Ok(None)
    else if blob.value[0] != VERSION || |blob.value| < NONCE_BYTES + 2 then Err(InvalidBlob)
    else
      var nonce, cipher := blob.value[1..NONCE_BYTES + 1], blob.value[NONCE_BYTES + 1..];
      if TooLong(cipher) then Err(CounterOverflow)
      else
        var text := Decode(XorAll(cipher, Stream(hash, key, nonce, |cipher|)));
        if text.None? then Err(NotUtf8) else Ok(text)
  }

  /** `nonce` is what `os.urandom(16)` gives. */
  method EncryptSecret(hash: seq<Byte> -> seq<Byte>, key: seq<Byte>, nonce: seq<Byte>, plaintext: string)
    returns (r: Result<seq<Byte>, VaultError>)
    requires Wide(hash) && |nonce| == NONCE_BYTES
    ensures r == Encrypted(hash, key, nonce, plaintext)
  {
    var data := Encode(plaintext);
    var stream := Keystream(hash, key, nonce, |data|);
    if stream.Err? {
      return Err(stream.error);
    }
    r := Ok([VERSION] + nonce + XorAll(data, stream.value));
  }

  method DecryptSecret(hash: seq<Byte> -> seq<Byte>, key: seq<Byte>, blob: Option<seq<Byte>>)
    returns (r: Result<Option<string>, VaultError>)
    requires Wide(hash)
    ensures r == Decrypted(hash, key, blob)
  {
    if blob.None? || blob.value == [] {
      return Ok(None);
    }
    var bytes := blob.value;
    if bytes[0] != VERSION || |bytes| < NONCE_BYTES + 2 {
      return Err(InvalidBlob);
    }
    var nonce, cipher := bytes[1..NONCE_BYTES + 1], bytes[NONCE_BYTES + 1..];
    var stream := Keystream(hash, key, nonce, |cipher|);
    if stream.Err? {
      return Err(stream.error);
    }
    var text := Decode(XorAll(cipher, stream.value));
    r := if text.None? then Err(NotUtf8) else Ok(text);
  }

  lemma EncodeEmpty(s: string)
    ensures Encode(s) == [] <==> s == ""
  {
  }

  /** Decrypting what was encrypted gives the text back exactly when the text is not empty: the blob of
      an empty text is one byte too short to be accepted. */
  lemma DecryptInvertsEncryptIff(hash: seq<Byte> -> seq<Byte>, key: seq<Byte>, nonce: seq<Byte>, plaintext: string)
    requires Wide(hash) && |nonce| == NONCE_BYTES && Encrypted(hash, key, nonce, plaintext).Ok?
    ensures Decrypted(hash, key, Some(Encrypted(hash, key, nonce, plaintext).value)) ==
            if plaintext == "" then Err(InvalidBlob) else Ok(Some(plaintext))
  {
    var data := Encode(plaintext);
    var stream := Stream(hash, key, nonce, |data|);
    var blob := Encrypted(hash, key, nonce, plaintext).value;
    EncodeEmpty(plaintext);
    assert blob[1..NONCE_BYTES + 1] == nonce && blob[NONCE_BYTES + 1..] == XorAll(data, stream);
    XorAllTwice(data, stream);
    EncodeThenDecode(plaintext);
  }

  /** Conversely, a blob that decrypts to a text is the encryption of that text under its own nonce. */
  lemma EncryptInvertsDecrypt(hash: seq<Byte> -> seq<Byte>, key: seq<Byte>, blob: seq<Byte>)
    requires Wide(hash) && blob != [] && Decrypted(hash, key, Some(blob)).Ok?
    ensures var r := Decrypted(hash, key, Some(blob)).value;
            && r.Some? && r.value != "" && |blob| > NONCE_BYTES + 1
            && Encrypted(hash, key, blob[1..NONCE_BYTES + 1], r.value) == Ok(blob)
  {
    var nonce, cipher := blob[1..NONCE_BYTES + 1], blob[NONCE_BYTES + 1..];
    var stream := Stream(hash, key, nonce, |cipher|);
    DecodeThenEncode(XorAll(cipher, stream));
    XorAllTwice(cipher, stream);
    EncodeEmpty(Decode(XorAll(cipher, stream)).value);
    assert blob == [VERSION] + nonce + cipher;
  }

  // ---- What a connection stores -------------------------------------------

  const OAUTH_PREFIX := "sub_oauth:"
  const SUBSCRIPTION_PREFIX := "subscription:"

  datatype ProviderConnectionSecret =
    ProviderConnectionSecret(apiKey: Option<string>, subscriptionConnected: bool, oauthRefreshToken: Option<string>)

  predicate Given(s: Option<string>) {
    s.Some? && Strip(s.value) != ""
  }

  function EncodeSecretPayload(
    hash: seq<Byte> -> seq<Byte>, key: seq<Byte>, nonce: seq<Byte>,
    kind: string, apiKey: Option<string>, subscriptionConnected: bool, oauthRefreshToken: Option<string>): Result<seq<Byte>, VaultError>
    requires Wide(hash) && |nonce| == NONCE_BYTES
  {
    if kind == "subscription" then
      if Given(oauthRefreshToken) then Encrypted(hash, key, nonce, OAUTH_PREFIX + Strip(oauthRefreshToken.value))
      else Encrypted(hash, key, nonce, SUBSCRIPTION_PREFIX + if subscriptionConnected then "1" else "0")
    else if !Given(apiKey) then Err(ApiKeyRequired)
    else Encrypted(hash, key, nonce, Strip(apiKey.value))
  }

  function DecodeSecretPayload(hash: seq<Byte> -> seq<Byte>, key: seq<Byte>, blob: Option<seq<Byte>>, kind: string)
    : Result<Option<ProviderConnectionSecret>, VaultError>
    requires Wide(hash)
  {
    var plain := Decrypted(hash, key, blob);
    if plain.Err? then Err(plain.error)
    else if plain.value.None? then Ok(None)
    else Ok(Some(SecretOf(kind, plain.value.value)))
  }

  function SecretOf(kind: string, plain: string): ProviderConnectionSecret {
    if kind == "subscription" then
      if OAUTH_PREFIX <= plain then ProviderConnectionSecret(None, true, Some(plain[|OAUTH_PREFIX|..]))
      else ProviderConnectionSecret(None, plain == SUBSCRIPTION_PREFIX + "1", None)
    else ProviderConnectionSecret(Some(plain), false, None)
  }

  /** Every payload that is accepted comes back under the same kind: the stripped token, connected; the
      connected flag; or the stripped key.  A key is refused exactly when it is missing or blank. */
  lemma PayloadRoundTrip(
    hash: seq<Byte> -> seq<Byte>, key: seq<Byte>, nonce: seq<Byte>,
    kind: string, apiKey: Option<string>, subscriptionConnected: bool, oauthRefreshToken: Option<string>)
    requires Wide(hash) && |nonce| == NONCE_BYTES
    ensures var r := EncodeSecretPayload(hash, key, nonce, kind, apiKey, subscriptionConnected, oauthRefreshToken);
            && (r == Err(ApiKeyRequired) <==> kind != "subscription" && !Given(apiKey))
            && (r.Ok? ==>
                  DecodeSecretPayload(hash, key, Some(r.value), kind) == Ok(Some(
                    if kind != "subscription" then ProviderConnectionSecret(Some(Strip(apiKey.value)), false, None)
                    else if Given(oauthRefreshToken) then ProviderConnectionSecret(None, true, Some(Strip(oauthRefreshToken.value)))
                    else ProviderConnectionSecret(None, subscriptionConnected, None))))
  {
    var r := EncodeSecretPayload(hash, key, nonce, kind, apiKey, subscriptionConnected, oauthRefreshToken);
    if r.Ok? {
      if kind != "subscription" {
        DecryptInvertsEncryptIff(hash, key, nonce, Strip(apiKey.value));
      } else if Given(oauthRefreshToken) {
        var token := Strip(oauthRefreshToken.value);
        DecryptInvertsEncryptIff(hash, key, nonce, OAUTH_PREFIX + token);
        assert (OAUTH_PREFIX + token)[|OAUTH_PREFIX|..] == token;
      } else {
        DecryptInvertsEncryptIff(hash, key, nonce, SUBSCRIPTION_PREFIX + if subscriptionConnected then "1" else "0");
        FlagIsRead(subscriptionConnected);
      }
    }
  }

  lemma FlagIsRead(connected: bool)
    ensures SecretOf("subscription", SUBSCRIPTION_PREFIX + if connected then "1" else "0") ==
            ProviderConnectionSecret(None, connected, None)
  {
    var plain := SUBSCRIPTION_PREFIX + if connected then "1" else "0";
    assert plain[3] == 's' && OAUTH_PREFIX[3] == '_';
    assert plain[|SUBSCRIPTION_PREFIX|] == if connected then '1' else '0';
  }
}
