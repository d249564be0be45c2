// The bytes that packages/config/provider_vault.py stores, bit by bit.
module VaultBits {
  import opened Wrappers
  import opened Text
  import opened Utf8
  import opened Vault

  /** Bit `k` of a number, counted from the lowest. */
  function Bit(n: nat, k: nat): nat {
    if k == 0 then n % 2 else Bit(n / 2, k - 1)
  }

  /** The bits of two bytes differ in exactly the places where the bits of a third are set. */
  ghost predicate DiffersWhere(a: Byte, b: Byte, places: Byte) {
    forall k :: 0 <= k < 8 ==> (Bit(a, k) != Bit(b, k) <==> Bit(places, k) == 1)
  }

  lemma {:induction false} BitIsBit(n: nat, k: nat)
    ensures Bit(n, k) < 2
  {
    if k > 0 {
      BitIsBit(n / 2, k - 1);
    }
  }

  lemma {:induction false} XorBitsBit(a: nat, b: nat, bits: nat, k: nat)
    requires k < bits
    ensures Bit(XorBits(a, b, bits), k) == (Bit(a, k) + Bit(b, k)) % 2
  {
    LowDigit((a % 2 + b % 2) % 2, XorBits(a / 2, b / 2, bits - 1));
    if k > 0 {
      XorBitsBit(a / 2, b / 2, bits - 1, k - 1);
    }
  }

  lemma XorDiffers(a: Byte, b: Byte)
    ensures DiffersWhere(Xor(a, b), a, b)
  {
    forall k | 0 <= k < 8
      ensures Bit(Xor(a, b), k) != Bit(a, k) <==> Bit(b, k) == 1
    {
      XorBitsBit(a, b, 8, k);
      BitIsBit(a, k);
      BitIsBit(b, k);
    }
  }

  /** A number is given by its bits. */
  lemma {:induction false} BitsDecide(a: nat, b: nat, bits: nat)
    requires a < Pow2(bits) && b < Pow2(bits) && forall k :: 0 <= k < bits ==> Bit(a, k) == Bit(b, k)
    ensures a == b
  {
    if bits > 0 {
      assert Bit(a, 0) == Bit(b, 0);
      forall k | 0 <= k < bits - 1
        ensures Bit(a / 2, k) == Bit(b / 2, k)
      {
        assert Bit(a, k + 1) == Bit(b, k + 1);
      }
      BitsDecide(a / 2, b / 2, bits - 1);
    }
  }

  lemma BytesDecide(a: Byte, b: Byte)
    requires forall k :: 0 <= k < 8 ==> Bit(a, k) == Bit(b, k)
    ensures a == b
  {
    Pow2Of8();
    BitsDecide(a, b, 8);
  }

  lemma {:induction false} ZeroHasNoBits(k: nat)
    ensures Bit(0, k) == 0
  {
    if k > 0 {
      ZeroHasNoBits(k - 1);
    }
  }

  /** The number that bytes write, the highest first. */
  function FromBytes(bytes: seq<Byte>): nat {
    if bytes == [] then 0 else FromBytes(bytes[..|bytes| - 1]) * 256 + bytes[|bytes| - 1] as nat
  }

  predicate BigEndian(bytes: seq<Byte>, n: nat) {
    |bytes| == 4 && FromBytes(bytes) == n
  }

  /** Two texts of bytes of one length that write the same number are equal. */
  lemma {:induction false} BytesWriteOneNumber(a: seq<Byte>, b: seq<Byte>)
    requires |a| == |b| && FromBytes(a) == FromBytes(b)
    ensures a == b
  {
    if a != [] {
      var m, n := |a| - 1, FromBytes(a[..|a| - 1]);
      LastByte(n, a[m] as nat);
      LastByte(FromBytes(b[..m]), b[m] as nat);
      BytesWriteOneNumber(a[..m], b[..m]);
      assert a == a[..m] + [a[m]] && b == b[..m] + [b[m]];
    }
  }

  lemma LastByte(n: nat, low: nat)
    requires low < 256
    ensures (n * 256 + low) / 256 == n && (n * 256 + low) % 256 == low
  {
  }

  lemma CounterWrites(n: nat)
    requires n < MAX_BLOCKS
    ensures FromBytes(CounterBytes(n)) == n
  {
    var c := CounterBytes(n);
    assert c[..3][..2] == c[..2] && c[..2][..1] == c[..1] && c[..1][..0] == [];
    assert FromBytes(c[..1]) == n / 0x100_0000;
    assert FromBytes(c[..2]) == n / 0x1_0000;
    assert FromBytes(c[..3]) == n / 0x100;
  }

  lemma CounterIsBigEndian(bytes: seq<Byte>, n: nat)
    requires n < MAX_BLOCKS && BigEndian(bytes, n)
    ensures bytes == CounterBytes(n)
  {
    CounterWrites(n);
    BytesWriteOneNumber(bytes, CounterBytes(n));
  }

  /** A stored blob: the version, the nonce, and as many bytes as the UTF-8 text has.  The bits of each differ
      from those of the text exactly where the stream has a one; byte `i` of the stream is byte `i % 32` of the
      hash of key, nonce and the block number in four bytes. */
  lemma CipherBytes(hash: seq<Byte> -> seq<Byte>, key: seq<Byte>, nonce: seq<Byte>, plaintext: string, i: nat, counter: seq<Byte>)
    requires Wide(hash) && |nonce| == NONCE_BYTES && Encrypted(hash, key, nonce, plaintext).Ok?
    requires i < |Encode(plaintext)| && BigEndian(counter, i / 32)
    ensures var data, blob := Encode(plaintext), Encrypted(hash, key, nonce, plaintext).value;
            && |blob| == 17 + |data| && blob[0] == 1 && blob[1..17] == nonce
            && DiffersWhere(blob[17 + i], data[i], hash(key + nonce + counter)[i % 32])
  {
    var data := Encode(plaintext);
    CounterIsBigEndian(counter, i / 32);
    XorDiffers(data[i], StreamByte(hash, key, nonce, i));
    CipherAt(hash, key, nonce, plaintext, i);
  }

  lemma CipherAt(hash: seq<Byte> -> seq<Byte>, key: seq<Byte>, nonce: seq<Byte>, plaintext: string, i: nat)
    requires Wide(hash) && |nonce| == NONCE_BYTES && Encrypted(hash, key, nonce, plaintext).Ok? && i < |Encode(plaintext)|
    ensures var data, blob := Encode(plaintext), Encrypted(hash, key, nonce, plaintext).value;
            && |blob| == 17 + |data| && blob[0] == 1 && blob[1..17] == nonce
            && blob[17 + i] == Xor(data[i], StreamByte(hash, key, nonce, i))
  {
  }

  /** A byte is stored in the clear exactly when the stream byte is zero. */
  lemma InTheClearIff(a: Byte, b: Byte, places: Byte)
    requires DiffersWhere(a, b, places)
    ensures a == b <==> places == 0
  {
    if a == b {
      forall k | 0 <= k < 8
        ensures Bit(places, k) == Bit(0, k)
      {
        BitIsBit(places, k);
        ZeroHasNoBits(k);
      }
      BytesDecide(places, 0);
    }
    if places == 0 {
      forall k | 0 <= k < 8
        ensures Bit(a, k) == Bit(b, k)
      {
        ZeroHasNoBits(k);
      }
      BytesDecide(a, b);
    }
  }

  /** The same text byte under two stream bytes: the stored bytes are equal exactly when the stream bytes are. */
  lemma StreamDecides(a: Byte, b: Byte, text: Byte, p: Byte, q: Byte)
    requires DiffersWhere(a, text, p) && DiffersWhere(b, text, q)
    ensures a == b <==> p == q
  {
    forall k | 0 <= k < 8
      ensures Bit(a, k) == Bit(b, k) <==> Bit(p, k) == Bit(q, k)
    {
      BitIsBit(a, k);
      BitIsBit(b, k);
      BitIsBit(text, k);
      BitIsBit(p, k);
      BitIsBit(q, k);
    }
    if a == b { BytesDecide(p, q); }
    if p == q { BytesDecide(a, b); }
  }

  // ---- What is refused, and what a connection stores ----------------------

  /** What decrypting a blob answers: nothing for a missing or empty one; an error for one that does not start
      with 1 or is shorter than 18 bytes; and for any other what its bytes give as UTF-8 text once the stream is
      taken off them. */
  lemma BlobIsRead(hash: seq<Byte> -> seq<Byte>, key: seq<Byte>, blob: Option<seq<Byte>>)
    requires Wide(hash)
    ensures var r := Decrypted(hash, key, blob);
            && (blob.None? || blob.value == [] <==> r == Ok(None))
            && (blob.Some? && blob.value != [] && (blob.value[0] != 1 || |blob.value| < 18) <==> r == Err(InvalidBlob))
            && (r.Ok? && r.value.Some? ==> |blob.value| >= 18 && |Encode(r.value.value)| == |blob.value| - 17)
            && (r == Err(NotUtf8) ==> forall text :: Encrypted(hash, key, blob.value[1..17], text) != Ok(blob.value))
  {
    var r := Decrypted(hash, key, blob);
    if r.Ok? && r.value.Some? {
      EncryptInvertsDecrypt(hash, key, blob.value);
    }
    if r == Err(NotUtf8) {
      forall text | Encrypted(hash, key, blob.value[1..17], text) == Ok(blob.value)
        ensures false
      {
        DecryptInvertsEncryptIff(hash, key, blob.value[1..17], text);
      }
    }
  }

  /** The text that is encrypted for a connection, by its kind. */
  lemma PayloadText(
    hash: seq<Byte> -> seq<Byte>, key: seq<Byte>, nonce: seq<Byte>,
    kind: string, apiKey: Option<string>, connected: bool, token: Option<string>)
    requires Wide(hash) && |nonce| == NONCE_BYTES
    ensures EncodeSecretPayload(hash, key, nonce, kind, apiKey, connected, token) ==
            if kind == "subscription" then
              Encrypted(hash, key, nonce, if token.Some? && !AllSpace(token.value) then "sub_oauth:" + Strip(token.value)
                                          else if connected then "subscription:1" else "subscription:0")
            else if apiKey.Some? && !AllSpace(apiKey.value) then Encrypted(hash, key, nonce, Strip(apiKey.value))
            else Err(ApiKeyRequired)
  {
    if apiKey.Some? { BlankIff(apiKey.value); }
    if token.Some? { BlankIff(token.value); }
    assert SUBSCRIPTION_PREFIX + "1" == "subscription:1" && SUBSCRIPTION_PREFIX + "0" == "subscription:0";
  }

  /** What a decrypted text stands for, by the kind of its connection. */
  lemma PlainIsRead(plain: string, token: string)
    ensures SecretOf("subscription", "sub_oauth:" + token) == ProviderConnectionSecret(None, true, Some(token))
    ensures !("sub_oauth:" <= plain) ==>
              SecretOf("subscription", plain) == ProviderConnectionSecret(None, plain == "subscription:1", None)
    ensures forall kind :: kind != "subscription" ==> SecretOf(kind, plain) == ProviderConnectionSecret(Some(plain), false, None)
  {
    assert ("sub_oauth:" + token)[|"sub_oauth:"|..] == token;
    assert SUBSCRIPTION_PREFIX + "1" == "subscription:1";
  }
}
