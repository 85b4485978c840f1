/** The address codec of the per-connection handler in main.go: it turns the
    header line a client sends into the backend address it names. The line is
    base64 text of `IV || AES-CFB(secret, IV, address || salt)`; the handler
    decodes it, decrypts it and checks and strips the salt suffix. */
module AddressCodec {
  import opened Common

  /** aes.BlockSize: the length of the IV that prefixes the ciphertext. */
  const AesBlockSize: nat := 16

  /** aes.NewCipher accepts AES-128, AES-192 and AES-256 keys only. */
  predicate ValidKeySize(secret: Bytes)
  {
    |secret| == 16 || |secret| == 24 || |secret| == 32
  }

  /** The ways resolving a header line fails, in the order the handler checks
      them; in main.go each one is a `log.Panicln` that ends the connection. */
  datatype Error =
    | Encoding            // base64.StdEncoding.DecodeString reported an error
    | KeySize             // aes.NewCipher rejected the shared secret
    | CiphertextTooShort  // the payload does not hold a whole IV
    | SaltCheckFailed     // the decrypted text is shorter than the salt
    | SaltNotMatch        // the decrypted text does not end with the salt

  /** The process-wide configuration the codec reads: the shared secret and the
      salt, and the two library primitives the handler calls, base64 decoding
      of the standard padded alphabet and AES-CFB decryption (key, IV,
      ciphertext). Both primitives are left uninterpreted. */
  datatype Codec = Codec(
    secret: Bytes,
    salt: Bytes,
    base64Decode: Bytes -> Option<Bytes>,
    decrypt: (Bytes, Bytes, Bytes) -> Bytes)
  {
    /** The handler decrypts in place (XORKeyStream(text, text)), so the
        decrypted text is exactly as long as the ciphertext. */
    ghost predicate LengthPreserving()
    {
      forall key, iv, ciphertext :: |decrypt(key, iv, ciphertext)| == |ciphertext|
    }
  }

  /** The decrypted text of a decoded payload: its first block is the IV and
      the rest is the ciphertext. */
  function Plaintext(c: Codec, data: Bytes): Bytes
    requires |data| >= AesBlockSize
  {
    c.decrypt(c.secret, data[..AesBlockSize], data[AesBlockSize..])
  }

  predicate EndsWith(s: Bytes, suffix: Bytes)
  {
    |suffix| <= |s| && s[|s| - |suffix|..] == suffix
  }

  /** Decoding of a header line into a backend address, checks in the order of
      the handler; the first failing check decides the error. The lemma
      DecodeAddress below characterises the result independently of these
      checks: `Ok(addr)` exactly when the decrypted text is `addr + salt`. */
  function Decode(c: Codec, line: Bytes): (r: Result<Bytes, Error>)
    // an address is produced exactly when every check passes
    ensures r.Ok? <==>
      && c.base64Decode(line).Some?
      && ValidKeySize(c.secret)
      && |c.base64Decode(line).value| >= AesBlockSize
      && EndsWith(Plaintext(c, c.base64Decode(line).value), c.salt)
    // the address is the decrypted text with its salt suffix removed
    ensures r.Ok? ==>
      && |c.base64Decode(line).value| >= AesBlockSize
      && r.value + c.salt == Plaintext(c, c.base64Decode(line).value)
    // which failure is reported
    ensures c.base64Decode(line).None? ==> r == Err(Encoding)
    ensures c.base64Decode(line).Some? && !ValidKeySize(c.secret) ==> r == Err(KeySize)
    ensures c.base64Decode(line).Some? && ValidKeySize(c.secret) ==>
      var data := c.base64Decode(line).value;
      && (|data| < AesBlockSize ==> r == Err(CiphertextTooShort))
      && (|data| >= AesBlockSize && |Plaintext(c, data)| < |c.salt| ==> r == Err(SaltCheckFailed))
      && (|data| >= AesBlockSize && |Plaintext(c, data)| >= |c.salt| && !EndsWith(Plaintext(c, data), c.salt)
          ==> r == Err(SaltNotMatch))
  {
    match c.base64Decode(line)
    case None => Err(Encoding)
    case Some(data) =>
      if !ValidKeySize(c.secret) then Err(KeySize)
      else if |data| < AesBlockSize then Err(CiphertextTooShort)
      else
        var text := Plaintext(c, data);
        if |text| < |c.salt| then Err(SaltCheckFailed)
        else
          var addrLength := |text| - |c.salt|;
          if text[addrLength..] != c.salt then Err(SaltNotMatch)
          else Ok(text[..addrLength])
  }

  /** A line decodes to `addr` exactly when the decrypted text is `addr`
      followed by the salt: nothing but the salt is stripped, and a text that
      does not carry the salt yields no address at all. */
  lemma DecodeAddress(c: Codec, line: Bytes, addr: Bytes)
    ensures Decode(c, line) == Ok(addr) <==>
      && c.base64Decode(line).Some?
      && ValidKeySize(c.secret)
      && |c.base64Decode(line).value| >= AesBlockSize
      && Plaintext(c, c.base64Decode(line).value) == addr + c.salt
  {
  }

  /** With a length-preserving decryption the address is the payload minus the
      IV and the salt. */
  lemma DecodeLength(c: Codec, line: Bytes)
    requires c.LengthPreserving()
    requires Decode(c, line).Ok?
    ensures |Decode(c, line).value|
            == |c.base64Decode(line).value| - AesBlockSize - |c.salt|
  {
  }

  /** A payload of exactly one block is accepted: its text is empty, so it
      yields the empty address when the salt is empty and fails the salt length
      check otherwise. */
  lemma SingleBlockPayload(c: Codec, line: Bytes)
    requires c.LengthPreserving()
    requires ValidKeySize(c.secret)
    requires c.base64Decode(line).Some? && |c.base64Decode(line).value| == AesBlockSize
    ensures Decode(c, line) == if c.salt == [] then Ok([]) else Err(SaltCheckFailed)
  {
  }

  /** Round trip with the token producer: a line whose base64 payload is an IV
      followed by a ciphertext that decrypts to `addr || salt` resolves to
      `addr`. */
  lemma DecodeToken(c: Codec, line: Bytes, iv: Bytes, ciphertext: Bytes, addr: Bytes)
    requires ValidKeySize(c.secret)
    requires |iv| == AesBlockSize
    requires c.base64Decode(line) == Some(iv + ciphertext)
    requires c.decrypt(c.secret, iv, ciphertext) == addr + c.salt
    ensures Decode(c, line) == Ok(addr)
  {
  }
}
