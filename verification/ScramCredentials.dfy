/**
 * SCRAM credentials.  `HmacIteration` folds the iterated digests into one buffer in place; it is proved against the
 * recursive Hi() of section 2.2 of RFC 5802, and the keys against section 3.  Hashes, HMAC and SASLprep are parameters.
 */
module ScramCredentials {
  import opened Base64
  import opened Wrappers

  const MANDATED_SALT_SIZE := 4
  const CLIENT_KEY_INPUT := "Client Key"
  const SERVER_KEY_INPUT := "Server Key"
  const DEFAULT_SHA1_ITERATIONS := 10000
  const DEFAULT_SHA256_ITERATIONS := 15000

  /** A hash function with its digest size, and the HMAC made from it: a key and a message give a digest. */
  datatype Hash = Hash(size: nat, sum: Bytes -> Bytes, hmac: (Bytes, Bytes) -> Bytes)

  /** Digests have the advertised size. */
  ghost predicate WellSized(h: Hash) {
    (forall x: Bytes :: |h.sum(x)| == h.size) && forall k: Bytes, x: Bytes :: |h.hmac(k, x)| == h.size
  }

  /** The cryptography a cluster uses; `utf8` gives the octets of a string. */
  datatype Crypto = Crypto(sha1: Hash, sha256: Hash, md5Hex: string -> string, saslPrep: string -> Option<string>,
                           utf8: string -> Bytes)

  ghost predicate ValidCrypto(c: Crypto) {
    WellSized(c.sha1) && WellSized(c.sha256)
  }

  datatype ScramCreds = ScramCreds(iterationCount: int, salt: string, serverKey: string, storedKey: string)

  datatype ScramError = MalformedSalt | UnpreparablePassword | WrongSaltSize

  // ---------------------------------------------------------------- RFC 5802

  /** Octet-wise exclusive or of equally long strings. */
  function Xor(x: Bytes, y: Bytes): (r: Bytes)
    requires |x| == |y|
    ensures |r| == |x|
  {
    seq(|x|, i requires 0 <= i < |x| => x[i] ^ y[i])
  }

  /** U_i of section 2.2: the i-th iterated digest. */
  ghost function U(h: Hash, str: Bytes, salt: Bytes, i: nat): (r: Bytes)
    requires WellSized(h) && i > 0
    ensures |r| == h.size
  {
    if i == 1 then h.hmac(str, salt + [0, 0, 0, 1]) else h.hmac(str, U(h, str, salt, i - 1))
  }

  /** Hi(str, salt, i) of section 2.2: the exclusive or of U_1 to U_i. */
  ghost function Hi(h: Hash, str: Bytes, salt: Bytes, i: nat): (r: Bytes)
    requires WellSized(h) && i > 0
    ensures |r| == h.size
  {
    if i == 1 then U(h, str, salt, 1) else Xor(Hi(h, str, salt, i - 1), U(h, str, salt, i))
  }

  /** ClientKey of section 3. */
  function ClientKey(c: Crypto, h: Hash, saltedPassword: Bytes): Bytes {
    h.hmac(saltedPassword, c.utf8(CLIENT_KEY_INPUT))
  }

  /** StoredKey of section 3. */
  function StoredKey(c: Crypto, h: Hash, saltedPassword: Bytes): Bytes {
    h.sum(ClientKey(c, h, saltedPassword))
  }

  /** ServerKey of section 3. */
  function ServerKey(c: Crypto, h: Hash, saltedPassword: Bytes): Bytes {
    h.hmac(saltedPassword, c.utf8(SERVER_KEY_INPUT))
  }

  // ---------------------------------------------------------------- the imperative computation

  /** An iteration count below one counts as one. */
  function Iterations(iterationCount: int): nat {
    if iterationCount < 1 then 1 else iterationCount
  }

  method HmacIteration(h: Hash, input: Bytes, salt: Bytes, iterationCount: int) returns (r: Result<Bytes, ScramError>)
    requires WellSized(h)
    ensures r == if |salt| != h.size - MANDATED_SALT_SIZE then Err(WrongSaltSize)
                 else Ok(Hi(h, input, salt, Iterations(iterationCount)))
  {
    if |salt| != h.size - MANDATED_SALT_SIZE {
      return Err(WrongSaltSize);
    }
    var startKey := salt + [0, 0, 0, 1];
    var intermediateDigest := h.hmac(input, startKey);
    var result := new bv8[h.size](i requires 0 <= i < h.size => intermediateDigest[i]);
    var i := 1;
    while i < iterationCount
      invariant 1 <= i <= Iterations(iterationCount)
      invariant intermediateDigest == U(h, input, salt, i)
      invariant result[..] == Hi(h, input, salt, i)
    {
      intermediateDigest := h.hmac(input, intermediateDigest);
      ghost var before := result[..];
      for j := 0 to |intermediateDigest|
        invariant forall k :: 0 <= k < j ==> result[k] == before[k] ^ intermediateDigest[k]
        invariant forall k :: j <= k < h.size ==> result[k] == before[k]
      {
        result[j] := result[j] ^ intermediateDigest[j];
      }
      i := i + 1;
      assert result[..] == Xor(before, U(h, input, salt, i));
    }
    return Ok(result[..]);
  }

  // ---------------------------------------------------------------- keys and credentials

  /** SaltedPassword of section 3, for a password that can be prepared and a salt of the demanded size. */
  ghost function SaltedPassword(c: Crypto, h: Hash, password: string, salt: Bytes, iterationCount: int):
    Result<Bytes, ScramError>
    requires WellSized(h)
  {
    match c.saslPrep(password)
    case None => Err(UnpreparablePassword)
    case Some(prepared) =>
      if |salt| != h.size - MANDATED_SALT_SIZE then Err(WrongSaltSize)
      else Ok(Hi(h, c.utf8(prepared), salt, Iterations(iterationCount)))
  }

  ghost function Credentials(c: Crypto, h: Hash, iterationCount: int, salt64: string, password: string):
    Result<ScramCreds, ScramError>
    requires WellSized(h)
  {
    match Decode(salt64)
    case None => Err(MalformedSalt)
    case Some(salt) =>
      match SaltedPassword(c, h, password, salt, iterationCount)
      case Err(e) => Err(e)
      case Ok(key) => Ok(ScramCreds(iterationCount, salt64, Encode(ServerKey(c, h, key)), Encode(StoredKey(c, h, key))))
  }

  method GenerateSaltedPassword(c: Crypto, h: Hash, password: string, salt: Bytes, iterationCount: int)
    returns (r: Result<Bytes, ScramError>)
    requires WellSized(h)
    ensures r == SaltedPassword(c, h, password, salt, iterationCount)
  {
    var prepared := c.saslPrep(password);
    if prepared.None? {
      return Err(UnpreparablePassword);
    }
    r := HmacIteration(h, c.utf8(prepared.value), salt, iterationCount);
  }

  method GenerateSecrets(c: Crypto, h: Hash, password: string, salt: Bytes, iterationCount: int)
    returns (r: Result<(Bytes, Bytes), ScramError>)
    requires WellSized(h)
    ensures r == match SaltedPassword(c, h, password, salt, iterationCount)
                 case Err(e) => Err(e)
                 case Ok(key) => Ok((StoredKey(c, h, key), ServerKey(c, h, key)))
  {
    var saltedPassword := GenerateSaltedPassword(c, h, password, salt, iterationCount);
    if saltedPassword.Err? {
      return Err(saltedPassword.error);
    }
    var clientKey := h.hmac(saltedPassword.value, c.utf8(CLIENT_KEY_INPUT));
    var storedKey := h.sum(clientKey);
    var serverKey := h.hmac(saltedPassword.value, c.utf8(SERVER_KEY_INPUT));
    return Ok((storedKey, serverKey));
  }

  method ComputeScramCredentials(c: Crypto, h: Hash, iterationCount: int, salt64: string, password: string)
    returns (r: Result<ScramCreds, ScramError>)
    requires WellSized(h)
    ensures r == Credentials(c, h, iterationCount, salt64, password)
  {
    var salt := Decode(salt64);
    if salt.None? {
      return Err(MalformedSalt);
    }
    var secrets := GenerateSecrets(c, h, password, salt.value, iterationCount);
    if secrets.Err? {
      return Err(secrets.error);
    }
    return Ok(ScramCreds(iterationCount, salt64, Encode(secrets.value.1), Encode(secrets.value.0)));
  }

  /** What SCRAM-SHA-1 prepares instead of the password itself. */
  function Sha1Password(c: Crypto, username: string, password: string): string {
    c.md5Hex(username + ":mongo:" + password)
  }

  /** Both credentials of a user. */
  datatype CredentialPair = CredentialPair(sha1: ScramCreds, sha256: ScramCreds)

  ghost function PairOf(c: Crypto, username: string, password: string, sha1Salt: Bytes, sha256Salt: Bytes):
    Result<CredentialPair, ScramError>
    requires ValidCrypto(c)
  {
    match Credentials(c, c.sha1, DEFAULT_SHA1_ITERATIONS, Encode(sha1Salt), Sha1Password(c, username, password))
    case Err(e) => Err(e)
    case Ok(sha1) =>
      match Credentials(c, c.sha256, DEFAULT_SHA256_ITERATIONS, Encode(sha256Salt), password)
      case Err(e) => Err(e)
      case Ok(sha256) => Ok(CredentialPair(sha1, sha256))
  }

  method ComputeScramShaCredentials(c: Crypto, username: string, password: string, sha1Salt: Bytes, sha256Salt: Bytes)
    returns (r: Result<CredentialPair, ScramError>)
    requires ValidCrypto(c)
    ensures r == PairOf(c, username, password, sha1Salt, sha256Salt)
  {
    var sha1 := ComputeScramCredentials(c, c.sha1, DEFAULT_SHA1_ITERATIONS, Encode(sha1Salt), Sha1Password(c, username, password));
    if sha1.Err? {
      return Err(sha1.error);
    }
    var sha256 := ComputeScramCredentials(c, c.sha256, DEFAULT_SHA256_ITERATIONS, Encode(sha256Salt), password);
    if sha256.Err? {
      return Err(sha256.error);
    }
    return Ok(CredentialPair(sha1.value, sha256.value));
  }

  // ---------------------------------------------------------------- the credentials authenticate

  lemma XorTwice(x: Bytes, y: Bytes)
    requires |x| == |y|
    ensures Xor(Xor(x, y), y) == x
  {
    forall i | 0 <= i < |x|
      ensures Xor(Xor(x, y), y)[i] == x[i]
    {
      assert (x[i] ^ y[i]) ^ y[i] == x[i];
    }
  }

  /** ClientProof of section 3: what a client sends, from the password it was given and the server's salt and count. */
  ghost function ClientProof(c: Crypto, h: Hash, saltedPassword: Bytes, authMessage: Bytes): Bytes
    requires WellSized(h)
  {
    Xor(ClientKey(c, h, saltedPassword), h.hmac(StoredKey(c, h, saltedPassword), authMessage))
  }

  /** The server's check: undo the signature with the stored key and compare hashes. */
  ghost predicate Accepts(h: Hash, storedKey: Bytes, authMessage: Bytes, proof: Bytes)
    requires WellSized(h) && |proof| == h.size
  {
    h.sum(Xor(proof, h.hmac(storedKey, authMessage))) == storedKey
  }

  /** A client with some password can derive its key from the salt and count of stored credentials. */
  ghost function ClientSaltedPassword(c: Crypto, h: Hash, creds: ScramCreds, password: string): Result<Bytes,
      ScramError>
    requires WellSized(h)
  {
    match Decode(creds.salt)
    case None => Err(MalformedSalt)
    case Some(salt) => SaltedPassword(c, h, password, salt, creds.iterationCount)
  }

  /**
   * Whoever knows the password is accepted against the stored credentials, and can in turn recognise the server, for
   * every hash, salt, iteration count and authentication message.
   */
  lemma PasswordAuthenticates(c: Crypto, h: Hash, iterationCount: int, salt64: string, password: string,
                              authMessage: Bytes)
    requires WellSized(h) && Credentials(c, h, iterationCount, salt64, password).Ok?
    ensures var creds := Credentials(c, h, iterationCount, salt64, password).value;
            && ClientSaltedPassword(c, h, creds, password).Ok?
            && var key := ClientSaltedPassword(c, h, creds, password).value;
               Decode(creds.storedKey).Some?
                   && Accepts(h, Decode(creds.storedKey).value, authMessage, ClientProof(c, h, key, authMessage))
               && Decode(creds.serverKey) == Some(ServerKey(c, h, key))
  {
    var creds := Credentials(c, h, iterationCount, salt64, password).value;
    var key := ClientSaltedPassword(c, h, creds, password).value;
    RoundTrip(StoredKey(c, h, key));
    RoundTrip(ServerKey(c, h, key));
    XorTwice(ClientKey(c, h, key), h.hmac(StoredKey(c, h, key), authMessage));
  }

  /** Credentials exist exactly for a decodable salt of the demanded size and a password that can be prepared. */
  lemma CredentialsExistExactly(c: Crypto, h: Hash, iterationCount: int, salt: Bytes, password: string)
    requires WellSized(h)
    ensures Credentials(c, h, iterationCount, Encode(salt), password).Ok?
       <==> c.saslPrep(password).Some? && |salt| == h.size - MANDATED_SALT_SIZE
  {
    RoundTrip(salt);
  }
}
