/**
 * Logging in with the credentials that a call returns: the exchange of RFC 5802, computed from a user name and a password
 * on the client's side and from the stored credentials on the server's.
 */
module ScramLogin {
  import opened AuthTypes
  import opened Base64
  import opened Scram
  import opened ScramCredentials
  import opened Secrets
  import opened Wrappers

  // ---------------------------------------------------------------- the client

  /** The k-th of the iterated digests. */
  ghost function Digest(h: Hash, str: Bytes, salt: Bytes, k: nat): (r: Bytes)
    requires WellSized(h)
    ensures |r| == h.size
  {
    if k == 0 then h.hmac(str, salt + [0, 0, 0, 1]) else h.hmac(str, Digest(h, str, salt, k - 1))
  }

  /** One octet of the exclusive or of the first n of them. */
  ghost function FoldedOctet(h: Hash, str: Bytes, salt: Bytes, n: nat, b: nat): bv8
    requires WellSized(h) && b < h.size
  {
    if n == 0 then 0 else FoldedOctet(h, str, salt, n - 1, b) ^ Digest(h, str, salt, n - 1)[b]
  }

  ghost function Folded(h: Hash, str: Bytes, salt: Bytes, n: nat): (r: Bytes)
    requires WellSized(h)
    ensures |r| == h.size
  {
    seq(h.size, b requires 0 <= b < h.size => FoldedOctet(h, str, salt, n, b))
  }

  lemma {:induction false} DigestIsU(h: Hash, str: Bytes, salt: Bytes, k: nat)
    requires WellSized(h)
    ensures Digest(h, str, salt, k) == U(h, str, salt, k + 1)
  {
    if k > 0 {
      DigestIsU(h, str, salt, k - 1);
    }
  }

  lemma {:induction false} FoldedIsHi(h: Hash, str: Bytes, salt: Bytes, n: nat)
    requires WellSized(h) && n > 0
    ensures Folded(h, str, salt, n) == Hi(h, str, salt, n)
  {
    DigestIsU(h, str, salt, n - 1);
    if n > 1 {
      FoldedIsHi(h, str, salt, n - 1);
      forall b: nat | b < h.size
        ensures FoldedOctet(h, str, salt, n, b) == Hi(h, str, salt, n)[b]
      {
        assert FoldedOctet(h, str, salt, n - 1, b) == Folded(h, str, salt, n - 1)[b];
      }
    } else {
      forall b: nat | b < h.size
        ensures FoldedOctet(h, str, salt, 1, b) == U(h, str, salt, 1)[b]
      {
        assert FoldedOctet(h, str, salt, 0, b) == 0;
        ZeroXor(Digest(h, str, salt, 0)[b]);
      }
    }
  }

  lemma ZeroXor(x: bv8)
    ensures 0 ^ x == x
  {
  }

  /**
   * A client that holds this secret, and was told salt and count of these credentials, is accepted for every message, and
   * recognises the server.  The server knows the stored key and the server key only.
   */
  ghost predicate LogsIn(c: Crypto, h: Hash, creds: ScramCreds, secret: string, count: nat)
    requires WellSized(h)
  {
    && creds.iterationCount == count
    && Decode(creds.salt).Some? && Decode(creds.storedKey).Some? && Decode(creds.serverKey).Some?
    && c.saslPrep(secret).Some?
    && var salted := Folded(h, c.utf8(c.saslPrep(secret).value), Decode(creds.salt).value, count);
       var clientKey, storedKey := h.hmac(salted, c.utf8("Client Key")), Decode(creds.storedKey).value;
       forall message: Bytes ::
         && (var proof := Xor(clientKey, h.hmac(h.sum(clientKey), message));
             h.sum(Xor(proof, h.hmac(storedKey, message))) == storedKey)
         && h.hmac(Decode(creds.serverKey).value, message) == h.hmac(h.hmac(salted, c.utf8("Server Key")), message)
  }

  // ---------------------------------------------------------------- what is computed logs in

  lemma ComputedLogsIn(c: Crypto, h: Hash, count: nat, salt64: string, secret: string)
    requires WellSized(h) && count > 0 && Credentials(c, h, count, salt64, secret).Ok?
    ensures LogsIn(c, h, Credentials(c, h, count, salt64, secret).value, secret, count)
  {
    var creds := Credentials(c, h, count, salt64, secret).value;
    var salt := Decode(salt64).value;
    FoldedIsHi(h, c.utf8(c.saslPrep(secret).value), salt, count);
    var salted := Hi(h, c.utf8(c.saslPrep(secret).value), salt, count);
    RoundTrip(StoredKey(c, h, salted));
    RoundTrip(ServerKey(c, h, salted));
    var clientKey := h.hmac(salted, c.utf8("Client Key"));
    forall message: Bytes
      ensures Xor(Xor(clientKey, h.hmac(h.sum(clientKey), message)), h.hmac(h.sum(clientKey), message)) == clientKey
    {
      XorTwice(clientKey, h.hmac(h.sum(clientKey), message));
    }
  }

  /** Both kinds of clients, for credentials of a password. */
  ghost predicate UserLogsIn(c: Crypto, username: string, password: string, pair: CredentialPair)
    requires ValidCrypto(c)
  {
    && LogsIn(c, c.sha1, pair.sha1, c.md5Hex(username + ":mongo:" + password), 10000)
    && LogsIn(c, c.sha256, pair.sha256, password, 15000)
  }

  lemma PairLogsIn(c: Crypto, username: string, password: string, s1: Bytes, s256: Bytes)
    requires ValidCrypto(c) && PairOf(c, username, password, s1, s256).Ok?
    ensures UserLogsIn(c, username, password, PairOf(c, username, password, s1, s256).value)
  {
    ComputedLogsIn(c, c.sha1, 10000, Encode(s1), c.md5Hex(username + ":mongo:" + password));
    ComputedLogsIn(c, c.sha256, 15000, Encode(s256), password);
  }

  /** The secret holds this password under its key. */
  predicate HoldsPassword(store: Store, user: User, password: string) {
    user.passwordSecretName in store && user.passwordSecretKey in store[user.passwordSecretName]
    && store[user.passwordSecretName][user.passwordSecretKey] == password
  }

  /**
   * Every call that succeeds with the password at hand returns credentials with which both kinds of clients log in: those of
   * SCRAM-SHA-1 with the digest of user name and password, those of SCRAM-SHA-256 with the password itself.
   */
  lemma SuccessLogsIn(c: Crypto, user: User, password: string, store: Store, sha1Salt: Bytes, sha256Salt: Bytes,
                      f: ScramFaults)
    requires ValidCrypto(c) && HoldsPassword(store, user, password)
    requires EnsureSpec(c, user, store, sha1Salt, sha256Salt, f).result.Ok?
    ensures UserLogsIn(c, user.username, password, EnsureSpec(c, user, store, sha1Salt, sha256Salt, f).result.value)
  {
    SuccessBelongsToPassword(c, user, password, store, sha1Salt, sha256Salt, f);
    var s1: Bytes, s256: Bytes :| PairOf(c, user.username, password, s1, s256).Ok?
                                  && PairOf(c, user.username, password, s1, s256).value
                                     == EnsureSpec(c, user, store, sha1Salt, sha256Salt, f).result.value;
    PairLogsIn(c, user.username, password, s1, s256);
  }

  // ---------------------------------------------------------------- what a call does, case by case

  /** The fields of a credentials secret. */
  predicate HoldsCredentials(store: Store, name: string, pair: CredentialPair) {
    && name in store
    && store[name] == map["sha1-salt" := pair.sha1.salt, "sha256-salt" := pair.sha256.salt,
                          "sha-1-server-key" := pair.sha1.serverKey, "sha-256-server-key" := pair.sha256.serverKey,
                          "sha-1-stored-key" := pair.sha1.storedKey, "sha-256-stored-key" := pair.sha256.storedKey]
  }

  /** The two salts have the sizes that the hashes demand, four octets less than their digests. */
  predicate SaltsFit(c: Crypto, sha1Salt: Bytes, sha256Salt: Bytes) {
    |sha1Salt| + 4 == c.sha1.size && |sha256Salt| + 4 == c.sha256.size
  }

  lemma PairExistsExactly(c: Crypto, username: string, password: string, sha1Salt: Bytes, sha256Salt: Bytes)
    requires ValidCrypto(c) && SaltsFit(c, sha1Salt, sha256Salt)
    ensures var r := PairOf(c, username, password, sha1Salt, sha256Salt);
            && (r.Ok? <==> c.saslPrep(c.md5Hex(username + ":mongo:" + password)).Some? && c.saslPrep(password).Some?)
            && (r.Ok? ==> Decode(r.value.sha1.salt) == Some(sha1Salt) && Decode(r.value.sha256.salt) == Some(sha256Salt))
  {
    CredentialsExistExactly(c, c.sha1, 10000, sha1Salt, c.md5Hex(username + ":mongo:" + password));
    CredentialsExistExactly(c, c.sha256, 15000, sha256Salt, password);
    RoundTrip(sha1Salt);
    RoundTrip(sha256Salt);
  }

  lemma FirstCallGenerates(c: Crypto, user: User, password: string, store: Store, sha1Salt: Bytes, sha256Salt: Bytes,
                           f: ScramFaults)
    requires ValidCrypto(c) && HoldsPassword(store, user, password) && user.scramCredentialsSecretName !in store
    ensures var e := EnsureSpec(c, user, store, sha1Salt, sha256Salt, f);
            if f.passwordRead || f.saltRead then e.result.Err? && !e.written && e.store == store
            else e == GenerateSpec(c, user, password, store, sha1Salt, sha256Salt, f)
  {
  }

  lemma SecretHasFields(store: Store, name: string, pair: CredentialPair)
    requires name !in store
    ensures HoldsCredentials(store[name := SecretData(pair)], name, pair)
    ensures store[name := SecretData(pair)] - {name} == store
  {
  }

  lemma GeneratedExactly(c: Crypto, user: User, password: string, store: Store, sha1Salt: Bytes, sha256Salt: Bytes,
                         f: ScramFaults)
    requires ValidCrypto(c) && SaltsFit(c, sha1Salt, sha256Salt) && user.scramCredentialsSecretName !in store
    ensures var e, name := GenerateSpec(c, user, password, store, sha1Salt, sha256Salt, f), user.scramCredentialsSecretName;
            && (e.result.Ok? <==>
                && !f.random && !f.update && !f.create
                && c.saslPrep(c.md5Hex(user.username + ":mongo:" + password)).Some? && c.saslPrep(password).Some?)
            && e.written == e.result.Ok?
            && (e.result.Ok? ==>
                  && HoldsCredentials(e.store, name, e.result.value) && e.store - {name} == store
                  && Decode(e.result.value.sha1.salt) == Some(sha1Salt)
                  && Decode(e.result.value.sha256.salt) == Some(sha256Salt))
            && (e.result.Err? ==> e.store == store)
  {
    PairExistsExactly(c, user.username, password, sha1Salt, sha256Salt);
    var pair := PairOf(c, user.username, password, sha1Salt, sha256Salt);
    if pair.Ok? {
      SecretHasFields(store, user.scramCredentialsSecretName, pair.value);
    }
  }

  /**
   * The first call for a user with a password: it succeeds exactly when nothing fails and both secrets can be prepared; it
   * then stores the six fields, with the salts that it was given, and nothing else changes.
   */
  lemma FirstCallExactly(c: Crypto, user: User, password: string, store: Store, sha1Salt: Bytes, sha256Salt: Bytes,
                         f: ScramFaults)
    requires ValidCrypto(c) && HoldsPassword(store, user, password) && user.scramCredentialsSecretName !in store
    requires SaltsFit(c, sha1Salt, sha256Salt)
    ensures var e, name := EnsureSpec(c, user, store, sha1Salt, sha256Salt, f), user.scramCredentialsSecretName;
            && (e.result.Ok? <==>
                && !f.passwordRead && !f.saltRead && !f.random && !f.update && !f.create
                && c.saslPrep(c.md5Hex(user.username + ":mongo:" + password)).Some? && c.saslPrep(password).Some?)
            && e.written == e.result.Ok?
            && (e.result.Ok? ==>
                  && HoldsCredentials(e.store, name, e.result.value) && e.store - {name} == store
                  && Decode(e.result.value.sha1.salt) == Some(sha1Salt)
                  && Decode(e.result.value.sha256.salt) == Some(sha256Salt))
            && (e.result.Err? ==> e.store == store)
  {
    FirstCallGenerates(c, user, password, store, sha1Salt, sha256Salt, f);
    GeneratedExactly(c, user, password, store, sha1Salt, sha256Salt, f);
  }

  /**
   * A call for a user whose password secret is gone: it writes nothing, and returns the stored credentials exactly when
   * they can be read and have all keys but possibly the stored key of SCRAM-SHA-1.
   */
  lemma CallWithoutPasswordExactly(c: Crypto, user: User, store: Store, sha1Salt: Bytes, sha256Salt: Bytes,
                                   f: ScramFaults)
    requires ValidCrypto(c) && user.passwordSecretName !in store
    ensures var e, name := EnsureSpec(c, user, store, sha1Salt, sha256Salt, f), user.scramCredentialsSecretName;
            && e.store == store && !e.written
            && (e.result.Ok? <==>
                && !f.passwordRead && !f.reuseRead && name in store
                && {"sha1-salt", "sha256-salt", "sha-1-server-key", "sha-256-server-key", "sha-256-stored-key"}
                   <= store[name].Keys)
            && (e.result.Ok? && "sha-1-stored-key" in store[name] ==>
                  var pair, data := e.result.value, store[name];
                  && pair.sha1 == ScramCreds(10000, data["sha1-salt"], data["sha-1-server-key"], data["sha-1-stored-key"])
                  && pair.sha256
                     == ScramCreds(15000, data["sha256-salt"], data["sha-256-server-key"], data["sha-256-stored-key"]))
  {
    if user.scramCredentialsSecretName in store {
      CompletenessMissesOneKey(store, user.scramCredentialsSecretName);
    }
  }

  /** Calls that can tell early that they cannot succeed: nothing is written, and the error says why. */
  lemma EarlyErrors(c: Crypto, user: User, store: Store, sha1Salt: Bytes, sha256Salt: Bytes, f: ScramFaults)
    requires ValidCrypto(c)
    ensures var e := EnsureSpec(c, user, store, sha1Salt, sha256Salt, f);
            var p, n := user.passwordSecretName, user.scramCredentialsSecretName;
            && (f.passwordRead ==> e.result == Err(SecretFailed(ApiError)) && e.store == store)
            && (!f.passwordRead && p in store && user.passwordSecretKey !in store[p] ==>
                  e.result == Err(SecretFailed(KeyMissing)) && e.store == store)
            && (!f.passwordRead && p !in store && n !in store && !f.reuseRead ==>
                  e.result == Err(SecretFailed(SecretNotFound)) && e.store == store)
  {
  }
}
