/**
 * The credentials of one SCRAM user: generated when there are none or when the password has changed, read back
 * otherwise, also after the password secret is gone.
 */
module Scram {
  import opened AuthTypes
  import opened Base64
  import opened ScramCredentials
  import opened Secrets
  import opened Wrappers

  const SHA1_SALT_KEY := "sha1-salt"
  const SHA256_SALT_KEY := "sha256-salt"
  const SHA1_SERVER_KEY_KEY := "sha-1-server-key"
  const SHA256_SERVER_KEY_KEY := "sha-256-server-key"
  const SHA1_STORED_KEY_KEY := "sha-1-stored-key"
  const SHA256_STORED_KEY_KEY := "sha-256-stored-key"

  /** The keys whose presence is checked: one server key twice, and one stored key not at all. */
  const CHECKED_KEYS := [SHA1_SALT_KEY, SHA1_SERVER_KEY_KEY, SHA1_SERVER_KEY_KEY, SHA256_SALT_KEY, SHA256_SERVER_KEY_KEY,
                         SHA256_STORED_KEY_KEY]

  /** Which API calls of one call fail, in their order, and whether the random generator does. */
  datatype ScramFaults = ScramFaults(passwordRead: bool, saltRead: bool, compareRead: bool, reuseRead: bool, random: bool,
                                     update: bool, create: bool)

  datatype EnsureError =
    | SecretFailed(secretError: SecretError) | MissingKeys | Malformed | NotComputable(scramError: ScramError) | NoRandom

  // ---------------------------------------------------------------- specification

  function SecretData(p: CredentialPair): Data {
    map[SHA1_SALT_KEY := p.sha1.salt, SHA1_STORED_KEY_KEY := p.sha1.storedKey, SHA1_SERVER_KEY_KEY := p.sha1.serverKey,
        SHA256_SALT_KEY := p.sha256.salt, SHA256_STORED_KEY_KEY := p.sha256.storedKey,
        SHA256_SERVER_KEY_KEY := p.sha256.serverKey]
  }

  function PairIn(data: Data): CredentialPair {
    CredentialPair(
      ScramCreds(DEFAULT_SHA1_ITERATIONS, FieldOf(data, SHA1_SALT_KEY), FieldOf(data, SHA1_SERVER_KEY_KEY),
                 FieldOf(data, SHA1_STORED_KEY_KEY)),
      ScramCreds(DEFAULT_SHA256_ITERATIONS, FieldOf(data, SHA256_SALT_KEY), FieldOf(data, SHA256_SERVER_KEY_KEY),
                 FieldOf(data, SHA256_STORED_KEY_KEY)))
  }

  function ReadExisting(store: Store, name: string, fails: bool): Result<CredentialPair, EnsureError> {
    match GetSpec(store, name, fails)
    case Err(e) => Err(SecretFailed(e))
    case Ok(data) => if forall k :: k in CHECKED_KEYS ==> k in data then Ok(PairIn(data)) else Err(MissingKeys)
  }

  /** Whether these stored fields are other credentials than the password would give with the stored salts. */
  ghost function Differs(c: Crypto, username: string, password: string, data: Data, reread: Result<CredentialPair,
                         EnsureError>):
    Result<bool, EnsureError>
    requires ValidCrypto(c)
  {
    match (Decode(FieldOf(data, SHA1_SALT_KEY)), Decode(FieldOf(data, SHA256_SALT_KEY)))
    case (Some(sha1Salt), Some(sha256Salt)) =>
      (match PairOf(c, username, password, sha1Salt, sha256Salt)
       case Err(e) => Err(NotComputable(e))
       case Ok(computed) => if reread.Err? then Err(reread.error) else Ok(computed != reread.value))
    case _ => Err(Malformed)
  }

  ghost function NeedSpec(c: Crypto, user: User, password: string, store: Store, f: ScramFaults): Result<bool,
      EnsureError>
    requires ValidCrypto(c)
  {
    var name := user.scramCredentialsSecretName;
    match GetSpec(store, name, f.saltRead)
    case Err(SecretNotFound) => Ok(true)
    case Err(e) => Err(SecretFailed(e))
    case Ok(data) => Differs(c, user.username, password, data, ReadExisting(store, name, f.compareRead))
  }

  /** The store, the credentials, and whether they were written. */
  datatype EnsuredCreds = EnsuredCreds(store: Store, result: Result<CredentialPair, EnsureError>, written: bool)

  ghost function GenerateSpec(c: Crypto, user: User, password: string, store: Store, sha1Salt: Bytes,
                              sha256Salt: Bytes, f: ScramFaults):
    EnsuredCreds
    requires ValidCrypto(c)
  {
    if f.random then EnsuredCreds(store, Err(NoRandom), false) else
    match PairOf(c, user.username, password, sha1Salt, sha256Salt)
    case Err(e) => EnsuredCreds(store, Err(NotComputable(e)), false)
    case Ok(pair) =>
      if f.update || (user.scramCredentialsSecretName !in store && f.create)
      then EnsuredCreds(store, Err(SecretFailed(ApiError)), false)
      else EnsuredCreds(store[user.scramCredentialsSecretName := SecretData(pair)], Ok(pair), true)
  }

  ghost function EnsureSpec(c: Crypto, user: User, store: Store, sha1Salt: Bytes, sha256Salt: Bytes,
                            f: ScramFaults): EnsuredCreds
    requires ValidCrypto(c)
  {
    var existing := ReadExisting(store, user.scramCredentialsSecretName, f.reuseRead);
    match ReadKeySpec(store, user.passwordSecretName, user.passwordSecretKey, f.passwordRead)
    case Err(SecretNotFound) => EnsuredCreds(store, existing, false)
    case Err(e) => EnsuredCreds(store, Err(SecretFailed(e)), false)
    case Ok(password) =>
      match NeedSpec(c, user, password, store, f)
      case Err(e) => EnsuredCreds(store, Err(e), false)
      case Ok(false) => EnsuredCreds(store, existing, false)
      case Ok(true) => GenerateSpec(c, user, password, store, sha1Salt, sha256Salt, f)
  }

  // ---------------------------------------------------------------- the imperative code

  method ReadExistingCredentials(s: SecretStore, name: string, fails: bool)
    returns (r: Result<CredentialPair, EnsureError>)
    ensures r == ReadExisting(s.secrets, name, fails)
  {
    var data := s.GetSecret(name, fails);
    if data.Err? {
      return Err(SecretFailed(data.error));
    }
    var complete := HasAllKeys(data.value, CHECKED_KEYS);
    if !complete {
      return Err(MissingKeys);
    }
    return Ok(PairIn(data.value));
  }

  method NeedToGenerateNewCredentials(c: Crypto, s: SecretStore, user: User, password: string, f: ScramFaults)
    returns (r: Result<bool, EnsureError>)
    requires ValidCrypto(c)
    ensures r == NeedSpec(c, user, password, s.secrets, f)
  {
    var data := s.GetSecret(user.scramCredentialsSecretName, f.saltRead);
    if data.Err? {
      return if data.error.SecretNotFound? then Ok(true) else Err(SecretFailed(data.error));
    }
    var sha1Salt := Decode(FieldOf(data.value, SHA1_SALT_KEY));
    if sha1Salt.None? {
      return Err(Malformed);
    }
    var sha256Salt := Decode(FieldOf(data.value, SHA256_SALT_KEY));
    if sha256Salt.None? {
      return Err(Malformed);
    }
    var computed := ComputeScramShaCredentials(c, user.username, password, sha1Salt.value, sha256Salt.value);
    if computed.Err? {
      return Err(NotComputable(computed.error));
    }
    var existing := ReadExistingCredentials(s, user.scramCredentialsSecretName, f.compareRead);
    if existing.Err? {
      return Err(existing.error);
    }
    var sha1CredsAreDifferent := computed.value.sha1 != existing.value.sha1;
    var sha256CredsAreDifferent := computed.value.sha256 != existing.value.sha256;
    return Ok(sha1CredsAreDifferent || sha256CredsAreDifferent);
  }

  method GenerateAndStore(c: Crypto, s: SecretStore, user: User, password: string, sha1Salt: Bytes, sha256Salt: Bytes,
                          f: ScramFaults)
    returns (r: Result<CredentialPair, EnsureError>)
    requires ValidCrypto(c)
    modifies s
    ensures var e := GenerateSpec(c, user, password, old(s.secrets), sha1Salt, sha256Salt, f);
            r == e.result && s.secrets == e.store && s.writes == old(s.writes) + (if e.written then 1 else 0)
  {
    if f.random {
      return Err(NoRandom);
    }
    var pair := ComputeScramShaCredentials(c, user.username, password, sha1Salt, sha256Salt);
    if pair.Err? {
      return Err(NotComputable(pair.error));
    }
    var stored := s.CreateOrUpdate(user.scramCredentialsSecretName, SecretData(pair.value), f.update, f.create);
    if stored.Err? {
      return Err(SecretFailed(stored.error));
    }
    return Ok(pair.value);
  }

  method EnsureScramCredentials(c: Crypto, s: SecretStore, user: User, sha1Salt: Bytes, sha256Salt: Bytes,
                                f: ScramFaults)
    returns (r: Result<CredentialPair, EnsureError>)
    requires ValidCrypto(c)
    modifies s
    ensures var e := EnsureSpec(c, user, old(s.secrets), sha1Salt, sha256Salt, f);
            r == e.result && s.secrets == e.store && s.writes == old(s.writes) + (if e.written then 1 else 0)
  {
    var password := s.ReadKey(user.passwordSecretName, user.passwordSecretKey, f.passwordRead);
    if password.Err? {
      if password.error.SecretNotFound? {
        r := ReadExistingCredentials(s, user.scramCredentialsSecretName, f.reuseRead);
        return;
      }
      return Err(SecretFailed(password.error));
    }
    var needed := NeedToGenerateNewCredentials(c, s, user, password.value, f);
    if needed.Err? {
      return Err(needed.error);
    }
    if !needed.value {
      r := ReadExistingCredentials(s, user.scramCredentialsSecretName, f.reuseRead);
      return;
    }
    r := GenerateAndStore(c, s, user, password.value, sha1Salt, sha256Salt, f);
  }

  // ---------------------------------------------------------------- one call

  /** Storing credentials and reading them back gives the same pair. */
  lemma StoredPairReadsBack(store: Store, name: string, p: CredentialPair)
    requires p.sha1.iterationCount == DEFAULT_SHA1_ITERATIONS && p.sha256.iterationCount == DEFAULT_SHA256_ITERATIONS
    ensures ReadExisting(store[name := SecretData(p)], name, false) == Ok(p)
  {
  }

  /** Credentials that were computed are found unchanged when they are computed again from their stored salts. */
  lemma ComputedPairMatches(c: Crypto, username: string, password: string, sha1Salt: Bytes, sha256Salt: Bytes,
                            data: Data)
    requires ValidCrypto(c) && PairOf(c, username, password, sha1Salt, sha256Salt).Ok?
    requires PairIn(data) == PairOf(c, username, password, sha1Salt, sha256Salt).value
    ensures Differs(c, username, password, data, Ok(PairIn(data))) == Ok(false)
  {
    RoundTrip(sha1Salt);
    RoundTrip(sha256Salt);
  }

  const CALM := ScramFaults(false, false, false, false, false, false, false)

  /** The stored pair is readable, and it belongs to the password as long as there is one. */
  ghost predicate Established(c: Crypto, user: User, store: Store, pair: CredentialPair)
    requires ValidCrypto(c)
  {
    && ReadExisting(store, user.scramCredentialsSecretName, false) == Ok(pair)
    && match ReadKeySpec(store, user.passwordSecretName, user.passwordSecretKey, false)
       case Err(e) => e.SecretNotFound?
       case Ok(password) => NeedSpec(c, user, password, store, CALM) == Ok(false)
  }

  /** Once a pair is established, a call returns it or fails, and writes nothing; without failures it returns it. */
  lemma EstablishedIsReused(c: Crypto, user: User, store: Store, pair: CredentialPair, sha1Salt: Bytes,
                            sha256Salt: Bytes, f: ScramFaults)
    requires ValidCrypto(c) && Established(c, user, store, pair)
    ensures var e := EnsureSpec(c, user, store, sha1Salt, sha256Salt, f);
            e.store == store && !e.written && (e.result.Ok? ==> e.result == Ok(pair))
                && (f == CALM ==> e.result == Ok(pair))
  {
  }

  /** Freshly generated credentials are found unchanged by the next call. */
  lemma GeneratedIsFound(c: Crypto, user: User, password: string, store: Store, sha1Salt: Bytes, sha256Salt: Bytes,
                         f: ScramFaults)
    requires ValidCrypto(c) && GenerateSpec(c, user, password, store, sha1Salt, sha256Salt, f).result.Ok?
    ensures var e := GenerateSpec(c, user, password, store, sha1Salt, sha256Salt, f);
            && ReadExisting(e.store, user.scramCredentialsSecretName, false) == e.result
            && NeedSpec(c, user, password, e.store, CALM) == Ok(false)
            && e.store == store[user.scramCredentialsSecretName := SecretData(e.result.value)]
  {
    var e := GenerateSpec(c, user, password, store, sha1Salt, sha256Salt, f);
    StoredPairReadsBack(store, user.scramCredentialsSecretName, e.result.value);
    ComputedPairMatches(c, user.username, password, sha1Salt, sha256Salt, SecretData(e.result.value));
  }

  /** A call writes only what it generates from the password. */
  lemma WritesWhatItGenerates(c: Crypto, user: User, store: Store, sha1Salt: Bytes, sha256Salt: Bytes, f: ScramFaults)
    requires ValidCrypto(c) && EnsureSpec(c, user, store, sha1Salt, sha256Salt, f).written
    ensures var password := ReadKeySpec(store, user.passwordSecretName, user.passwordSecretKey, false);
            && password.Ok?
            && EnsureSpec(c, user, store, sha1Salt, sha256Salt, f)
               == GenerateSpec(c, user, password.value, store, sha1Salt, sha256Salt, f)
            && GenerateSpec(c, user, password.value, store, sha1Salt, sha256Salt, f).result.Ok?
  {
  }

  /** A call that succeeds establishes what it returns. */
  lemma SuccessEstablishes(c: Crypto, user: User, store: Store, sha1Salt: Bytes, sha256Salt: Bytes, f: ScramFaults)
    requires ValidCrypto(c) && user.passwordSecretName != user.scramCredentialsSecretName
    requires EnsureSpec(c, user, store, sha1Salt, sha256Salt, f).result.Ok?
    ensures var e := EnsureSpec(c, user, store, sha1Salt, sha256Salt, f);
            Established(c, user, e.store, e.result.value)
  {
    if EnsureSpec(c, user, store, sha1Salt, sha256Salt, f).written {
      var password := ReadKeySpec(store, user.passwordSecretName, user.passwordSecretKey, false).value;
      WritesWhatItGenerates(c, user, store, sha1Salt, sha256Salt, f);
      GeneratedIsFound(c, user, password, store, sha1Salt, sha256Salt, f);
    } else {
      ReuseEstablishes(c, user, store, sha1Salt, sha256Salt, f);
    }
  }

  lemma ReuseEstablishes(c: Crypto, user: User, store: Store, sha1Salt: Bytes, sha256Salt: Bytes, f: ScramFaults)
    requires ValidCrypto(c)
    requires var e := EnsureSpec(c, user, store, sha1Salt, sha256Salt, f); e.result.Ok? && !e.written
    ensures var e := EnsureSpec(c, user, store, sha1Salt, sha256Salt, f);
            e.store == store && Established(c, user, store, e.result.value)
  {
  }

  /** With the password at hand, what a call returns are credentials of that password. */
  lemma SuccessBelongsToPassword(c: Crypto, user: User, password: string, store: Store, sha1Salt: Bytes,
                                 sha256Salt: Bytes, f: ScramFaults)
    requires ValidCrypto(c)
             && ReadKeySpec(store, user.passwordSecretName, user.passwordSecretKey, false) == Ok(password)
    requires EnsureSpec(c, user, store, sha1Salt, sha256Salt, f).result.Ok?
    ensures exists s1: Bytes, s256: Bytes ::
              PairOf(c, user.username, password, s1, s256).Ok?
              && PairOf(c, user.username, password, s1, s256).value
                 == EnsureSpec(c, user, store, sha1Salt, sha256Salt, f).result.value
  {
    if EnsureSpec(c, user, store, sha1Salt, sha256Salt, f).written {
      assert PairOf(c, user.username, password, sha1Salt, sha256Salt).Ok?;
    } else {
      ReuseEstablishes(c, user, store, sha1Salt, sha256Salt, f);
      ReusedBelongsToPassword(c, user, password, store);
    }
  }

  lemma ReusedBelongsToPassword(c: Crypto, user: User, password: string, store: Store)
    requires ValidCrypto(c) && NeedSpec(c, user, password, store, CALM) == Ok(false)
    ensures exists s1: Bytes, s256: Bytes ::
              PairOf(c, user.username, password, s1, s256).Ok?
              && PairOf(c, user.username, password, s1, s256).value
                 == ReadExisting(store, user.scramCredentialsSecretName, false).value
  {
    var data := store[user.scramCredentialsSecretName];
    var s1, s256 := Decode(FieldOf(data, SHA1_SALT_KEY)).value, Decode(FieldOf(data, SHA256_SALT_KEY)).value;
    assert PairOf(c, user.username, password, s1, s256).Ok?;
  }

  // ---------------------------------------------------------------- runs

  /** Calls for one user, and everything else that happens to the secrets of the namespace. */
  datatype Event = Ensures(sha1Salt: Bytes, sha256Salt: Bytes, faults: ScramFaults) | Environment(store: Store)

  ghost function Step(c: Crypto, user: User, store: Store, e: Event): Store
    requires ValidCrypto(c)
  {
    match e
    case Ensures(sha1Salt, sha256Salt, faults) => EnsureSpec(c, user, store, sha1Salt, sha256Salt, faults).store
    case Environment(next) => next
  }

  ghost function After(c: Crypto, user: User, store: Store, events: seq<Event>): Store
    requires ValidCrypto(c)
  {
    if events == [] then store else Step(c, user, After(c, user, store, events[..|events| - 1]), events[|events| - 1])
  }

  /** The password secret may be deleted for good but not changed, and nobody else touches the credentials. */
  predicate KeepsUser(user: User, before: Store, after: Store) {
    && (user.scramCredentialsSecretName in after <==> user.scramCredentialsSecretName in before)
    && (user.scramCredentialsSecretName in before ==>
          after[user.scramCredentialsSecretName] == before[user.scramCredentialsSecretName])
    && (user.passwordSecretName in after ==>
          user.passwordSecretName in before && after[user.passwordSecretName] == before[user.passwordSecretName])
  }

  ghost predicate AllowedRun(c: Crypto, user: User, store: Store, events: seq<Event>)
    requires ValidCrypto(c)
  {
    events == [] ||
    (var front, last := events[..|events| - 1], events[|events| - 1];
     AllowedRun(c, user, store, front)
         && (last.Environment? ==> KeepsUser(user, After(c, user, store, front), last.store)))
  }

  /** What the k-th event, a call, does. */
  ghost function CallAt(c: Crypto, user: User, store: Store, events: seq<Event>, k: nat): EnsuredCreds
    requires ValidCrypto(c) && k < |events| && events[k].Ensures?
  {
    EnsureSpec(c, user, After(c, user, store, events[..k]), events[k].sha1Salt, events[k].sha256Salt, events[k].faults)
  }

  lemma EnvironmentKeepsEstablished(c: Crypto, user: User, before: Store, after: Store, pair: CredentialPair)
    requires ValidCrypto(c) && Established(c, user, before, pair) && KeepsUser(user, before, after)
    ensures Established(c, user, after, pair)
  {
  }

  lemma {:induction false} StaysEstablished(c: Crypto, user: User, store: Store, events: seq<Event>, i: nat, k: nat)
    requires ValidCrypto(c) && user.passwordSecretName != user.scramCredentialsSecretName
    requires AllowedRun(c, user, store, events) && i < k <= |events|
    requires events[i].Ensures? && CallAt(c, user, store, events, i).result.Ok?
    ensures Established(c, user, After(c, user, store, events[..k]), CallAt(c, user, store, events, i).result.value)
    ensures AllowedRun(c, user, store, events[..k])
    decreases |events| + |events| - k
  {
    if k < |events| {
      var front := events[..|events| - 1];
      assert front[..k] == events[..k] && front[..i] == events[..i];
      StaysEstablished(c, user, store, front, i, k);
    } else {
      var front, last := events[..k - 1], events[k - 1];
      assert events[..k] == events && front[..i] == events[..i];
      var before := After(c, user, store, front);
      if i == k - 1 {
        SuccessEstablishes(c, user, before, last.sha1Salt, last.sha256Salt, last.faults);
      } else {
        StaysEstablished(c, user, store, front, i, k - 1);
        assert front[..k - 1] == front;
        var pair := CallAt(c, user, store, events, i).result.value;
        if last.Ensures? {
          EstablishedIsReused(c, user, before, pair, last.sha1Salt, last.sha256Salt, last.faults);
        } else {
          EnvironmentKeepsEstablished(c, user, before, last.store, pair);
        }
      }
    }
  }

  /**
   * In every run from any secrets, with any salts and failures, in which the password is not changed but may be deleted:
   * after the first call that succeeds no call writes anything, every call that succeeds returns the same pair, and a
   * call without failures succeeds.  So the credentials are written at most once.
   */
  lemma CredentialsAreStable(c: Crypto, user: User, store: Store, events: seq<Event>, i: nat, k: nat)
    requires ValidCrypto(c) && user.passwordSecretName != user.scramCredentialsSecretName
    requires AllowedRun(c, user, store, events) && i < k < |events| && events[i].Ensures? && events[k].Ensures?
    requires CallAt(c, user, store, events, i).result.Ok?
    ensures var first, later := CallAt(c, user, store, events, i), CallAt(c, user, store, events, k);
            && !later.written
            && (later.result.Ok? ==> later.result == first.result)
            && (events[k].faults == CALM ==> later.result.Ok?)
  {
    StaysEstablished(c, user, store, events, i, k);
    EstablishedIsReused(c, user, After(c, user, store, events[..k]), CallAt(c, user, store, events, i).result.value,
                        events[k].sha1Salt, events[k].sha256Salt, events[k].faults);
  }

  /** In particular no two calls of such a run both write. */
  lemma WrittenAtMostOnce(c: Crypto, user: User, store: Store, events: seq<Event>, i: nat, k: nat)
    requires ValidCrypto(c) && user.passwordSecretName != user.scramCredentialsSecretName
    requires AllowedRun(c, user, store, events) && i < k < |events| && events[i].Ensures? && events[k].Ensures?
    ensures !CallAt(c, user, store, events, i).written || !CallAt(c, user, store, events, k).written
  {
    if CallAt(c, user, store, events, i).written {
      var e := events[i];
      WritesWhatItGenerates(c, user, After(c, user, store, events[..i]), e.sha1Salt, e.sha256Salt, e.faults);
      CredentialsAreStable(c, user, store, events, i, k);
    }
  }

  // ---------------------------------------------------------------- where stability does not hold

  predicate IsCredentialKey(key: string) {
    key in {SHA1_SALT_KEY, SHA256_SALT_KEY, SHA1_SERVER_KEY_KEY, SHA256_SERVER_KEY_KEY, SHA1_STORED_KEY_KEY, SHA256_STORED_KEY_KEY}
  }

  lemma OnlyCredentialKeysAreStored(p: CredentialPair, key: string)
    ensures key in SecretData(p) <==> IsCredentialKey(key)
  {
  }

  /**
   * With one secret for both purposes every call fails and writes nothing while the secret holds no complete credentials,
   * whatever the salts and API failures: stored credentials are compared with the password before any are generated.
   */
  lemma SharedSecretFails(c: Crypto, user: User, store: Store, sha1Salt: Bytes, sha256Salt: Bytes, f: ScramFaults)
    requires ValidCrypto(c) && user.passwordSecretName == user.scramCredentialsSecretName
    requires ReadExisting(store, user.scramCredentialsSecretName, false).Err?
    ensures var e := EnsureSpec(c, user, store, sha1Salt, sha256Salt, f);
            e.result.Err? && !e.written && e.store == store
  {
  }

  lemma {:induction false} SharedSecretStaysEmpty(c: Crypto, user: User, store: Store, events: seq<Event>)
    requires ValidCrypto(c) && user.passwordSecretName == user.scramCredentialsSecretName
    requires ReadExisting(store, user.scramCredentialsSecretName, false).Err? && AllowedRun(c, user, store, events)
    ensures ReadExisting(After(c, user, store, events), user.scramCredentialsSecretName, false).Err?
  {
    if events != [] {
      var front, last := events[..|events| - 1], events[|events| - 1];
      SharedSecretStaysEmpty(c, user, store, front);
      if last.Ensures? {
        SharedSecretFails(c, user, After(c, user, store, front), last.sha1Salt, last.sha256Salt, last.faults);
      }
    }
  }

  lemma {:induction false} PrefixIsAllowed(c: Crypto, user: User, store: Store, events: seq<Event>, k: nat)
    requires ValidCrypto(c) && AllowedRun(c, user, store, events) && k <= |events|
    ensures AllowedRun(c, user, store, events[..k])
  {
    if k == |events| {
      assert events[..k] == events;
    } else {
      var front := events[..|events| - 1];
      assert front[..k] == events[..k];
      PrefixIsAllowed(c, user, store, front, k);
    }
  }

  /** So over every run in which nobody else puts credentials into the secret, no call succeeds and none writes. */
  lemma SharedSecretNeverWorks(c: Crypto, user: User, store: Store, events: seq<Event>, k: nat)
    requires ValidCrypto(c) && user.passwordSecretName == user.scramCredentialsSecretName
    requires ReadExisting(store, user.scramCredentialsSecretName, false).Err? && AllowedRun(c, user, store, events)
    requires k < |events| && events[k].Ensures?
    ensures CallAt(c, user, store, events, k).result.Err? && !CallAt(c, user, store, events, k).written
  {
    PrefixIsAllowed(c, user, store, events, k);
    SharedSecretStaysEmpty(c, user, store, events[..k]);
    SharedSecretFails(c, user, After(c, user, store, events[..k]), events[k].sha1Salt, events[k].sha256Salt, events[k].faults);
  }

  /**
   * Complete credentials get into such a secret by hand only.  If the password no longer belongs to them, writing the new
   * ones loses it: the next call fails, whatever the salts and API failures, unless the password was kept under one of
   * the six credential keys.
   */
  lemma SharedSecretLosesPassword(c: Crypto, user: User, store: Store, sha1Salt: Bytes, sha256Salt: Bytes,
                                  f: ScramFaults, sha1Salt': Bytes, sha256Salt': Bytes, f': ScramFaults)
    requires ValidCrypto(c) && user.passwordSecretName == user.scramCredentialsSecretName
    requires !IsCredentialKey(user.passwordSecretKey)
    requires EnsureSpec(c, user, store, sha1Salt, sha256Salt, f).written
    ensures EnsureSpec(c, user, EnsureSpec(c, user, store, sha1Salt, sha256Salt, f).store, sha1Salt', sha256Salt', f').result.Err?
  {
    WritesWhatItGenerates(c, user, store, sha1Salt, sha256Salt, f);
    var password := ReadKeySpec(store, user.passwordSecretName, user.passwordSecretKey, false).value;
    GeneratedIsFound(c, user, password, store, sha1Salt, sha256Salt, f);
    var e := GenerateSpec(c, user, password, store, sha1Salt, sha256Salt, f);
    OnlyCredentialKeysAreStored(e.result.value, user.passwordSecretKey);
    LostPasswordFails(c, user, e.store, sha1Salt', sha256Salt', f');
  }

  lemma LostPasswordFails(c: Crypto, user: User, store: Store, sha1Salt: Bytes, sha256Salt: Bytes, f: ScramFaults)
    requires ValidCrypto(c)
             && ReadKeySpec(store, user.passwordSecretName, user.passwordSecretKey, false) == Err(KeyMissing)
    ensures EnsureSpec(c, user, store, sha1Salt, sha256Salt, f).result.Err?
  {
  }

  /**
   * Stored credentials are accepted as complete although a stored key is missing: exactly the SHA-1 stored key is not
   * asked for.  Without the password secret it is then handed out as the empty string.
   */
  lemma CompletenessMissesOneKey(store: Store, name: string)
    requires name in store
    ensures ReadExisting(store, name, false).Ok?
       <==> {SHA1_SALT_KEY, SHA256_SALT_KEY, SHA1_SERVER_KEY_KEY, SHA256_SERVER_KEY_KEY, SHA256_STORED_KEY_KEY} <= store[name].Keys
    ensures ReadExisting(store, name, false).Ok? && SHA1_STORED_KEY_KEY !in store[name] ==>
              ReadExisting(store, name, false).value.sha1.storedKey == ""
  {
    var asked := {SHA1_SALT_KEY, SHA256_SALT_KEY, SHA1_SERVER_KEY_KEY, SHA256_SERVER_KEY_KEY, SHA256_STORED_KEY_KEY};
    forall k: string
      ensures k in CHECKED_KEYS <==> k in asked
    {
      assert CHECKED_KEYS[0] == SHA1_SALT_KEY && CHECKED_KEYS[1] == SHA1_SERVER_KEY_KEY
             && CHECKED_KEYS[3] == SHA256_SALT_KEY
             && CHECKED_KEYS[4] == SHA256_SERVER_KEY_KEY && CHECKED_KEYS[5] == SHA256_STORED_KEY_KEY;
    }
  }
}
