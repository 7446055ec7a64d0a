/** Users, names and secrets that are not treated as is written about them, on inputs that the operator can receive. */
module WitnessUsers {
  import opened AuthTypes
  import opened Base64
  import opened NormalizeName
  import opened Scram
  import opened ScramCredentials
  import opened Secrets
  import opened Validation
  import opened Wrappers

  // ---------------------------------------------------------------- secrets

  /** All keys that are asked for, and the SHA-1 stored key missing: what is read has an empty stored key. */
  lemma MissingStoredKeyGoesUnnoticed(salt: string, key: string)
    ensures var data := map[SHA1_SALT_KEY := salt, SHA1_SERVER_KEY_KEY := key, SHA256_SALT_KEY := salt,
                            SHA256_SERVER_KEY_KEY := key, SHA256_STORED_KEY_KEY := key];
            var read := ReadExisting(map["creds" := data], "creds", false);
            read.Ok? && read.value.sha1.storedKey == ""
  {
    var data := map[SHA1_SALT_KEY := salt, SHA1_SERVER_KEY_KEY := key, SHA256_SALT_KEY := salt,
                    SHA256_SERVER_KEY_KEY := key, SHA256_STORED_KEY_KEY := key];
    CompletenessMissesOneKey(map["creds" := data], "creds");
    assert SHA1_STORED_KEY_KEY !in data;
  }

  /** A secret without the key stays without it, and the empty value is used. */
  lemma MissingKeyIsNotAdded(name: string, key: string, value: string)
    ensures EnsureKeySpec(map[name := map[]], name, key, value, false, false)
            == Secrets.Ensured(map[name := map[]], Ok(""), false)
  {
  }

  // ---------------------------------------------------------------- users

  /** One SCRAM user, whose password is in the secret that its credentials are to be put into. */
  function SharingSpec(): AuthSpec {
    AuthSpec("db", "ns", ["SCRAM"], "", None,
             [SpecUser("user", "", "user-scram-credentials", "", [], "user", "", "", map[])], false)
  }

  /** The spec is valid, and no call for its user ever succeeds. */
  lemma SharedSecretIsValidAndFails(c: Crypto, lower: char -> char, password: string, sha1Salt: Bytes,
                                    sha256Salt: Bytes, f: ScramFaults)
    requires ValidCrypto(c)
    ensures ValidUsers(lower, SharingSpec())
    ensures var store := map["user-scram-credentials" := map["password" := password]];
            EnsureSpec(c, AuthUsers(lower, SharingSpec())[0], store, sha1Salt, sha256Salt, f).result.Err?
  {
    var us := AuthUsers(lower, SharingSpec());
    var store := map["user-scram-credentials" := map["password" := password]];
    assert us == [us[0]];
    SharingUser(lower);
    UserIsSoundExactly(lower, "db", "ns", SharingSpec().users[0], AuthMechanisms(SharingSpec()));
    CompletenessMissesOneKey(store, "user-scram-credentials");
    assert SHA1_SALT_KEY !in store["user-scram-credentials"];
    SharedSecretFails(c, us[0], store, sha1Salt, sha256Salt, f);
  }

  lemma SharingUser(lower: char -> char)
    ensures var u := AuthUsers(lower, SharingSpec())[0];
            u.passwordSecretName == u.scramCredentialsSecretName == "user-scram-credentials" && u.database == "admin"
    ensures AuthMechanisms(SharingSpec()) == [SHA256]
  {
    assert "user" + "-scram-credentials" == "user-scram-credentials";
    assert "admin" != EXTERNAL_DB;
  }

  /** One SCRAM user that names no credentials secret. */
  function NamelessSpec(): AuthSpec {
    AuthSpec("db", "ns", ["SCRAM"], "", None, [SpecUser("user", "", "password", "", [], "", "", "", map[])], false)
  }

  /** It is valid, although the check for such a user is there. */
  lemma NamelessUserIsValid(lower: char -> char)
    ensures ValidUsers(lower, NamelessSpec())
    ensures AuthUsers(lower, NamelessSpec())[0].scramCredentialsSecretName == "-scram-credentials"
  {
    var us := AuthUsers(lower, NamelessSpec());
    assert us == [us[0]];
    assert AuthMechanisms(NamelessSpec()) == [SHA256];
    UserIsSoundExactly(lower, "db", "ns", NamelessSpec().users[0], AuthMechanisms(NamelessSpec()));
    assert "" + "-scram-credentials" == "-scram-credentials";
  }

  /** Two users of the external database, each sound by itself. */
  function ExternalSpec(): AuthSpec {
    AuthSpec("db", "ns", ["X509"], "", None,
             [SpecUser("one", EXTERNAL_DB, "", "", [], "", "", "", map[]),
              SpecUser("two", EXTERNAL_DB, "", "", [], "", "", "", map[])], true)
  }

  lemma TwoExternalUsersAreRejected(lower: char -> char)
    ensures AllSound(AuthUsers(lower, ExternalSpec()), AuthMechanisms(ExternalSpec()))
    ensures !ValidUsers(lower, ExternalSpec())
  {
    var spec := ExternalSpec();
    assert AuthMechanisms(spec) == [X509];
    UserIsSoundExactly(lower, "db", "ns", spec.users[0], AuthMechanisms(spec));
    UserIsSoundExactly(lower, "db", "ns", spec.users[1], AuthMechanisms(spec));
    if ValidUsers(lower, spec) {
      ExternalUsersCollide(lower, spec, 0, 1);
      assert false;
    }
  }

  // ---------------------------------------------------------------- names

  /** A tidy string: its alphabet, no adjacent dashes, no dash at either end. */
  predicate IsTidy(s: string) {
    && AllAllowed(s) && (s != "" ==> s[0] != '-' && s[|s| - 1] != '-')
    && forall i :: 0 <= i < |s| - 1 ==> s[i] != '-' || s[i + 1] != '-'
  }

  lemma {:induction false} NothingToReplace(s: string, matches: char -> bool)
    requires forall i :: 0 <= i < |s| ==> !matches(s[i])
    ensures ReplaceRuns(s, matches) == s
  {
    if s != "" {
      NothingToReplace(s[1..], matches);
      assert s == [s[0]] + s[1..];
    }
  }

  lemma {:induction false} SingleDashesStay(s: string)
    requires forall i :: 0 <= i < |s| - 1 ==> s[i] != '-' || s[i + 1] != '-'
    ensures ReplaceRuns(s, c => c == '-') == s
  {
    if s != "" {
      SingleDashesStay(s[1..]);
      assert s == [s[0]] + s[1..];
    }
  }

  /** A lower-case mapping that does not touch the alphabet of names. */
  ghost predicate KeepsAlphabet(lower: char -> char) {
    forall c: char :: IsAllowed(c) ==> lower(c) == c
  }

  /** Tidy strings are clean already. */
  lemma TidyIsClean(lower: char -> char, s: string)
    requires KeepsAlphabet(lower) && IsTidy(s)
    ensures Cleaned(lower, s) == s
  {
    assert ToLower(lower, s) == s;
    NothingToReplace(s, c => !IsAllowed(c));
    SingleDashesStay(s);
  }

  /** A user name of 246 characters, the last but one a dash. */
  function LongUser(): string {
    seq(244, _ => 'a') + "-b"
  }

  lemma LongNameIsTidy()
    ensures var name := "r" + "-" + "admin" + "-" + LongUser();
            IsTidy(name) && |name| == 254 && name[252] == '-'
  {
    var name := "r" + "-" + "admin" + "-" + LongUser();
    assert name[..8] == "r-admin-";
    assert forall i :: 8 <= i < 252 ==> name[i] == 'a';
    assert name[252] == '-' && name[253] == 'b';
    forall i | 0 <= i < |name| - 1
      ensures name[i] != '-' || name[i + 1] != '-'
    {
      if i < 7 {
        assert name[i] == name[..8][i] && name[i + 1] == name[..8][i + 1];
      }
    }
    forall i | 0 <= i < |name|
      ensures IsAllowed(name[i])
    {
      if i < 8 {
        assert name[i] == name[..8][i];
      }
    }
  }

  /** Resource "r", database "admin" and that user: the cut leaves a dash at the end of the secret's name. */
  lemma LongUserGetsInvalidName(lower: char -> char)
    requires KeepsAlphabet(lower)
    ensures !IsDns1123Subdomain(ConnectionStringSecretName(lower, "r",
                                  SpecUser(LongUser(), "", "password", "", [], "user", "", "", map[])))
  {
    var name := "r" + "-" + "admin" + "-" + LongUser();
    LongNameIsTidy();
    TidyIsClean(lower, name);
    ConformsExactly(lower, name);
  }
}
