/** Secrets of one namespace, and the few ways in which the operator reads and writes them. */
module Secrets {
  import opened Wrappers

  type Data = map<string, string>

  /** The secrets of the namespace by name. */
  type Store = map<string, Data>

  datatype SecretError = SecretNotFound | KeyMissing | ApiError

  function GetSpec(store: Store, name: string, fails: bool): Result<Data, SecretError> {
    if fails then Err(ApiError) else if name in store then Ok(store[name]) else Err(SecretNotFound)
  }

  function ReadKeySpec(store: Store, name: string, key: string, fails: bool): Result<string, SecretError> {
    match GetSpec(store, name, fails)
    case Err(e) => Err(e)
    case Ok(data) => if key in data then Ok(data[key]) else Err(KeyMissing)
  }

  /** Reading a key that the secret does not have gives the empty string. */
  function FieldOf(data: Data, key: string): string {
    if key in data then data[key] else ""
  }

  /** The store, the value and whether a secret was written. */
  datatype Ensured = Ensured(store: Store, result: Result<string, SecretError>, written: bool)

  function EnsureKeySpec(store: Store, name: string, key: string, value: string, getFails: bool,
                         createFails: bool): Ensured {
    match GetSpec(store, name, getFails)
    case Ok(data) => Ensured(store, Ok(FieldOf(data, key)), false)
    case Err(SecretNotFound) =>
      if createFails then Ensured(store, Err(ApiError), false) else Ensured(store[name := map[key := value]], Ok(value), true)
    case Err(e) => Ensured(store, Err(e), false)
  }

  /**
   * The first value that was ensured is kept: every later call that succeeds, whatever value it offers, returns it and
   * writes nothing.
   */
  lemma EnsuredValueIsKept(store: Store, name: string, key: string, value: string, getFails: bool, createFails: bool,
                           value': string, getFails': bool, createFails': bool)
    ensures var first := EnsureKeySpec(store, name, key, value, getFails, createFails);
            var second := EnsureKeySpec(first.store, name, key, value', getFails', createFails');
            first.result.Ok? ==> !second.written && second.store == first.store
                                 && (second.result.Ok? <==> !getFails')
                                 && (second.result.Ok? ==> second.result == first.result)
  {
  }

  /**
   * The promise that an absent key is filled in holds for absent secrets only: a call without API failures returns an
   * offered value that was not there before exactly when the secret did not exist.
   */
  lemma OfferIsTakenExactly(store: Store, name: string, key: string, value: string)
    requires value != "" && (name in store ==> FieldOf(store[name], key) != value)
    ensures EnsureKeySpec(store, name, key, value, false, false).result == Ok(value) <==> name !in store
  {
  }

  method HasAllKeys(data: Data, keys: seq<string>) returns (r: bool)
    ensures r <==> forall k :: k in keys ==> k in data
  {
    for i := 0 to |keys|
      invariant forall k :: k in keys[..i] ==> k in data
    {
      if keys[i] !in data {
        return false;
      }
    }
    return true;
  }

  class SecretStore {
    var secrets: Store
    var writes: nat

    constructor (secrets: Store)
      ensures this.secrets == secrets && writes == 0
    {
      this.secrets, this.writes := secrets, 0;
    }

    method GetSecret(name: string, fails: bool) returns (r: Result<Data, SecretError>)
      ensures r == GetSpec(secrets, name, fails)
    {
      if fails {
        return Err(ApiError);
      }
      if name !in secrets {
        return Err(SecretNotFound);
      }
      return Ok(secrets[name]);
    }

    method ReadKey(name: string, key: string, fails: bool) returns (r: Result<string, SecretError>)
      ensures r == ReadKeySpec(secrets, name, key, fails)
    {
      var data := GetSecret(name, fails);
      if data.Err? {
        return Err(data.error);
      }
      if key in data.value {
        return Ok(data.value[key]);
      }
      return Err(KeyMissing);
    }

    /** Updating replaces all fields; a secret that does not exist cannot be updated. */
    method UpdateSecret(name: string, data: Data, fails: bool) returns (r: Result<(), SecretError>)
      modifies this
      ensures r == if fails then Err(ApiError) else if name in old(secrets) then Ok(()) else Err(SecretNotFound)
      ensures if r.Ok? then secrets == old(secrets)[name := data] && writes == old(writes) + 1
              else secrets == old(secrets) && writes == old(writes)
    {
      if fails {
        return Err(ApiError);
      }
      if name !in secrets {
        return Err(SecretNotFound);
      }
      secrets, writes := secrets[name := data], writes + 1;
      return Ok(());
    }

    method CreateOrUpdate(name: string, data: Data, updateFails: bool, createFails: bool)
      returns (r: Result<(), SecretError>)
      modifies this
      ensures r == if updateFails || (name !in old(secrets) && createFails) then Err(ApiError) else Ok(())
      ensures if r.Ok? then secrets == old(secrets)[name := data] && writes == old(writes) + 1
              else secrets == old(secrets) && writes == old(writes)
    {
      r := UpdateSecret(name, data, updateFails);
      if r == Err(SecretNotFound) {
        if createFails {
          return Err(ApiError);
        }
        secrets, writes := secrets[name := data], writes + 1;
        return Ok(());
      }
    }

    method EnsureSecretWithKey(name: string, key: string, value: string, getFails: bool, createFails: bool)
      returns (r: Result<string, SecretError>)
      modifies this
      ensures var e := EnsureKeySpec(old(secrets), name, key, value, getFails, createFails);
              r == e.result && secrets == e.store && writes == old(writes) + (if e.written then 1 else 0)
    {
      var existing := GetSecret(name, getFails);
      if existing.Err? {
        if existing.error.SecretNotFound? {
          if createFails {
            return Err(ApiError);
          }
          secrets, writes := secrets[name := map[key := value]], writes + 1;
          return Ok(value);
        }
        return Err(existing.error);
      }
      return Ok(if key in existing.value then existing.value[key] else "");
    }
  }
}
