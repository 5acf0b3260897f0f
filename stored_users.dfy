/*
 * The persisting variant of the typestate account,
 * user_manager_frontend/src/helpers/user_manager.rs.
 *
 * Its types, `new`, `get_name`, `hash_password` and the value-building in
 * `login`/`logout` are the same as in user_manager.rs apart from the serde
 * derives on the types and the logging call, and are taken from module
 * Users.  What this file adds are writes to the browser's local
 * key-value store: a successful login records the flag "login" = true and
 * the new state under "login_state"; a logout records "login" = false and
 * removes "login_state".  The store holds model values directly; the JSON
 * encoding of gloo_storage is not modelled.
 */
module StoredUsers {
  import opened Users

  /** Key of the boolean "currently logged in" flag. */
  const LoginFlagKey := "login"

  /** Key of the persisted session state. */
  const LoginStateKey := "login_state"

  /** What the store holds under a key. */
  datatype StoreValue = Bool(flag: bool) | State(state: UserState)

  /** The browser's local store: one map from keys to values. */
  class LocalStorage {
    var entries: map<string, StoreValue>

    constructor (initial: map<string, StoreValue>)
      ensures entries == initial
    {
      entries := initial;
    }

    /** LocalStorage::set: binds the key, replacing any earlier value. */
    method Set(key: string, value: StoreValue)
      modifies this
      ensures entries == old(entries)[key := value]
    {
      entries := entries[key := value];
    }

    /** LocalStorage::delete: removes the key if present. */
    method Delete(key: string)
      modifies this
      ensures entries == old(entries) - {key}
    {
      entries := entries - {key};
    }
  }

  /**
   * How the pages read the flag: `get::<bool>("login")`, with a missing key
   * or a value that is not a boolean read as false.
   */
  function LoggedIn(entries: map<string, StoreValue>): (b: bool)
    ensures b <==> LoginFlagKey in entries && entries[LoginFlagKey] == Bool(true)
  {
    if LoginFlagKey in entries && entries[LoginFlagKey].Bool? then entries[LoginFlagKey].flag
    else false
  }

  /**
   * The store agrees with the in-memory state: the flag is set exactly when
   * the state is Authorized, and then "login_state" holds that very state;
   * when Unauthorized, no state is stored.
   */
  predicate Mirrors(entries: map<string, StoreValue>, s: UserState) {
    && LoggedIn(entries) == s.Authorized?
    && (s.Authorized? ==> LoginStateKey in entries && entries[LoginStateKey] == State(s))
    && (s.Unauthorized? ==> LoginStateKey !in entries)
  }

  /** Every key other than the two session keys is as before. */
  ghost predicate OtherKeysUnchanged(before: map<string, StoreValue>, after: map<string, StoreValue>) {
    forall k :: k != LoginFlagKey && k != LoginStateKey ==>
      (k in after <==> k in before) && (k in after ==> after[k] == before[k])
  }

  /** The writes of a successful login. */
  function LoginWrites(entries: map<string, StoreValue>, s: UserState): (after: map<string, StoreValue>)
    requires s.Authorized?
    ensures Mirrors(after, s) && OtherKeysUnchanged(entries, after)
  {
    entries[LoginFlagKey := Bool(true)][LoginStateKey := State(s)]
  }

  /** The writes of a logout. */
  function LogoutWrites(entries: map<string, StoreValue>): (after: map<string, StoreValue>)
    ensures LoginFlagKey in after && after[LoginFlagKey] == Bool(false)
    ensures LoginStateKey !in after
    ensures OtherKeysUnchanged(entries, after)
  {
    entries[LoginFlagKey := Bool(false)] - {LoginStateKey}
  }

  /** A store in which nobody has logged in agrees with any Unauthorized state. */
  lemma EmptyStoreMirrorsNew(sha256Hex: Hasher, username: string, email: string, password: string,
                             name: string, birthday: Date)
    ensures Mirrors(map[], New(sha256Hex, username, email, password, name, birthday))
  {
  }

  /**
   * login on an Unauthorized account, with its store writes: on failure the
   * fixed error and an untouched store; on success the Authorized state, the
   * flag set and that same state stored, nothing else changed.
   */
  method Login(storage: LocalStorage, sha256Hex: Hasher, self: UserManager<Unauthorized>,
               email: string, password: string) returns (r: Result<UserState>)
    modifies storage
    ensures r == Users.Login(sha256Hex, self, email, password)
    ensures r.Err? ==> storage.entries == old(storage.entries)
    ensures r.Ok? ==> storage.entries == LoginWrites(old(storage.entries), r.value)
  {
    if email != self.account.email || HashPassword(sha256Hex, password) != self.account.passwordHash {
      r := Err(LoginError);
    } else {
      var newState := Authorized(UserManager(self.account));
      storage.Set(LoginFlagKey, Bool(true));
      storage.Set(LoginStateKey, State(newState));
      r := Ok(newState);
    }
  }

  /**
   * logout on an Authorized account, with its store writes: the flag cleared,
   * the stored state removed, nothing else changed; the result is the
   * Unauthorized state with the same fields.
   */
  method Logout(storage: LocalStorage, self: UserManager<Authorized>) returns (s: UserState)
    modifies storage
    ensures s == Users.Logout(self)
    ensures storage.entries == LogoutWrites(old(storage.entries))
  {
    storage.Set(LoginFlagKey, Bool(false));
    storage.Delete(LoginStateKey);
    s := Unauthorized(UserManager(self.account));
  }

  /**
   * Logout after a successful login: the flag reads false, no state is
   * stored, and the result equals the state that logged in.
   */
  lemma LoginThenLogoutStore(sha256Hex: Hasher, entries: map<string, StoreValue>,
                             self: UserManager<Unauthorized>, email: string, password: string)
    requires Users.Login(sha256Hex, self, email, password).Ok?
    ensures var s := Users.Login(sha256Hex, self, email, password).value;
            var after := LogoutWrites(LoginWrites(entries, s));
            && s.Authorized?
            && Users.Logout(s.authorized) == Unauthorized(self)
            && after[LoginFlagKey] == Bool(false) && LoginStateKey !in after
            && Mirrors(after, Unauthorized(self))
            && OtherKeysUnchanged(entries, after)
  {
  }
}
