/*
 * The typestate user account of user_manager_frontend/src/user_manager.rs.
 *
 * A `UserManager<State>` carries the account fields; its type argument is a
 * zero-sized marker (`Authorized` or `Unauthorized`) that decides, at type
 * level, which operations exist: `Login` accepts only a
 * `UserManager<Unauthorized>`, `Logout` and `GetName` only a
 * `UserManager<Authorized>`.  Every transition builds a fresh value.
 *
 * SHA-256 with lower-case hex formatting is a foreign library; it enters
 * the model as the parameter `sha256Hex`, a total function of the plaintext
 * alone.  Nothing is assumed about it beyond that, in particular not that it
 * is injective.
 */
module Users {

  /** The hex digest function: deterministic and free of any state. */
  type Hasher = string -> string

  /** A calendar date (chrono's NaiveDate), carried unchanged. */
  datatype Date = Date(year: int, month: nat, day: nat)

  /** State marker for an account that has passed the credential check. */
  datatype Authorized = AuthorizedMarker

  /** State marker for an account that has not (yet) logged in. */
  datatype Unauthorized = UnauthorizedMarker

  /** The account fields; the password is held only as its digest. */
  datatype Account = Account(
    username: string,
    email: string,
    passwordHash: string,
    name: string,
    birthday: Date)

  /** The account tagged by its state; `State` is a phantom type argument. */
  datatype UserManager<State> = UserManager(account: Account)

  /** The two-variant state the rest of the program passes around. */
  datatype UserState =
    | Unauthorized(unauthorized: UserManager<Unauthorized>)
    | Authorized(authorized: UserManager<Authorized>)
  {
    /** The account fields, whichever the tag. */
    function Fields(): Account {
      match this
      case Unauthorized(m) => m.account
      case Authorized(m) => m.account
    }
  }

  /** `Result<UserState, String>` of the source. */
  datatype Result<T> = Ok(value: T) | Err(error: string)

  /** The one message a failed login returns, whichever check failed. */
  const LoginError := "Feil e-post eller passord"

  /** hash_password: the digest of a plaintext password. */
  function HashPassword(sha256Hex: Hasher, password: string): string {
    sha256Hex(password)
  }

  /**
   * The digest depends on the plaintext alone.  This holds of every function
   * of type `Hasher`: a total arrow that reads no state, so no hidden input
   * (store, clock, salt) can enter the digest; the lemma records that
   * `HashPassword` adds none either.
   */
  lemma HashPasswordDeterministic(sha256Hex: Hasher, p: string, q: string)
    requires p == q
    ensures HashPassword(sha256Hex, p) == HashPassword(sha256Hex, q)
  {
  }

  /** The credential check `login` performs. */
  predicate Accepts(sha256Hex: Hasher, account: Account, email: string, password: string) {
    email == account.email && HashPassword(sha256Hex, password) == account.passwordHash
  }

  /**
   * new: a fresh account in the Unauthorized state, storing the digest of the
   * password in place of the password itself.
   */
  function New(sha256Hex: Hasher, username: string, email: string, password: string,
               name: string, birthday: Date): (s: UserState)
    ensures s.Unauthorized?
    ensures s.Fields().passwordHash == HashPassword(sha256Hex, password)
    ensures s.Fields().username == username && s.Fields().email == email
    ensures s.Fields().name == name && s.Fields().birthday == birthday
  {
    var passwordHash := HashPassword(sha256Hex, password);
    Unauthorized(UserManager(Account(username, email, passwordHash, name, birthday)))
  }

  /**
   * login on an Unauthorized account: succeeds exactly when the email matches
   * and the password's digest equals the stored one; the Authorized result
   * carries the same fields (the digest is not recomputed); every failure
   * gives the same message.
   */
  function Login(sha256Hex: Hasher, self: UserManager<Unauthorized>, email: string,
                 password: string): (r: Result<UserState>)
    ensures r.Ok? <==> Accepts(sha256Hex, self.account, email, password)
    ensures r.Ok? ==> r.value.Authorized? && r.value.Fields() == self.account
    ensures r.Err? ==> r.error == LoginError
  {
    if email != self.account.email || HashPassword(sha256Hex, password) != self.account.passwordHash then
      Err(LoginError)
    else
      Ok(Authorized(UserManager(self.account)))
  }

  /** logout on an Authorized account: always Unauthorized, same fields. */
  function Logout(self: UserManager<Authorized>): (s: UserState)
    ensures s.Unauthorized? && s.Fields() == self.account
  {
    Unauthorized(UserManager(self.account))
  }

  /** get_name on an Authorized account. */
  function GetName(self: UserManager<Authorized>): string {
    self.account.name
  }

  /** An email other than the stored one fails, whatever the password. */
  lemma WrongEmailFails(sha256Hex: Hasher, self: UserManager<Unauthorized>, email: string,
                        password: string)
    requires email != self.account.email
    ensures Login(sha256Hex, self, email, password) == Err(LoginError)
  {
  }

  /** A password whose digest differs from the stored one fails. */
  lemma WrongPasswordFails(sha256Hex: Hasher, self: UserManager<Unauthorized>, email: string,
                           password: string)
    requires HashPassword(sha256Hex, password) != self.account.passwordHash
    ensures Login(sha256Hex, self, email, password) == Err(LoginError)
  {
  }

  /**
   * Only digests are compared: a different password with the same digest is
   * accepted just as the original one is.
   */
  lemma CollidingPasswordAccepted(sha256Hex: Hasher, username: string, email: string,
                                  password: string, other: string, name: string, birthday: Date)
    requires HashPassword(sha256Hex, other) == HashPassword(sha256Hex, password)
    ensures Login(sha256Hex, New(sha256Hex, username, email, password, name, birthday).unauthorized,
                  email, other).Ok?
  {
  }

  /**
   * Round trip: an account logs in with the credentials it was created with,
   * and the Authorized account's name is the one given to `new`.
   */
  lemma NewThenLogin(sha256Hex: Hasher, username: string, email: string, password: string,
                     name: string, birthday: Date)
    ensures var r := Login(sha256Hex, New(sha256Hex, username, email, password, name, birthday).unauthorized,
                           email, password);
            r.Ok? && r.value.Authorized? && GetName(r.value.authorized) == name
  {
  }

  /**
   * Cycle: logging out after a successful login gives back the Unauthorized
   * state that logged in.
   */
  lemma LoginLogoutCycle(sha256Hex: Hasher, self: UserManager<Unauthorized>, email: string,
                         password: string)
    requires Login(sha256Hex, self, email, password).Ok?
    ensures var s := Login(sha256Hex, self, email, password).value;
            s.Authorized? && Logout(s.authorized) == Unauthorized(self)
  {
  }

  /**
   * The account the login page creates (login.rs), logged in with its own
   * credentials and with a password whose digest differs.
   */
  lemma LoginPageScenario(sha256Hex: Hasher)
    requires HashPassword(sha256Hex, "wrong") != HashPassword(sha256Hex, "password123")
    ensures var s := New(sha256Hex, "TestUser", "test@example.com", "password123", "Test Person",
                         Date(1990, 1, 1));
            && Login(sha256Hex, s.unauthorized, "test@example.com", "password123").Ok?
            && GetName(Login(sha256Hex, s.unauthorized, "test@example.com", "password123").value.authorized)
               == "Test Person"
            && Login(sha256Hex, s.unauthorized, "test@example.com", "wrong") == Err(LoginError)
            && Login(sha256Hex, s.unauthorized, "other@example.com", "password123") == Err(LoginError)
  {
  }
}
