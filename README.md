# Typestate user session, in Dafny

This project models the user-account core of the Rust/Yew front end
`user_manager_frontend`. A `UserManager<State>` holds an account's username,
email, password digest, display name and birthday. Its type argument is a
zero-sized marker, `Authorized` or `Unauthorized`, and the marker decides which
operations exist. `new` builds an Unauthorized account and stores only the
SHA-256 hex digest of the password. `login` exists only on an Unauthorized
account. It returns the Authorized account with the same fields, or the fixed
message `"Feil e-post eller passord"`. `logout` and `get_name` exist only on an
Authorized account.

The Dafny model keeps the typestate. `Users.UserManager<State>` has a phantom
type parameter, so `Users.Login` accepts only a `UserManager<Unauthorized>`.
`Users.Logout` and `Users.GetName` accept only a `UserManager<Authorized>`.
Calling an operation on the wrong tag is a type error, as it is in Rust. Every
transition builds a new value.

There are two versions of the core, and they are nearly identical:

- `user_manager.rs` has only the pure transitions. It is module `Users`
  (`users.dfy`).
- `helpers/user_manager.rs` adds writes to the browser's local key-value store.
  It is module `StoredUsers` (`stored_users.dfy`). Its types, `new`,
  `get_name`, `hash_password` and the value-building are the same as in
  `user_manager.rs`, apart from the serde derives on `UserState` and
  `UserManager` (helpers/user_manager.rs:10,25) and the logging call. So
  `StoredUsers` reuses them from `Users` and adds only the store. The store is the class
  `StoredUsers.LocalStorage`, a `map` from keys to values. A successful login
  sets `"login"` to true and `"login_state"` to the new state. A logout sets
  `"login"` to false and deletes `"login_state"`. `new` reads and writes no
  store: `Users.New` is a function and reads no heap at all.

Module `Sessions` (`sessions.dfy`) runs the account as a two-state machine.
It takes any sequence of login attempts and logouts, the way the login page and
the home page drive it: each page ignores a request that does not fit the
current tag. `Sessions` proves three things about that machine:

- no Authorized state arises without a login attempt that passed the check;
- the account fields never change;
- an account made by `new` can log in with its own credentials and out again
  any number of times: every round's login is accepted, and every round ends
  in the state `new` built.

`Sessions.StoredStep` is the same machine with the store writes. It shows that
the store keeps agreeing with the in-memory state.

SHA-256 with lower-case hex output comes from a foreign crate. In the model it
is the parameter `sha256Hex: string -> string`. A Dafny arrow of this kind is
total and reads no state, so the digest depends on the plaintext alone. Nothing
else is assumed about it, in particular not that it is injective. That matters
for the claim "a wrong password is rejected": the code compares digests, not
passwords. So `Users.WrongPasswordFails` rejects a password whose digest
differs, and `Users.CollidingPasswordAccepted` shows that a different password
with the same digest is accepted.

## Model

| member | source | states |
|---|---|---|
| `Users.New` | user_manager_frontend/src/user_manager.rs:76-93 | The result is always the Unauthorized variant. Its stored hash is the digest of the password. Username, email, name and birthday are the arguments unchanged. |
| `Users.HashPasswordDeterministic` | user_manager_frontend/src/user_manager.rs:96-100 | Equal plaintexts give equal digests; the digest depends on nothing else. |
| `Users.Login` | user_manager_frontend/src/user_manager.rs:56-71 | Succeeds if and only if the email equals the stored email and the password's digest equals the stored digest. On success the result is Authorized with every field of the input, the digest included, copied unchanged. On failure the error is always "Feil e-post eller passord". |
| `Users.Logout` | user_manager_frontend/src/user_manager.rs:42-51 | Total. Always returns the Unauthorized variant with all fields equal to the input's. |
| `Users.WrongEmailFails` | user_manager_frontend/src/user_manager.rs:57-59 | An email other than the stored one gives the fixed error, whatever the password. |
| `Users.WrongPasswordFails` | user_manager_frontend/src/user_manager.rs:57-59 | A password whose digest differs from the stored digest gives the fixed error, whatever the email. |
| `Users.CollidingPasswordAccepted` | user_manager_frontend/src/user_manager.rs:57 | Only digests are compared. A password with the same digest as the original is accepted. |
| `Users.NewThenLogin` | user_manager_frontend/src/user_manager.rs:37-93 | Round trip: an account made by `new` logs in with the email and password it was made with. `get_name` on the result is the name given to `new`. |
| `Users.LoginLogoutCycle` | user_manager_frontend/src/user_manager.rs:42-69 | Logging out after a successful login gives back exactly the Unauthorized state that logged in. |
| `Users.LoginPageScenario` | user_manager_frontend/src/pages/login.rs:38-46 | The login page's test account ("test@example.com", "password123", "Test Person") logs in with its own credentials and is named "Test Person". A password with a different digest fails, and so does another email. |
| `StoredUsers.LocalStorage.Set` | user_manager_frontend/src/helpers/user_manager.rs:75-77 | Binds the key to the value and changes no other key. |
| `StoredUsers.LocalStorage.Delete` | user_manager_frontend/src/helpers/user_manager.rs:44 | Removes the key if present and changes no other key. |
| `StoredUsers.LoggedIn` | user_manager_frontend/src/pages/home.rs:55 | The flag reads true exactly when `"login"` holds the boolean true. A missing key or a non-boolean value reads as false. |
| `StoredUsers.LoginWrites` | user_manager_frontend/src/helpers/user_manager.rs:75-77 | After the login writes, the flag reads true and `"login_state"` holds the new Authorized state. No other key changes. |
| `StoredUsers.LogoutWrites` | user_manager_frontend/src/helpers/user_manager.rs:43-44 | After the logout writes, `"login"` is false and `"login_state"` is absent. No other key changes. |
| `StoredUsers.Login` | user_manager_frontend/src/helpers/user_manager.rs:59-81 | Returns the same result as the pure login: same success condition, same fields, same error. On failure the store is unchanged. On success the store receives exactly the login writes, with `"login_state"` equal to the returned state. |
| `StoredUsers.Logout` | user_manager_frontend/src/helpers/user_manager.rs:42-54 | Returns the Unauthorized state with identical fields. The store receives exactly the logout writes. |
| `StoredUsers.EmptyStoreMirrorsNew` | user_manager_frontend/src/helpers/user_manager.rs:86-103 | A fresh account from `new` agrees with an empty store: the flag reads false and no state is stored. |
| `StoredUsers.LoginThenLogoutStore` | user_manager_frontend/src/helpers/user_manager.rs:43-77 | After a successful login then a logout, `"login"` maps to false and `"login_state"` is absent. The returned state equals the one that logged in, and no other key has changed. |
| `Sessions.Step` | user_manager_frontend/src/pages/login.rs:60-80 | One request, handled as the login page's callback (login.rs:60-80) and the home page's callback (home.rs:115-125) do: a login attempt only on Unauthorized, a logout only on Authorized. The account never changes. The result is Authorized exactly when the request is an accepted login attempt, or when the state was already Authorized and the request is not a logout. |
| `Sessions.Run` | user_manager_frontend/src/user_manager.rs:42-69 | After any sequence of requests, the account fields are the ones the state started with. |
| `Sessions.RunAuthorizedIff` | user_manager_frontend/src/user_manager.rs:42-71 | After a sequence of requests the state is Authorized if and only if one of two things holds. Either some accepted login attempt has no logout after it, or the state started Authorized and no logout came. |
| `Sessions.NoAuthorizationWithoutCheck` | user_manager_frontend/src/user_manager.rs:56-71 | An Unauthorized state reaches Authorized only through a login attempt whose email and password digest both matched. |
| `Sessions.CycleAnyNumberOfTimes` | user_manager_frontend/src/user_manager.rs:42-93 | Any number of login-then-logout rounds with the account's own credentials: the login of every round is accepted (the state is Authorized right after it), and the rounds return the account to exactly the state `new` built. |
| `Sessions.StoredStep` | user_manager_frontend/src/pages/home.rs:115-125 | A request handled by the persisting variant, as the home page's logout callback (home.rs:115-125, calling helpers/user_manager.rs:42-54) and the login page's login callback (login.rs:60-80, calling helpers/user_manager.rs:59-81) do. The next state is the same as `Sessions.Step` gives. The new store is exactly the logout writes after a logout of an Authorized state, exactly the login writes after an accepted login, and the old store after an ignored or rejected request. If the store agreed with the old state, it agrees with the new one. No key other than `"login"` and `"login_state"` changes. |

Two members have no row, because their contracts say nothing beyond their
bodies:

- `Users.GetName` (user_manager.rs:37-39) returns the account's name. Its
  meaning is stated by `Users.NewThenLogin`.
- `Users.HashPassword` (user_manager.rs:96-100) applies the digest parameter.
  Its determinism is `Users.HashPasswordDeterministic`.

`helpers/user_manager.rs` has its own copies of `new`, `get_name` and
`hash_password` (lines 35-39, 84-111). They are the same members as above.

## Left out

- SHA-256 and its hex formatting: a foreign crate. The model takes it as the
  function parameter `sha256Hex`, with no assumption of injectivity or fixed
  length.
- serde serialization of `UserState`: the model store holds model values
  directly.
- The real `LocalStorage` backend.
- `StoredUsers.Login`, `StoredUsers.Logout`: the `.expect` panics on a failed
  store write are not modelled. Every write succeeds.
- Logging (`log!`, `console::log_1`): it has no effect on the state.
- `NaiveDate`: the birthday is a plain year/month/day record. It is never
  validated or computed with, as in the core.
- The start-up code of the home page (pages/home.rs:55-79). It reads the flag,
  restores `"login_state"` and falls back to the login page. It is entangled
  with the router and the hooks, so it is not modelled.
- Everything else in the pages and components: rendering, routing, DOM events
  and the network fetches of blog posts and articles. None of it is part of the
  core.
- Private fields: in Rust the fields of `UserManager` are private
  (user_manager.rs:27-32), so outside the module a `UserManager<Authorized>`
  comes only from `login`, from `clone`, or, in the persisting variant, from
  deserializing `"login_state"` (pages/home.rs:61, which skips the credential
  check in the source too). The Dafny constructors `UserManager(...)`,
  `Authorized(...)` and `Unauthorized(...)` are public, so a client can build an
  Authorized value directly. The invariant "no Authorized state without a
  passed credential check" is proved only for states reached through
  `Sessions.Run` (`Sessions.NoAuthorizationWithoutCheck`).
- Consuming moves: Rust ensures an old handle cannot be used after a
  transition. Dafny values are immutable, so the model cannot express that. The
  model only guarantees that every transition builds a new value.
