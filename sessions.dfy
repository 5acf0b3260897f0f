/*
 * The two-state session machine the typestate account forms when a client
 * drives it: login attempts move an Unauthorized account to Authorized when
 * the credentials check out, logouts move it back, and either request is
 * ignored on the wrong tag (the login page only logs in an Unauthorized
 * state, the home page only logs out an Authorized one).  The machine has no
 * terminal state and may be cycled any number of times.
 */
module Sessions {
  import opened Users
  import StoredUsers

  /** One request of the client. */
  datatype Event = LoginAttempt(email: string, password: string) | LogoutRequest

  /** The event is a login attempt the account accepts. */
  predicate Grants(sha256Hex: Hasher, account: Account, e: Event) {
    e.LoginAttempt? && Accepts(sha256Hex, account, e.email, e.password)
  }

  /** No logout request at index `from` or later. */
  predicate NoLogoutFrom(events: seq<Event>, from: nat) {
    forall j :: from <= j < |events| ==> !events[j].LogoutRequest?
  }

  /** Some accepted login attempt is not followed by any logout. */
  ghost predicate LastGrantStands(sha256Hex: Hasher, account: Account, events: seq<Event>) {
    exists i :: 0 <= i < |events| && Grants(sha256Hex, account, events[i]) && NoLogoutFrom(events, i + 1)
  }

  /**
   * One request on the current state: the account never changes; the result
   * is Authorized exactly when the request is an accepted login, or the
   * state was already Authorized and the request is not a logout.
   */
  function Step(sha256Hex: Hasher, s: UserState, e: Event): (t: UserState)
    ensures t.Fields() == s.Fields()
    ensures t.Authorized? <==> Grants(sha256Hex, s.Fields(), e) || (s.Authorized? && !e.LogoutRequest?)
  {
    match e
    case LoginAttempt(email, password) =>
      (match s
       case Unauthorized(m) =>
         (match Login(sha256Hex, m, email, password)
          case Ok(next) => next
          case Err(_) => s)
       case Authorized(_) => s)
    case LogoutRequest =>
      (match s
       case Authorized(m) => Logout(m)
       case Unauthorized(_) => s)
  }

  /** The state after a sequence of requests; the account fields are those it started with. */
  function Run(sha256Hex: Hasher, s: UserState, events: seq<Event>): (t: UserState)
    ensures t.Fields() == s.Fields()
    decreases |events|
  {
    if events == [] then s
    else Step(sha256Hex, Run(sha256Hex, s, events[..|events| - 1]), events[|events| - 1])
  }

  /** Running two sequences one after the other is running their concatenation. */
  lemma {:induction false} RunAppend(sha256Hex: Hasher, s: UserState, a: seq<Event>, b: seq<Event>)
    ensures Run(sha256Hex, s, a + b) == Run(sha256Hex, Run(sha256Hex, s, a), b)
    decreases |b|
  {
    if b == [] {
      assert a + b == a;
    } else {
      var n := |b| - 1;
      assert (a + b)[..|a + b| - 1] == a + b[..n];
      assert (a + b)[|a + b| - 1] == b[n];
      RunAppend(sha256Hex, s, a, b[..n]);
    }
  }

  /**
   * The state is Authorized after a sequence of requests exactly when some
   * accepted login attempt is followed by no logout, or the state was
   * Authorized to begin with and no logout came.
   */
  lemma {:induction false} RunAuthorizedIff(sha256Hex: Hasher, s: UserState, events: seq<Event>)
    ensures Run(sha256Hex, s, events).Authorized? <==>
            LastGrantStands(sha256Hex, s.Fields(), events) || (s.Authorized? && NoLogoutFrom(events, 0))
    decreases |events|
  {
    if events != [] {
      var a := s.Fields();
      var n := |events| - 1;
      var prefix, e := events[..n], events[n];
      RunAuthorizedIff(sha256Hex, s, prefix);
      var before := Run(sha256Hex, s, prefix);
      assert Run(sha256Hex, s, events) == Step(sha256Hex, before, e);
      assert before.Fields() == a;
      if e.LogoutRequest? {
        assert !NoLogoutFrom(events, 0);
        forall i | 0 <= i < |events| && Grants(sha256Hex, a, events[i])
          ensures !NoLogoutFrom(events, i + 1)
        {
          assert i < n && events[n].LogoutRequest?;
        }
      } else if Grants(sha256Hex, a, e) {
        assert NoLogoutFrom(events, n + 1);
        assert LastGrantStands(sha256Hex, a, events);
      } else {
        if LastGrantStands(sha256Hex, a, events) {
          var i :| 0 <= i < |events| && Grants(sha256Hex, a, events[i]) && NoLogoutFrom(events, i + 1);
          assert i < n && prefix[i] == events[i];
          assert NoLogoutFrom(prefix, i + 1) by {
            forall j | i + 1 <= j < |prefix| ensures !prefix[j].LogoutRequest? {
              assert prefix[j] == events[j];
            }
          }
          assert LastGrantStands(sha256Hex, a, prefix);
        }
        if LastGrantStands(sha256Hex, a, prefix) {
          var i :| 0 <= i < |prefix| && Grants(sha256Hex, a, prefix[i]) && NoLogoutFrom(prefix, i + 1);
          assert events[i] == prefix[i];
          assert NoLogoutFrom(events, i + 1) by {
            forall j | i + 1 <= j < |events| ensures !events[j].LogoutRequest? {
              if j < n { assert events[j] == prefix[j]; }
            }
          }
          assert LastGrantStands(sha256Hex, a, events);
        }
        assert NoLogoutFrom(events, 0) <==> NoLogoutFrom(prefix, 0) by {
          forall j | 0 <= j < n ensures events[j] == prefix[j] { }
        }
      }
    }
  }

  /**
   * No Authorized state is reached from an Unauthorized one without a login
   * attempt that passed the credential check.
   */
  lemma NoAuthorizationWithoutCheck(sha256Hex: Hasher, s: UserState, events: seq<Event>)
    requires s.Unauthorized?
    requires Run(sha256Hex, s, events).Authorized?
    ensures exists i :: 0 <= i < |events| && Grants(sha256Hex, s.Fields(), events[i])
  {
    RunAuthorizedIff(sha256Hex, s, events);
  }

  /** `count` rounds of logging in and out. */
  function Rounds(email: string, password: string, count: nat): seq<Event> {
    if count == 0 then []
    else Rounds(email, password, count - 1) + [LoginAttempt(email, password), LogoutRequest]
  }

  /**
   * An account created by `new` can log in with its credentials and out
   * again any number of times: the login of every round is accepted (the
   * state is Authorized right after it), and each round ends as the very
   * state `new` built.
   */
  lemma {:induction false} CycleAnyNumberOfTimes(sha256Hex: Hasher, username: string, email: string,
                                                 password: string, name: string, birthday: Date,
                                                 count: nat)
    ensures var s := New(sha256Hex, username, email, password, name, birthday);
            && Run(sha256Hex, s, Rounds(email, password, count)) == s
            && forall k :: 0 <= k < count ==>
                 Run(sha256Hex, s, Rounds(email, password, k) + [LoginAttempt(email, password)]).Authorized?
  {
    var s := New(sha256Hex, username, email, password, name, birthday);
    if count > 0 {
      var round := [LoginAttempt(email, password), LogoutRequest];
      CycleAnyNumberOfTimes(sha256Hex, username, email, password, name, birthday, count - 1);
      RunAppend(sha256Hex, s, Rounds(email, password, count - 1), round);
      assert round[..1] == [LoginAttempt(email, password)];
      assert [LoginAttempt(email, password)][..0] == [];
      var loggedIn := Rounds(email, password, count - 1) + [LoginAttempt(email, password)];
      assert loggedIn[..|loggedIn| - 1] == Rounds(email, password, count - 1);
    }
  }

  /**
   * One request handled by the persisting variant: the same next state as
   * `Step`; a logout of an Authorized state makes exactly the logout writes,
   * an accepted login exactly the login writes, and an ignored or rejected
   * request leaves the store as it was; so a store that agreed with the old
   * state agrees with the new one, and no key other than the two session
   * keys changes.
   */
  method StoredStep(storage: StoredUsers.LocalStorage, sha256Hex: Hasher, s: UserState, e: Event)
    returns (t: UserState)
    modifies storage
    ensures t == Step(sha256Hex, s, e)
    ensures storage.entries ==
              if e.LogoutRequest? && s.Authorized? then StoredUsers.LogoutWrites(old(storage.entries))
              else if s.Unauthorized? && t.Authorized? then StoredUsers.LoginWrites(old(storage.entries), t)
              else old(storage.entries)
    ensures StoredUsers.Mirrors(old(storage.entries), s) ==> StoredUsers.Mirrors(storage.entries, t)
    ensures StoredUsers.OtherKeysUnchanged(old(storage.entries), storage.entries)
  {
    match e {
      case LoginAttempt(email, password) =>
        match s {
          case Unauthorized(m) =>
            var r := StoredUsers.Login(storage, sha256Hex, m, email, password);
            t := if r.Ok? then r.value else s;
          case Authorized(_) =>
            t := s;
        }
      case LogoutRequest =>
        match s {
          case Authorized(m) =>
            t := StoredUsers.Logout(storage, m);
          case Unauthorized(_) =>
            t := s;
        }
    }
  }
}
