/**
 * The authentication context (AuthContext): the signed-in user, a loading
 * flag, and the two browser-storage entries `hrms_auth` (the Base64
 * `email:password` token) and `hrms_user` (the user record as JSON).
 * Storage is a map from key to string; `JSON.stringify` and `JSON.parse`
 * are opaque functions given to the provider.
 */
module AuthContext {
  import opened JsValues
  import opened AuthService
  import Base64

  const AuthKey: string := "hrms_auth"
  const UserKey: string := "hrms_user"
  const AccessDenied: string := "ACCESS_DENIED"

  /** The message of the exception `btoa` throws on a character above U+00FF; its text is the browser's. */
  const BtoaFailure: string := "InvalidCharacterError"

  type Storage = map<string, string>

  /** What `JSON.parse` gives for the stored user: a failure, `null`, or a user record. */
  datatype Parsed = ParseFailed | ParsedNull | ParsedUser(user: User)

  /** `localStorage.getItem(key)` is a non-empty string. */
  predicate HasEntry(storage: Storage, key: string)
  {
    key in storage && storage[key] != ""
  }

  /** `!!user`. */
  predicate IsAuthenticatedUser(user: Option<User>)
  {
    user.Some?
  }

  /** `user?.roleLevel === 1`. */
  predicate IsAdminUser(user: Option<User>)
  {
    user.Some? && user.value.roleLevel == 1
  }

  /** `user?.roleLevel === 0`. */
  predicate IsReadOnlyUser(user: Option<User>)
  {
    user.Some? && user.value.roleLevel == 0
  }

  /** The two role flags are never both set, and either implies a signed-in user. */
  lemma RoleFlagsExclusive(user: Option<User>)
    ensures !(IsAdminUser(user) && IsReadOnlyUser(user))
    ensures IsAdminUser(user) || IsReadOnlyUser(user) ==> IsAuthenticatedUser(user)
  {
  }

  /** `getAuthHeader`: "Basic " + the stored token, or null when there is none. */
  function AuthHeaderFor(storage: Storage): (h: Option<string>)
    ensures HasEntry(storage, AuthKey) <==> h.Some?
    ensures h.Some? ==> h.value == "Basic " + storage[AuthKey]
  {
    if HasEntry(storage, AuthKey) then Some("Basic " + storage[AuthKey]) else None
  }

  /** The user and storage a login leaves, and the message it rejects with, if any. */
  datatype LoginResult = LoginResult(failure: Option<string>, user: Option<User>, storage: Storage)

  /**
   * `login`: the service's error propagates; role level -1 becomes
   * ACCESS_DENIED; otherwise the user is set, then the token and the user
   * record are written. A `btoa` failure comes after the user is set and
   * before anything is written.
   */
  function LoginEffect(users: Users, serialize: User -> string, email: string, password: string,
                       user: Option<User>, storage: Storage): (r: LoginResult)
    ensures r.failure.None? <==>
              AuthService.Login(users, email, password).Ok? &&
              AuthService.Login(users, email, password).value.roleLevel != -1 &&
              Base64.IsLatin1(Credentials(email, password))
  {
    match AuthService.Login(users, email, password)
    case Err(message) => LoginResult(Some(message), user, storage)
    case Ok(response) =>
      if response.roleLevel == -1 then LoginResult(Some(AccessDenied), user, storage)
      else match Base64.Btoa(Credentials(email, password))
        case None => LoginResult(Some(BtoaFailure), Some(response), storage)
        case Some(token) => LoginResult(None, Some(response), storage[AuthKey := token][UserKey := serialize(response)])
  }

  /** A successful login signs in the service's user and writes both keys together. */
  lemma LoginSuccessWritesBoth(users: Users, serialize: User -> string, email: string, password: string,
                               user: Option<User>, storage: Storage)
    requires LoginEffect(users, serialize, email, password, user, storage).failure.None?
    ensures var r := LoginEffect(users, serialize, email, password, user, storage);
            AuthService.Login(users, email, password).Ok? &&
            r.user == Some(AuthService.Login(users, email, password).value) &&
            r.user.value.roleLevel != -1 &&
            AuthKey in r.storage && UserKey in r.storage &&
            r.storage[UserKey] == serialize(r.user.value) &&
            Base64.Btoa(Credentials(email, password)) == Some(r.storage[AuthKey])
  {
  }

  /** A refused login (bad credentials or no access) changes neither the user nor storage. */
  lemma RefusedLoginChangesNothing(users: Users, serialize: User -> string, email: string, password: string,
                                   user: Option<User>, storage: Storage)
    requires AuthService.Login(users, email, password).Err? || AuthService.Login(users, email, password).value.roleLevel == -1
    ensures var r := LoginEffect(users, serialize, email, password, user, storage);
            r.failure.Some? && r.user == user && r.storage == storage &&
            (AuthService.Login(users, email, password).Err? ==> r.failure == Some(InvalidCredentials)) &&
            (AuthService.Login(users, email, password).Ok? ==> r.failure == Some(AccessDenied))
  {
  }

  /** The developer demo account is refused with ACCESS_DENIED. */
  lemma DeveloperIsDenied(serialize: User -> string, user: Option<User>, storage: Storage)
    ensures LoginEffect(MockUsers(), serialize, "developer@hrms.com", "developer123", user, storage).failure == Some(AccessDenied)
  {
    DeveloperAuthenticates();
    LoginIgnoresEmailCase(MockUsers(), "Developer@HRMS.com", "developer123");
    LoginIgnoresEmailCase(MockUsers(), "developer@hrms.com", "developer123");
  }

  /**
   * After a successful login, the header `getAuthHeader` builds passes the
   * service's session check as the same user, provided neither credential
   * contains ':'.
   */
  lemma LoginHeaderValidates(users: Users, serialize: User -> string, email: string, password: string,
                             user: Option<User>, storage: Storage)
    requires LoginEffect(users, serialize, email, password, user, storage).failure.None?
    requires ':' !in email && ':' !in password
    ensures var r := LoginEffect(users, serialize, email, password, user, storage);
            AuthHeaderFor(r.storage).Some? &&
            ValidateSession(users, AuthHeaderFor(r.storage).value) == r.user
  {
    var r := LoginEffect(users, serialize, email, password, user, storage);
    assert Base64.IsLatin1(Credentials(email, password));
    SessionRoundTrip(users, email, password);
    var token := Base64.Btoa(Credentials(email, password)).value;
    assert r.storage[AuthKey] == token;
    Base64.AtobBtoa(Credentials(email, password));
    assert token != "" by {
      assert |Credentials(email, password)| > 0;
    }
  }

  /** `logout`: signs out and removes both keys. */
  function LogoutStorage(storage: Storage): (s: Storage)
    ensures AuthKey !in s && UserKey !in s
    ensures forall k :: k in s <==> k in storage && k != AuthKey && k != UserKey
    ensures forall k :: k in s ==> s[k] == storage[k]
  {
    storage - {AuthKey, UserKey}
  }

  /** The start-up effect: the user it restores and the storage it leaves. */
  function RestoreEffect(parse: string -> Parsed, user: Option<User>, storage: Storage): (Option<User>, Storage)
  {
    if HasEntry(storage, UserKey) && HasEntry(storage, AuthKey) then
      match parse(storage[UserKey])
      case ParseFailed => (user, storage - {UserKey, AuthKey})
      case ParsedNull => (None, storage)
      case ParsedUser(u) => (Some(u), storage)
    else (user, storage)
  }

  /** A user is restored only when both entries exist; missing either entry restores nothing. */
  lemma RestoreNeedsBoth(parse: string -> Parsed, storage: Storage)
    ensures RestoreEffect(parse, None, storage).0.Some? ==>
              HasEntry(storage, UserKey) && HasEntry(storage, AuthKey) &&
              parse(storage[UserKey]) == ParsedUser(RestoreEffect(parse, None, storage).0.value)
    ensures !(HasEntry(storage, UserKey) && HasEntry(storage, AuthKey)) ==> RestoreEffect(parse, None, storage) == (None, storage)
  {
  }

  /**
   * Reload: when `JSON.parse` reads back what `JSON.stringify` wrote, a fresh
   * start over the storage a successful login left restores that user.
   */
  lemma ReloadRestoresUser(users: Users, serialize: User -> string, parse: string -> Parsed,
                           email: string, password: string, user: Option<User>, storage: Storage)
    requires forall u :: parse(serialize(u)) == ParsedUser(u)
    requires LoginEffect(users, serialize, email, password, user, storage).failure.None?
    requires serialize(AuthService.Login(users, email, password).value) != ""
    ensures var r := LoginEffect(users, serialize, email, password, user, storage);
            RestoreEffect(parse, None, r.storage) == (r.user, r.storage)
  {
    var r := LoginEffect(users, serialize, email, password, user, storage);
    assert r.storage[AuthKey] != "" by {
      var credentials := Credentials(email, password);
      assert |credentials| > 0;
    }
  }

  /** After a logout nothing is restored. */
  lemma LogoutThenRestore(parse: string -> Parsed, storage: Storage)
    ensures RestoreEffect(parse, None, LogoutStorage(storage)) == (None, LogoutStorage(storage))
  {
  }

  // ---------------------------------------------------------------------------
  // The provider
  // ---------------------------------------------------------------------------

  class AuthProvider {
    const users: Users
    const serialize: User -> string
    const parse: string -> Parsed

    var user: Option<User>
    var isLoading: bool
    var storage: Storage

    /** Before the start-up effect: nobody signed in, loading. */
    constructor(users: Users, serialize: User -> string, parse: string -> Parsed, storage: Storage)
      ensures this.users == users && this.serialize == serialize && this.parse == parse
      ensures user == None && isLoading && this.storage == storage
    {
      this.users := users;
      this.serialize := serialize;
      this.parse := parse;
      user := None;
      isLoading := true;
      this.storage := storage;
    }

    function IsAuthenticated(): bool
      reads this
    {
      IsAuthenticatedUser(user)
    }

    function IsAdmin(): bool
      reads this
    {
      IsAdminUser(user)
    }

    function IsReadOnly(): bool
      reads this
    {
      IsReadOnlyUser(user)
    }

    function GetAuthHeader(): Option<string>
      reads this
    {
      AuthHeaderFor(storage)
    }

    /** The start-up effect; loading is over afterwards whatever happened. */
    method RestoreSession()
      modifies this
      ensures (user, storage) == RestoreEffect(parse, old(user), old(storage))
      ensures !isLoading
    {
      if HasEntry(storage, UserKey) && HasEntry(storage, AuthKey) {
        var parsed := parse(storage[UserKey]);
        match parsed {
          case ParseFailed =>
            ghost var before := storage;
            storage := storage - {UserKey};
            storage := storage - {AuthKey};
            assert storage == before - {UserKey, AuthKey};
          case ParsedNull =>
            user := None;
          case ParsedUser(u) =>
            user := Some(u);
        }
      }
      isLoading := false;
    }

    /** `login`: resolves with `None` or rejects with the message; loading is over afterwards. */
    method Login(email: string, password: string) returns (failure: Option<string>)
      modifies this
      ensures LoginResult(failure, user, storage) == LoginEffect(users, serialize, email, password, old(user), old(storage))
      ensures !isLoading
    {
      isLoading := true;
      var response := AuthService.Login(users, email, password);
      if response.Err? {
        failure := Some(response.message);
      } else if response.value.roleLevel == -1 {
        failure := Some(AccessDenied);
      } else {
        user := Some(response.value);
        var token := Base64.Btoa(Credentials(email, password));
        if token.None? {
          failure := Some(BtoaFailure);
        } else {
          storage := storage[AuthKey := token.value];
          storage := storage[UserKey := serialize(response.value)];
          failure := None;
        }
      }
      isLoading := false;
    }

    /** `logout`. */
    method Logout()
      modifies this
      ensures user == None
      ensures storage == LogoutStorage(old(storage))
      ensures isLoading == old(isLoading)
    {
      user := None;
      storage := storage - {AuthKey};
      storage := storage - {UserKey};
    }
  }
}
