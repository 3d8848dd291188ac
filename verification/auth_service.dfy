/**
 * The mock authentication service (authService): a constant table of five
 * demo accounts keyed by lower-case email, a credential check, and the
 * check of a stored `Basic` session header.
 */
module AuthService {
  import opened JsValues
  import opened Text
  import Base64

  datatype Role = ADMIN | READ_ONLY

  /** The user record a login returns: every account field except the password. */
  datatype User = User(
    employeeId: string,
    firstName: string,
    lastName: string,
    email: string,
    positionName: string,
    roleLevel: int,     // 1 = admin, 0 = read-only, -1 = no access
    role: Role)

  datatype Account = Account(profile: User, password: string)

  type Users = map<string, Account>

  const InvalidCredentials: string := "Invalid email or password"

  /** The five demo accounts. */
  function MockUsers(): Users
  {
    map[
      "admin@hrms.com" := Account(User("550e8400-e29b-41d4-a716-446655440001", "Sarah", "Johnson",
                                       "admin@hrms.com", "HR \U{2013} General Manager", 1, ADMIN), "admin123"),
      "specialist@hrms.com" := Account(User("550e8400-e29b-41d4-a716-446655440002", "Michael", "Chen",
                                            "specialist@hrms.com", "HR \U{2013} Specialist", 1, ADMIN), "specialist123"),
      "coordinator@hrms.com" := Account(User("550e8400-e29b-41d4-a716-446655440003", "Emily", "Davis",
                                             "coordinator@hrms.com", "HR \U{2013} Coordinator", 0, READ_ONLY), "coordinator123"),
      "partner@hrms.com" := Account(User("550e8400-e29b-41d4-a716-446655440004", "James", "Wilson",
                                         "partner@hrms.com", "HR \U{2013} HR Partner", 0, READ_ONLY), "partner123"),
      "developer@hrms.com" := Account(User("550e8400-e29b-41d4-a716-446655440005", "Alex", "Thompson",
                                           "developer@hrms.com", "Software Developer", -1, READ_ONLY), "developer123")
    ]
  }

  /** `authService.login`: look the lower-cased email up, compare the password exactly. */
  function Login(users: Users, email: string, password: string): (r: Result<User>)
    ensures r.Ok? <==> Lower(email) in users && users[Lower(email)].password == password
    ensures r.Ok? ==> r.value == users[Lower(email)].profile
    ensures r.Err? ==> r.message == InvalidCredentials
  {
    var key := Lower(email);
    if key !in users || users[key].password != password then Err(InvalidCredentials)
    else Ok(users[key].profile)
  }

  /** The email is matched without regard to case. */
  lemma LoginIgnoresEmailCase(users: Users, email: string, password: string)
    ensures Login(users, email, password) == Login(users, Lower(email), password)
  {
    LowerIdempotent(email);
  }

  /** Each demo account is stored under its own lower-case email. */
  lemma MockUsersKeyedByEmail(key: string)
    requires key in MockUsers()
    ensures MockUsers()[key].profile.email == key
    ensures Lower(key) == key
  {
    DemoEmailIsLower("admin");
    DemoEmailIsLower("specialist");
    DemoEmailIsLower("coordinator");
    DemoEmailIsLower("partner");
    DemoEmailIsLower("developer");
  }

  /** A lower-case name at hrms.com is its own lower case. */
  lemma DemoEmailIsLower(name: string)
    requires forall i :: 0 <= i < |name| ==> 'a' <= name[i] <= 'z'
    ensures Lower(name + "@hrms.com") == name + "@hrms.com"
  {
    LowerConcat(name, "@hrms.com");
    LowerOfLowercase(name);
    LowerOfLowercase("@hrms.com");
  }

  /** Every demo account logs in with its password and any casing of its email. */
  lemma DemoAccountsLogIn(key: string, typed: string)
    requires key in MockUsers() && Lower(typed) == key
    ensures Login(MockUsers(), typed, MockUsers()[key].password) == Ok(MockUsers()[key].profile)
  {
  }

  /** The developer account authenticates here, with role level -1; refusing it is left to the caller. */
  lemma DeveloperAuthenticates()
    ensures Login(MockUsers(), "Developer@HRMS.com", "developer123").Ok?
    ensures Login(MockUsers(), "Developer@HRMS.com", "developer123").value.roleLevel == -1
  {
    assert Lower("Developer@HRMS.com") == "developer@hrms.com";
  }

  /** Passwords are case-sensitive. */
  lemma PasswordIsCaseSensitive()
    ensures Login(MockUsers(), "admin@hrms.com", "Admin123") == Err(InvalidCredentials)
  {
    assert Lower("admin@hrms.com") == "admin@hrms.com";
  }

  /**
   * `authService.validateSession`: strip the first "Basic ", Base64-decode,
   * split on ':' and keep the first two segments, then check as login does.
   * Every failure, including a thrown `atob`, gives `None`.
   */
  function ValidateSession(users: Users, authHeader: string): Option<User>
  {
    var token := ReplaceFirst(authHeader, "Basic ", "");
    match Base64.Atob(token)
    case None => None
    case Some(credentials) =>
      var parts := Split(credentials, ':');
      var key := Lower(parts[0]);
      if key !in users then None
      else if |parts| < 2 || users[key].password != parts[1] then None
      else Some(users[key].profile)
  }

  /** Any session the check accepts names credentials that log in as the same user. */
  lemma SessionImpliesLogin(users: Users, authHeader: string)
    requires ValidateSession(users, authHeader).Some?
    ensures exists email, password :: Login(users, email, password) == Ok(ValidateSession(users, authHeader).value)
  {
    var credentials := Base64.Atob(ReplaceFirst(authHeader, "Basic ", "")).value;
    var parts := Split(credentials, ':');
    assert Login(users, parts[0], parts[1]) == Ok(ValidateSession(users, authHeader).value);
  }

  /** "Basic " + token gives back the token. */
  lemma StripBasic(token: string)
    ensures ReplaceFirst("Basic " + token, "Basic ", "") == token
  {
    assert StartsWith("Basic " + token, "Basic ");
    assert ("Basic " + token)[|"Basic "|..] == token;
  }

  /** The stored token for a login, as written by the auth context. */
  function Credentials(email: string, password: string): string
  {
    email + ":" + password
  }

  /**
   * Round trip: for credentials login accepts, with no ':' in either part
   * and only Latin-1 characters, the header built from the Base64 token
   * validates to the same user that login returns.
   */
  lemma SessionRoundTrip(users: Users, email: string, password: string)
    requires Login(users, email, password).Ok?
    requires ':' !in email && ':' !in password
    requires Base64.IsLatin1(Credentials(email, password))
    ensures Base64.Btoa(Credentials(email, password)).Some?
    ensures ValidateSession(users, "Basic " + Base64.Btoa(Credentials(email, password)).value)
            == Some(Login(users, email, password).value)
  {
    var credentials := Credentials(email, password);
    Base64.AtobBtoa(credentials);
    var token := Base64.Btoa(credentials).value;
    StripBasic(token);
    assert credentials == email + [':'] + password;
    SplitAtFirst(email, ':', password);
    SplitNoSeparator(password, ':');
  }

  /** A password containing ':' is cut at the ':' when the session is checked, so its session fails. */
  lemma ColonInPasswordBreaksSession(users: Users, email: string, p1: string, p2: string)
    requires ':' !in email && ':' !in p1
    requires Login(users, email, p1 + ":" + p2).Ok?
    requires Base64.IsLatin1(Credentials(email, p1 + ":" + p2))
    ensures ValidateSession(users, "Basic " + Base64.Btoa(Credentials(email, p1 + ":" + p2)).value) == None
  {
    var password := p1 + ":" + p2;
    var credentials := Credentials(email, password);
    Base64.AtobBtoa(credentials);
    StripBasic(Base64.Btoa(credentials).value);
    assert credentials == email + [':'] + (p1 + [':'] + p2);
    SplitAtFirst(email, ':', p1 + [':'] + p2);
    SplitAtFirst(p1, ':', p2);
    var parts := Split(credentials, ':');
    assert parts[1] == p1;
    assert |p1| < |password|;
  }

  /** A header that is not Base64 is rejected rather than thrown. */
  lemma MalformedHeaderIsRejected(users: Users)
    ensures ValidateSession(users, "Basic a") == None
  {
    StripBasic("a");
    assert Base64.StripWhitespace("a") == "a";
  }
}
