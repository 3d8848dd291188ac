/**
 * The sign-in page (Login): an email and password form whose submit runs
 * the context's `login` and routes on the outcome, and demo-account
 * buttons that fill the form.
 */
module LoginPage {
  import opened JsValues
  import AuthService
  import AuthContext
  import Base64

  /** What a rejected `login` promise carries: an `Error` with a message, or some other value. */
  datatype Thrown = ErrorThrown(message: string) | NonErrorThrown

  /** Where the page navigates after a submit, and the inline error it shows. */
  datatype SubmitOutcome = SubmitOutcome(navigateTo: Option<string>, error: string)

  const Dashboard: string := "/dashboard"
  const AccessDeniedPage: string := "/access-denied"

  /** The `try`/`catch` of `handleSubmit`, given how `login` settled. */
  function SubmitResult(thrown: Option<Thrown>): (r: SubmitOutcome)
    ensures thrown.None? ==> r == SubmitOutcome(Some(Dashboard), "")
    ensures r.navigateTo == Some(AccessDeniedPage) <==> thrown == Some(ErrorThrown(AuthContext.AccessDenied))
    ensures r.navigateTo.None? <==> thrown.Some? && thrown != Some(ErrorThrown(AuthContext.AccessDenied))
    ensures r.navigateTo.None? ==> r.error == (if thrown.value.ErrorThrown? then thrown.value.message else "Login failed")
    ensures r.navigateTo.Some? ==> r.error == ""
  {
    match thrown
    case None => SubmitOutcome(Some(Dashboard), "")
    case Some(t) =>
      var message := if t.ErrorThrown? then t.message else "Login failed";
      if message == AuthContext.AccessDenied then SubmitOutcome(Some(AccessDeniedPage), "")
      else SubmitOutcome(None, message)
  }

  /** The failure the context's `login` reports, as the page catches it: always an `Error`. */
  function Caught(failure: Option<string>): Option<Thrown>
  {
    match failure
    case None => None
    case Some(message) => Some(ErrorThrown(message))
  }

  /** The three demo accounts the page offers: admin, read-only and no access. */
  const DemoAccounts: seq<(string, string)> :=
    [("admin@hrms.com", "admin123"), ("coordinator@hrms.com", "coordinator123"), ("developer@hrms.com", "developer123")]

  class LoginForm {
    var email: string
    var password: string
    var error: string
    var isLoading: bool

    constructor()
      ensures email == "" && password == "" && error == "" && !isLoading
    {
      email := "";
      password := "";
      error := "";
      isLoading := false;
    }

    /**
     * Submitting: clear the error, mark loading, run `login`, then navigate
     * or show the error; loading is over in every outcome.
     */
    method HandleSubmit(auth: AuthContext.AuthProvider) returns (navigateTo: Option<string>)
      modifies this, auth
      ensures var r := AuthContext.LoginEffect(auth.users, auth.serialize, old(email), old(password),
                                               old(auth.user), old(auth.storage));
              auth.user == r.user && auth.storage == r.storage &&
              SubmitOutcome(navigateTo, error) == SubmitResult(Caught(r.failure))
      ensures !isLoading && !auth.isLoading
      ensures email == old(email) && password == old(password)
    {
      error := "";
      isLoading := true;
      var failure := auth.Login(email, password);
      if failure.None? {
        navigateTo := Some(Dashboard);
      } else {
        var message := failure.value;
        if message == AuthContext.AccessDenied {
          navigateTo := Some(AccessDeniedPage);
        } else {
          navigateTo := None;
          error := message;
        }
      }
      isLoading := false;
    }

    /** A demo-account button fills the form and clears the error; it does not sign in. */
    method HandleDemoAccountClick(demoEmail: string, demoPassword: string)
      modifies this
      ensures email == demoEmail && password == demoPassword && error == ""
      ensures isLoading == old(isLoading)
    {
      email := demoEmail;
      password := demoPassword;
      error := "";
    }
  }

  /** A rejection that is not an `Error` shows "Login failed"; a wrong password shows the service's message. */
  lemma FailureMessages()
    ensures SubmitResult(Some(NonErrorThrown)) == SubmitOutcome(None, "Login failed")
    ensures SubmitResult(Caught(Some(AuthService.InvalidCredentials))) == SubmitOutcome(None, "Invalid email or password")
  {
  }

  /** Credentials made of Latin-1 parts are Latin-1. */
  lemma LatinCredentials(email: string, password: string)
    requires Base64.IsLatin1(email) && Base64.IsLatin1(password)
    ensures Base64.IsLatin1(AuthService.Credentials(email, password))
  {
    Base64.Latin1Concat(email, ":");
    Base64.Latin1Concat(email + ":", password);
  }

  /** A demo account with some access, whose credentials are Latin-1, reaches the dashboard. */
  lemma AdmittedAccountRoute(key: string, serialize: AuthService.User -> string, user: Option<AuthService.User>, storage: AuthContext.Storage)
    requires key in AuthService.MockUsers() && AuthService.MockUsers()[key].profile.roleLevel != -1
    requires Base64.IsLatin1(AuthService.Credentials(key, AuthService.MockUsers()[key].password))
    ensures SubmitResult(Caught(AuthContext.LoginEffect(AuthService.MockUsers(), serialize, key, AuthService.MockUsers()[key].password, user, storage).failure)).navigateTo == Some(Dashboard)
  {
    AuthService.MockUsersKeyedByEmail(key);
  }

  lemma AdminDemoRoute(serialize: AuthService.User -> string, user: Option<AuthService.User>, storage: AuthContext.Storage)
    ensures SubmitResult(Caught(AuthContext.LoginEffect(AuthService.MockUsers(), serialize, "admin@hrms.com", "admin123", user, storage).failure)).navigateTo == Some(Dashboard)
  {
    LatinCredentials("admin@hrms.com", "admin123");
    AdmittedAccountRoute("admin@hrms.com", serialize, user, storage);
  }

  lemma CoordinatorDemoRoute(serialize: AuthService.User -> string, user: Option<AuthService.User>, storage: AuthContext.Storage)
    ensures SubmitResult(Caught(AuthContext.LoginEffect(AuthService.MockUsers(), serialize, "coordinator@hrms.com", "coordinator123", user, storage).failure)).navigateTo == Some(Dashboard)
  {
    LatinCredentials("coordinator@hrms.com", "coordinator123");
    AdmittedAccountRoute("coordinator@hrms.com", serialize, user, storage);
  }

  /**
   * The demo buttons end where their labels say: the admin and read-only
   * accounts reach the dashboard, the no-access account the access-denied page.
   */
  lemma DemoAccountsRoute(serialize: AuthService.User -> string, user: Option<AuthService.User>, storage: AuthContext.Storage)
    ensures SubmitResult(Caught(AuthContext.LoginEffect(AuthService.MockUsers(), serialize, DemoAccounts[0].0, DemoAccounts[0].1, user, storage).failure)).navigateTo == Some(Dashboard)
    ensures SubmitResult(Caught(AuthContext.LoginEffect(AuthService.MockUsers(), serialize, DemoAccounts[1].0, DemoAccounts[1].1, user, storage).failure)).navigateTo == Some(Dashboard)
    ensures SubmitResult(Caught(AuthContext.LoginEffect(AuthService.MockUsers(), serialize, DemoAccounts[2].0, DemoAccounts[2].1, user, storage).failure)).navigateTo == Some(AccessDeniedPage)
  {
    AdminDemoRoute(serialize, user, storage);
    CoordinatorDemoRoute(serialize, user, storage);
    AuthContext.DeveloperIsDenied(serialize, user, storage);
  }
}
