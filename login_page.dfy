/**
 * frontend/js/auth.js: the login page. At load a logged-in visitor is sent
 * on at once; the form posts the credentials and, on success, stores the
 * session before navigating. The redirect target is read once, through the
 * redirect filter as written, when the page loads; PageLoadSafe is the same
 * page with the corrected filter.
 */
module LoginPage {
  import opened Wrappers
  import opened Http
  import opened ClientConfig
  import QrRoutes
  import Uri
  import AuthRoutes

  const TeacherHome: string := "/teacher.html"
  const StudentHome: string := "/student.html"

  /** Where the page goes: the redirect target when there is one, else the
      teacher's page for role 'teacher' and the student's page for anything
      else, a missing role included. */
  function Destination(target: Option<string>, role: Option<string>): (d: string)
    ensures target.Some? && target.value != "" ==> d == target.value
    ensures (target.None? || target.value == "") ==> (d == TeacherHome <==> role == Some("teacher"))
    ensures (target.None? || target.value == "") ==> d == TeacherHome || d == StudentHome
  {
    if TruthyString(target) then target.value
    else if role == Some("teacher") then TeacherHome
    else StudentHome
  }

  /** The role a stored user record gives; no record, no role. */
  function RoleOf(user: Option<StoredUser>): Option<string> {
    if user.Some? then user.value.role else None
  }

  /** A destination is either a target the filter as written let through,
      or one of the two home pages. */
  lemma DestinationIsFiltered(redirect: Option<string>, role: Option<string>)
    ensures var d := Destination(GetSafeRedirect(redirect), role);
      || d == TeacherHome || d == StudentHome
      || (GetSafeRedirect(redirect) == Some(d) && d[0] == '/' && (|d| == 1 || d[1] != '/'))
  {
  }

  /** Through the filter as written, a logged-in visitor of
      /login.html?redirect=%2F%5Chost is sent to "/\host", which the
      browser resolves to another origin, whatever the role. */
  lemma BackslashDestinationLeavesOrigin(host: string, role: Option<string>)
    ensures Destination(GetSafeRedirect(Some("/\\" + host)), role) == "/\\" + host
    ensures LeavesOrigin(Destination(GetSafeRedirect(Some("/\\" + host)), role))
  {
    BackslashLeavesOrigin(host);
  }

  /** With the corrected filter a destination is a home page or a target
      that stays on the origin. */
  lemma DestinationIsSafe(redirect: Option<string>, role: Option<string>)
    ensures var d := Destination(SafeRedirect(redirect), role);
      d == TeacherHome || d == StudentHome || (SafeRedirect(redirect) == Some(d) && !LeavesOrigin(d))
  {
  }

  /** The page load as written: the target is read through getSafeRedirect;
      a visitor with a stored token is sent on at once, others stay on the
      page. */
  method PageLoad(browser: Browser, redirect: Option<string>) returns (target: Option<string>)
    modifies browser`location
    ensures target == GetSafeRedirect(redirect)
    ensures browser.IsLoggedIn() ==> browser.location == Some(Destination(target, RoleOf(browser.userData)))
    ensures !browser.IsLoggedIn() ==> browser.location == old(browser.location)
  {
    target := GetSafeRedirect(redirect);
    if browser.IsLoggedIn() {
      browser.location := Some(Destination(target, RoleOf(browser.userData)));
    }
  }

  /** The page load with the corrected filter. */
  method PageLoadSafe(browser: Browser, redirect: Option<string>) returns (target: Option<string>)
    modifies browser`location
    ensures target == SafeRedirect(redirect)
    ensures browser.IsLoggedIn() ==> browser.location == Some(Destination(target, RoleOf(browser.userData)))
    ensures browser.IsLoggedIn() ==> !LeavesOrigin(browser.location.value)
    ensures !browser.IsLoggedIn() ==> browser.location == old(browser.location)
  {
    target := SafeRedirect(redirect);
    if browser.IsLoggedIn() {
      SafeDestinationStays(redirect, RoleOf(browser.userData));
      browser.location := Some(Destination(target, RoleOf(browser.userData)));
    }
  }

  /** A path whose second character is neither a slash nor stripped stays
      on the origin. */
  lemma SecondCharKeepsOrigin(s: string)
    requires |s| >= 2 && !IsTabOrNewline(s[0]) && !IsTabOrNewline(s[1]) && !IsSlash(s[1])
    ensures !LeavesOrigin(s)
  {
    StripKeepsLeadingSlashes(s);
  }

  /** The two home pages do not leave the origin. */
  lemma HomeStaysOnOrigin(home: string)
    requires home == TeacherHome || home == StudentHome
    ensures !LeavesOrigin(home)
  {
    SecondCharKeepsOrigin(home);
  }

  /** With the corrected filter the page never leaves the origin. */
  lemma SafeDestinationStays(redirect: Option<string>, role: Option<string>)
    ensures !LeavesOrigin(Destination(SafeRedirect(redirect), role))
  {
    var d := Destination(SafeRedirect(redirect), role);
    DestinationIsSafe(redirect, role);
    if d == TeacherHome || d == StudentHome {
      HomeStaysOnOrigin(d);
    }
  }

  /** A logged-in student opening /login.html?redirect=%2F%5C followed by a
      host: as written the page sends them off the origin. */
  method LoggedInVisitorLeaves(host: string) returns (browser: Browser)
    ensures fresh(browser)
    ensures browser.location == Some("/\\" + host) && LeavesOrigin(browser.location.value)
  {
    browser := new Browser(Some("t"), Some(StoredUser(Some("student"))));
    var target := PageLoad(browser, Some("/\\" + host));
    BackslashDestinationLeavesOrigin(host, Some("student"));
  }

  /** The same visit with the corrected filter lands on the student's page. */
  method LoggedInVisitorStays(host: string) returns (browser: Browser)
    ensures fresh(browser)
    ensures browser.location == Some(StudentHome)
  {
    browser := new Browser(Some("t"), Some(StoredUser(Some("student"))));
    BackslashLeavesOrigin(host);
    var target := PageLoadSafe(browser, Some("/\\" + host));
  }

  /** How the login request ends for the page: a successful answer with the
      signed token and the user, an answer without success, or a thrown
      error with its message. */
  datatype SubmitResult = Accepted(token: string, user: StoredUser) | Unsuccessful | Thrown(message: string)

  /** The server's login outcome as it reaches the form through apiCall;
      token is what jwt.sign produced. */
  function ResultOf(o: AuthRoutes.LoginOutcome, token: string): (r: SubmitResult)
    requires o.LoginRefused? ==> o.reply.Json?
    ensures o.LoggedIn? ==> r == Accepted(token, StoredUser(Some(o.user.role)))
    ensures o.LoginRefused? && o.reply.status >= 400 && o.reply.message != "" ==> r == Thrown(o.reply.message)
  {
    match o
    case LoggedIn(_, _, user) => Accepted(token, StoredUser(Some(user.role)))
    case LoginRefused(reply) =>
      match ApiOutcome(FetchedOf(reply))
      case Resolved => Unsuccessful
      case Rejected(m) => Thrown(m)
  }

  const DefaultLoginError: string := "Login failed. Please try again."

  /** The text shown for an error: its message, or the default when empty. */
  function ErrorText(message: string): (t: string)
    ensures t != ""
    ensures message != "" ==> t == message
  {
    if message != "" then message else DefaultLoginError
  }

  /** The form's widgets. */
  class LoginForm {
    var buttonDisabled: bool
    var buttonText: string
    var errorShown: bool
    var errorText: string
    /** The redirect target read at page load. */
    const target: Option<string>

    constructor (target: Option<string>)
      ensures this.target == target
      ensures !buttonDisabled && buttonText == "Sign In" && !errorShown && errorText == ""
    {
      this.target := target;
      buttonDisabled := false;
      buttonText := "Sign In";
      errorShown := false;
      errorText := "";
    }

    /** The submit handler, given how the login request ends. The button is
        disabled and the error hidden first. Success stores the token and
        the user, then navigates by target or role; an answer without
        success does nothing more; an error is shown and the button comes
        back. */
    method Submit(browser: Browser, result: SubmitResult)
      modifies this, browser
      ensures result.Accepted? ==>
        && browser.authToken == Some(result.token) && browser.userData == Some(result.user)
        && browser.location == Some(Destination(target, result.user.role))
        && buttonDisabled && buttonText == "Signing in..." && !errorShown
      ensures result.Unsuccessful? ==>
        && browser.authToken == old(browser.authToken) && browser.userData == old(browser.userData)
        && browser.location == old(browser.location)
        && buttonDisabled && buttonText == "Signing in..." && !errorShown
      ensures result.Thrown? ==>
        && browser.authToken == old(browser.authToken) && browser.userData == old(browser.userData)
        && browser.location == old(browser.location)
        && !buttonDisabled && buttonText == "Sign In" && errorShown && errorText == ErrorText(result.message)
      ensures !result.Thrown? ==> errorText == old(errorText)
      ensures browser.alerts == old(browser.alerts)
    {
      buttonDisabled := true;
      buttonText := "Signing in...";
      errorShown := false;
      match result
      case Accepted(token, user) =>
        browser.authToken := Some(token);
        browser.userData := Some(user);
        browser.location := Some(Destination(target, user.role));
      case Unsuccessful =>
      case Thrown(message) =>
        errorText := ErrorText(message);
        errorShown := true;
        buttonDisabled := false;
        buttonText := "Sign In";
    }
  }

  /** An unknown email and a wrong password both end with the form showing
      "Invalid credentials". */
  lemma WrongCredentialsShown(users: seq<AuthRoutes.User>, email: string, password: string,
                              matches: AuthRoutes.PasswordCheck, token: string)
    requires email != [] && password != []
    requires !AuthRoutes.Login(users, Some(email), Some(password), matches).LoggedIn?
    ensures ResultOf(AuthRoutes.Login(users, Some(email), Some(password), matches), token) == Thrown("Invalid credentials")
  {
  }

  /** A student sent to the login page by the attendance link comes back to
      that link: the redirect parameter decodes to the return target, the
      filter accepts it, and after logging in it wins over the role. */
  lemma AttendanceLinkComesBack(token: Option<string>, classId: Option<string>, role: Option<string>)
    ensures var location := QrRoutes.LoginRedirect(token, classId);
      var target := QrRoutes.ReturnTarget(token, classId);
      && Uri.DecodeUriComponent(location[|QrRoutes.RedirectPrefix|..]) == Some(target)
      && GetSafeRedirect(Some(target)) == Some(target) && SafeRedirect(Some(target)) == Some(target)
      && Destination(GetSafeRedirect(Some(target)), role) == target
  {
    QrRoutes.LoginRedirectRoundTrip(token, classId);
    ReturnTargetAccepted(QrRoutes.ReturnTarget(token, classId));
  }

  /** Any path under "/m..." passes both filters. */
  lemma ReturnTargetAccepted(target: string)
    requires QrRoutes.MarkPagePrefix <= target
    ensures SafeRedirect(Some(target)) == Some(target)
    ensures GetSafeRedirect(Some(target)) == Some(target)
  {
    assert target[0] == '/' && target[1] == 'm';
    StripKeepsLeadingSlashes(target);
  }
}
