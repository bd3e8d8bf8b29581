/**
 * frontend/js/config.js: the helpers every page shares. The redirect
 * filter and the HTML escaper are string functions; the request builder is
 * the options object apiCall assembles; the browser's localStorage and its
 * location are the fields of a class.
 */
module ClientConfig {
  import opened Wrappers
  import opened JsStrings
  import opened Http

  // ---------------------------------------------------------------------------
  // getSafeRedirect
  // ---------------------------------------------------------------------------

  /** getSafeRedirect over the decoded `redirect` query parameter (None when
      the query has none): an empty value is refused, and so is anything
      that does not start with one '/' followed by something other than
      a second '/'. */
  function GetSafeRedirect(redirect: Option<string>): (r: Option<string>)
    ensures r.Some? ==> r == redirect
    ensures r.Some? <==>
      && redirect.Some? && |redirect.value| >= 1 && redirect.value[0] == '/'
      && (|redirect.value| == 1 || redirect.value[1] != '/')
  {
    if !TruthyString(redirect) then None
    else if !StartsWith(redirect.value, "/") || StartsWith(redirect.value, "//") then None
    else redirect
  }

  /** The characters the URL parser of a browser drops from anywhere in the
      input before parsing it. */
  predicate IsTabOrNewline(c: char) {
    c == '\t' || c == '\n' || c == '\r'
  }

  function WithoutTabsOrNewlines(s: string): (t: string)
    ensures |t| <= |s|
    ensures forall k | 0 <= k < |t| :: !IsTabOrNewline(t[k])
    ensures (forall k | 0 <= k < |s| :: !IsTabOrNewline(s[k])) ==> t == s
  {
    if s == [] then []
    else (if IsTabOrNewline(s[0]) then [] else [s[0]]) + WithoutTabsOrNewlines(s[1..])
  }

  /** Under an http(s) page the URL parser reads '\' as '/'. */
  predicate IsSlash(c: char) {
    c == '/' || c == '\\'
  }

  /** A location the browser resolves as `//host...`, that is, to another
      origin: once tabs and newlines are gone it starts with two slashes of
      either kind. */
  predicate LeavesOrigin(s: string) {
    var t := WithoutTabsOrNewlines(s);
    |t| >= 2 && IsSlash(t[0]) && IsSlash(t[1])
  }

  /** The filter lets through a backslash after the slash, which the
      browser resolves to another origin. */
  lemma BackslashLeavesOrigin(host: string)
    ensures GetSafeRedirect(Some("/\\" + host)) == Some("/\\" + host)
    ensures LeavesOrigin("/\\" + host)
  {
    var a := "/\\" + host;
    assert a[0] == '/' && a[1] == '\\';
    StripKeepsLeadingSlashes(a);
  }

  /** It also lets through a tab or a newline between two slashes, which the
      browser drops before reading `//host`. */
  lemma TabLeavesOrigin(c: char, host: string)
    requires IsTabOrNewline(c)
    ensures GetSafeRedirect(Some(['/', c, '/'] + host)) == Some(['/', c, '/'] + host)
    ensures LeavesOrigin(['/', c, '/'] + host)
  {
    var b := ['/', c, '/'] + host;
    assert b[0] == '/' && b[1] == c && b[2] == '/';
    assert b[1..][1..] == b[2..] && b[2..][1..] == host;
    assert WithoutTabsOrNewlines(b[1..]) == WithoutTabsOrNewlines(b[2..]);
    assert WithoutTabsOrNewlines(b[2..]) == ['/'] + WithoutTabsOrNewlines(host);
  }

  /** The redirect filter with the intended guarantee: the target is refused
      whenever the browser would take it to another origin. */
  function SafeRedirect(redirect: Option<string>): (r: Option<string>)
    ensures r.Some? ==> r == redirect && redirect.value != [] && redirect.value[0] == '/' && !LeavesOrigin(redirect.value)
    ensures r.Some? ==> GetSafeRedirect(redirect) == r
  {
    if !TruthyString(redirect) then None
    else if !StartsWith(redirect.value, "/") || LeavesOrigin(redirect.value) then None
    else
      assert StartsWith(redirect.value, "/") && redirect.value[0] == '/';
      assert |redirect.value| >= 2 && redirect.value[1] == '/' ==> LeavesOrigin(redirect.value) by {
        if |redirect.value| >= 2 && redirect.value[1] == '/' {
          StripKeepsLeadingSlashes(redirect.value);
        }
      }
      redirect
  }

  /** Two leading non-stripped characters survive the stripping in place. */
  lemma StripKeepsLeadingSlashes(s: string)
    requires |s| >= 2 && !IsTabOrNewline(s[0]) && !IsTabOrNewline(s[1])
    ensures |WithoutTabsOrNewlines(s)| >= 2
    ensures WithoutTabsOrNewlines(s)[0] == s[0] && WithoutTabsOrNewlines(s)[1] == s[1]
  {
    assert WithoutTabsOrNewlines(s) == [s[0]] + ([s[1]] + WithoutTabsOrNewlines(s[2..])) by {
      assert s[1..][0] == s[1] && s[1..][1..] == s[2..];
    }
  }

  /** On targets with no backslash, tab or newline the two filters agree, so
      the correction only refuses the values that leave the origin. */
  lemma SafeRedirectAgreesOnPlainPaths(redirect: Option<string>)
    requires redirect.Some? ==> forall k | 0 <= k < |redirect.value| :: redirect.value[k] != '\\' && !IsTabOrNewline(redirect.value[k])
    ensures SafeRedirect(redirect) == GetSafeRedirect(redirect)
  {
    if redirect.Some? && |redirect.value| >= 2 {
      assert WithoutTabsOrNewlines(redirect.value) == redirect.value;
    }
  }

  // ---------------------------------------------------------------------------
  // escapeHtml
  // ---------------------------------------------------------------------------

  /** String.prototype.replace with a global regular expression matching one
      character: every occurrence of c becomes rep. */
  function ReplaceAll(s: string, c: char, rep: string): (r: string)
    ensures |rep| >= 1 ==> |r| >= |s|
    ensures c !in s ==> r == s
  {
    if s == [] then []
    else (if s[0] == c then rep else [s[0]]) + ReplaceAll(s[1..], c, rep)
  }

  lemma {:induction false} ReplaceAllAppend(s: string, t: string, c: char, rep: string)
    ensures ReplaceAll(s + t, c, rep) == ReplaceAll(s, c, rep) + ReplaceAll(t, c, rep)
  {
    if s == [] {
      assert s + t == t;
    } else {
      assert (s + t)[0] == s[0] && (s + t)[1..] == s[1..] + t;
      ReplaceAllAppend(s[1..], t, c, rep);
      ConcatAssociates((if s[0] == c then rep else [s[0]]), ReplaceAll(s[1..], c, rep), ReplaceAll(t, c, rep));
    }
  }

  /** The five replacements in the order escapeHtml applies them. */
  function ReplaceChain(s: string): string {
    var amp := ReplaceAll(s, '&', "&amp;");
    var lt := ReplaceAll(amp, '<', "&lt;");
    var gt := ReplaceAll(lt, '>', "&gt;");
    var quot := ReplaceAll(gt, '"', "&quot;");
    ReplaceAll(quot, '\'', "&#39;")
  }

  /** The characters escapeHtml rewrites. */
  predicate IsMarkup(c: char) {
    c == '<' || c == '>' || c == '"' || c == '\''
  }

  /** The entity that stands for one character, or the character itself. */
  function EscapeChar(c: char): (e: string)
    ensures |e| >= 1
    ensures forall k | 0 <= k < |e| :: !IsMarkup(e[k])
    ensures c != '&' && !IsMarkup(c) <==> e == [c]
  {
    if c == '&' then "&amp;"
    else if c == '<' then "&lt;"
    else if c == '>' then "&gt;"
    else if c == '"' then "&quot;"
    else if c == '\'' then "&#39;"
    else [c]
  }

  /** Escaping character by character: the reference the chain is checked
      against. */
  function EscapeEach(s: string): (r: string)
    ensures |r| >= |s|
    ensures forall k | 0 <= k < |r| :: !IsMarkup(r[k])
  {
    if s == [] then [] else EscapeChar(s[0]) + EscapeEach(s[1..])
  }

  /** escapeHtml: null and undefined give the empty string; any other value,
      already turned into its string, goes through the five replacements. */
  function EscapeHtml(value: Option<string>): (r: string)
    ensures value.None? ==> r == ""
    ensures value.Some? ==> r == EscapeEach(value.value)
  {
    match value
    case None => ""
    case Some(s) =>
      ChainIsEscapeEach(s);
      ReplaceChain(s)
  }

  /** The chain maps one character to its entity; later replacements do not
      touch the '&' an earlier one wrote, because '&' goes first. */
  lemma ChainOfChar(c: char)
    ensures ReplaceChain([c]) == EscapeChar(c)
  {
    var amp := ReplaceAll([c], '&', "&amp;");
    if c == '&' {
      assert ReplaceAll([c], '&', "&amp;") == "&amp;" + ReplaceAll([], '&', "&amp;");
      assert ReplaceChain([c]) == "&amp;";
    } else {
      assert amp == [c];
      if c == '<' {
        assert ReplaceAll([c], '<', "&lt;") == "&lt;" + ReplaceAll([], '<', "&lt;");
      } else if c == '>' {
        assert ReplaceAll([c], '>', "&gt;") == "&gt;" + ReplaceAll([], '>', "&gt;");
      } else if c == '"' {
        assert ReplaceAll([c], '"', "&quot;") == "&quot;" + ReplaceAll([], '"', "&quot;");
      } else if c == '\'' {
        assert ReplaceAll([c], '\'', "&#39;") == "&#39;" + ReplaceAll([], '\'', "&#39;");
      }
    }
  }

  lemma ChainAppend(s: string, t: string)
    ensures ReplaceChain(s + t) == ReplaceChain(s) + ReplaceChain(t)
  {
    var amp := ReplaceAll(s, '&', "&amp;");
    var amp' := ReplaceAll(t, '&', "&amp;");
    ReplaceAllAppend(s, t, '&', "&amp;");
    var lt, lt' := ReplaceAll(amp, '<', "&lt;"), ReplaceAll(amp', '<', "&lt;");
    ReplaceAllAppend(amp, amp', '<', "&lt;");
    var gt, gt' := ReplaceAll(lt, '>', "&gt;"), ReplaceAll(lt', '>', "&gt;");
    ReplaceAllAppend(lt, lt', '>', "&gt;");
    var quot, quot' := ReplaceAll(gt, '"', "&quot;"), ReplaceAll(gt', '"', "&quot;");
    ReplaceAllAppend(gt, gt', '"', "&quot;");
    ReplaceAllAppend(quot, quot', '\'', "&#39;");
  }

  /** The chain of replacements equals escaping each character on its own. */
  lemma {:induction false} ChainIsEscapeEach(s: string)
    ensures ReplaceChain(s) == EscapeEach(s)
  {
    if s == [] {
    } else {
      assert s == [s[0]] + s[1..];
      ChainAppend([s[0]], s[1..]);
      ChainOfChar(s[0]);
      ChainIsEscapeEach(s[1..]);
    }
  }

  /** The five entities escapeHtml writes. */
  predicate StartsEntity(t: string) {
    StartsWith(t, "&amp;") || StartsWith(t, "&lt;") || StartsWith(t, "&gt;")
    || StartsWith(t, "&quot;") || StartsWith(t, "&#39;")
  }

  /** Every '&' of t begins one of the entities. */
  ghost predicate AmpersandsOpenEntities(t: string) {
    forall k | 0 <= k < |t| && t[k] == '&' :: StartsEntity(t[k..])
  }

  lemma AmpersandsConcat(a: string, b: string)
    requires AmpersandsOpenEntities(a) && AmpersandsOpenEntities(b)
    ensures AmpersandsOpenEntities(a + b)
  {
    forall k | 0 <= k < |a + b| && (a + b)[k] == '&'
      ensures StartsEntity((a + b)[k..])
    {
      if k < |a| {
        assert (a + b)[k..] == a[k..] + b;
        assert StartsEntity(a[k..]);
      } else {
        assert (a + b)[k..] == b[k - |a|..];
      }
    }
  }

  lemma EntityOfChar(c: char)
    ensures AmpersandsOpenEntities(EscapeChar(c))
  {
    var e := EscapeChar(c);
    forall k | 0 <= k < |e| && e[k] == '&'
      ensures StartsEntity(e[k..])
    {
      assert k == 0;
    }
  }

  /** In escapeHtml's output every '&' starts an entity: none of the input's
      own ampersands is left bare. */
  lemma {:induction false} EscapedAmpersandsOpenEntities(s: string)
    ensures AmpersandsOpenEntities(EscapeEach(s))
  {
    if s != [] {
      EntityOfChar(s[0]);
      EscapedAmpersandsOpenEntities(s[1..]);
      AmpersandsConcat(EscapeChar(s[0]), EscapeEach(s[1..]));
    }
  }

  /** Text without markup characters or ampersands comes out unchanged. */
  lemma {:induction false} PlainTextUnchanged(s: string)
    requires forall k | 0 <= k < |s| :: s[k] != '&' && !IsMarkup(s[k])
    ensures EscapeEach(s) == s
  {
    if s != [] {
      PlainTextUnchanged(s[1..]);
    }
  }

  /** escapeHtml of a number goes through String(value) first, and that
      decimal form has only digits and '-': it comes out unchanged. */
  lemma NumberEscapesToItself(n: int)
    ensures EscapeHtml(Some(IntToString(n))) == IntToString(n)
  {
    var s := IntToString(n);
    forall k | 0 <= k < |s|
      ensures s[k] != '&' && !IsMarkup(s[k])
    {
      if n < 0 && k == 0 {
        assert s[k] == '-';
      } else if n < 0 {
        assert s[k] == NatToString(-n)[k - 1];
      }
    }
    PlainTextUnchanged(s);
  }

  /** Reading the entities back: the inverse of escaping. */
  function Unescape(t: string): string
    decreases |t|
  {
    if t == [] then []
    else if StartsWith(t, "&amp;") then "&" + Unescape(t[5..])
    else if StartsWith(t, "&lt;") then "<" + Unescape(t[4..])
    else if StartsWith(t, "&gt;") then ">" + Unescape(t[4..])
    else if StartsWith(t, "&quot;") then "\"" + Unescape(t[6..])
    else if StartsWith(t, "&#39;") then "'" + Unescape(t[5..])
    else [t[0]] + Unescape(t[1..])
  }

  lemma UnescapeChar(c: char, rest: string)
    ensures Unescape(EscapeChar(c) + rest) == [c] + Unescape(rest)
  {
    var t := EscapeChar(c) + rest;
    if c == '&' {
      assert t[5..] == rest;
    } else if c == '<' {
      assert t[..4] == "&lt;" && t[1] == 'l' && t[4..] == rest;
    } else if c == '>' {
      assert t[..4] == "&gt;" && t[1] == 'g' && t[4..] == rest;
    } else if c == '"' {
      assert t[..6] == "&quot;" && t[1] == 'q' && t[6..] == rest;
    } else if c == '\'' {
      assert t[..5] == "&#39;" && t[1] == '#' && t[5..] == rest;
    } else {
      assert t[0] == c && t[1..] == rest;
    }
  }

  /** Unescaping undoes escaping: nothing of the input is lost. */
  lemma {:induction false} UnescapeEscape(s: string)
    ensures Unescape(EscapeEach(s)) == s
  {
    if s != [] {
      UnescapeChar(s[0], EscapeEach(s[1..]));
      UnescapeEscape(s[1..]);
    }
  }

  // ---------------------------------------------------------------------------
  // apiCall
  // ---------------------------------------------------------------------------

  /** The fetch apiCall makes. `body` is the JSON text of the data. */
  datatype Request = Request(
    url: string, verb: string, contentType: string,
    authorization: Option<string>, body: Option<string>)

  predicate CarriesBody(verb: string) {
    verb == "POST" || verb == "PUT" || verb == "PATCH"
  }

  /** The request for endpoint under origin + "/api", with the stored token
      (None when localStorage has none) and the data's JSON text (None for
      null). */
  function BuildRequest(origin: string, endpoint: string, verb: string, token: Option<string>, data: Option<string>)
    : (q: Request)
    ensures q.url == origin + "/api" + endpoint && q.verb == verb && q.contentType == "application/json"
    ensures q.authorization.Some? <==> token.Some? && token.value != ""
    ensures q.authorization.Some? ==> q.authorization.value == "Bearer " + token.value
    ensures q.body.Some? <==> data.Some? && CarriesBody(verb)
    ensures q.body.Some? ==> q.body == data
  {
    var authorization := if TruthyString(token) then Some("Bearer " + token.value) else None;
    var body := if data.Some? && CarriesBody(verb) then data else None;
    Request(origin + "/api" + endpoint, verb, "application/json", authorization, body)
  }

  /** What fetch gives back: no response at all (the error it rejects with),
      or a response with its ok flag and the message of its JSON body. */
  datatype Fetched = NoResponse(error: string) | Answered(ok: bool, message: Option<string>)

  datatype ApiResult = Resolved | Rejected(message: string)

  /** apiCall's answer: a response that is not ok rejects with its message,
      or a default when the message is falsy; a failed fetch rejects with
      its own error. */
  function ApiOutcome(f: Fetched): (r: ApiResult)
    ensures r.Resolved? <==> f.Answered? && f.ok
    ensures r.Rejected? && f.Answered? ==> r.message != ""
    ensures f.Answered? && !f.ok && TruthyString(f.message) ==> r == Rejected(f.message.value)
  {
    match f
    case NoResponse(e) => Rejected(e)
    case Answered(ok, message) =>
      if ok then Resolved
      else Rejected(if TruthyString(message) then message.value else "API request failed")
  }

  /** A JSON reply of the server as fetch sees it: ok for a 2xx status. */
  function FetchedOf(reply: Reply): (f: Fetched)
    requires reply.Json?
    ensures f.Answered? && f.message == Some(reply.message)
    ensures f.ok <==> 200 <= reply.status < 300
  {
    Answered(200 <= reply.status < 300, Some(reply.message))
  }

  /** Every refusal the server words is what apiCall rejects with. */
  lemma RefusalIsRejection(reply: Reply)
    requires reply.Json? && reply.status >= 400 && reply.message != ""
    ensures ApiOutcome(FetchedOf(reply)) == Rejected(reply.message)
  {
  }

  // ---------------------------------------------------------------------------
  // localStorage, logout and requireAuth
  // ---------------------------------------------------------------------------

  /** The parsed `userData` entry; only its role is read. */
  datatype StoredUser = StoredUser(role: Option<string>)

  datatype AuthCheck = Allowed | NotLoggedIn | NoUserData | WrongRole

  /** requireAuth's decision on what is stored and the role asked for. */
  function AuthDecision(token: Option<string>, user: Option<StoredUser>, requiredRole: Option<string>): (d: AuthCheck)
    ensures d == Allowed <==>
      TruthyString(token) && user.Some? && (!TruthyString(requiredRole) || user.value.role == requiredRole)
    ensures d == NotLoggedIn <==> !TruthyString(token)
    ensures d == NoUserData <==> TruthyString(token) && user.None?
  {
    if !TruthyString(token) then NotLoggedIn
    else if user.None? then NoUserData
    else if TruthyString(requiredRole) && user.value.role != requiredRole then WrongRole
    else Allowed
  }

  const LoginPath: string := "/login.html"

  /** The page's view of the browser: localStorage's two keys, where
      window.location.href was last sent (None while the page stays), and
      the alerts shown. */
  class Browser {
    var authToken: Option<string>
    var userData: Option<StoredUser>
    var location: Option<string>
    var alerts: seq<string>

    constructor (authToken: Option<string>, userData: Option<StoredUser>)
      ensures this.authToken == authToken && this.userData == userData
      ensures location == None && alerts == []
    {
      this.authToken := authToken;
      this.userData := userData;
      location := None;
      alerts := [];
    }

    /** isLoggedIn: a truthy stored token. */
    predicate IsLoggedIn()
      reads this
    {
      TruthyString(authToken)
    }

    /** logout: both keys removed, then the login page. */
    method Logout()
      modifies this
      ensures authToken == None && userData == None && location == Some(LoginPath)
      ensures alerts == old(alerts)
    {
      authToken := None;
      userData := None;
      location := Some(LoginPath);
    }

    /** requireAuth: true iff allowed. Without a token it only navigates to
        the login page; without user data, or with the wrong role (after an
        alert), it logs out. */
    method RequireAuth(requiredRole: Option<string>) returns (ok: bool)
      modifies this
      ensures ok <==> AuthDecision(old(authToken), old(userData), requiredRole) == Allowed
      ensures ok ==> authToken == old(authToken) && userData == old(userData) && location == old(location)
      ensures AuthDecision(old(authToken), old(userData), requiredRole) == WrongRole ==> alerts == old(alerts) + ["Unauthorized access"]
      ensures AuthDecision(old(authToken), old(userData), requiredRole) != WrongRole ==> alerts == old(alerts)
      ensures AuthDecision(old(authToken), old(userData), requiredRole) == NotLoggedIn ==>
        authToken == old(authToken) && userData == old(userData) && location == Some(LoginPath)
      ensures AuthDecision(old(authToken), old(userData), requiredRole) in {NoUserData, WrongRole} ==>
        authToken == None && userData == None && location == Some(LoginPath)
    {
      if !IsLoggedIn() {
        location := Some(LoginPath);
        return false;
      }
      if userData.None? {
        Logout();
        return false;
      }
      if TruthyString(requiredRole) && userData.value.role != requiredRole {
        alerts := alerts + ["Unauthorized access"];
        Logout();
        return false;
      }
      return true;
    }
  }
}
