/**
 * The admin token gate (`require_admin_auth` in admin-auth.php) and the
 * login that issues the token (admin-login.php).
 *
 * The token is SHA-256 of "user:pass:biztools_admin_secret". The hash is a
 * parameter of the configuration, so nothing here depends on what it
 * computes; the one fact used about it, where stated, is that its hex
 * digest is written in lower-case hexadecimal.
 */
module AdminAuth {
  import opened Wrappers
  import opened Http
  import opened Text

  /** The parsed `.env` file of the API (empty when there is none) and the hash function. */
  datatype Config = Config(env: map<string, string>, sha256: string -> string)

  /** Where a request may carry the token: three headers and the `admin_token` query parameter. */
  datatype AuthRequest = AuthRequest(
    authorization: Option<string>,          // $_SERVER['HTTP_AUTHORIZATION']
    redirectAuthorization: Option<string>,  // $_SERVER['REDIRECT_HTTP_AUTHORIZATION']
    adminTokenHeader: Option<string>,       // $_SERVER['HTTP_X_ADMIN_TOKEN']
    queryToken: Option<string>)             // $_GET['admin_token']

  const UnauthorizedError := Unauthorized("Unauthorized. Admin login required.")
  const BadCredentials := Unauthorized("Invalid username or password")
  const Secret := "biztools_admin_secret"
  const Bearer := "Bearer "

  /** `$env[key] ?? fallback`: a configured value is used as it is, a missing one falls back. */
  function EnvOr(cfg: Config, key: string, fallback: string): (v: string)
    ensures key in cfg.env ==> v == cfg.env[key]
    ensures key !in cfg.env ==> v == fallback
  {
    if key in cfg.env then cfg.env[key] else fallback
  }

  /** The admin's name, "admin" unless configured. */
  function AdminUser(cfg: Config): string {
    EnvOr(cfg, "ADMIN_USERNAME", "admin")
  }

  /** The admin's password, "admin123" unless configured. */
  function AdminPass(cfg: Config): string {
    EnvOr(cfg, "ADMIN_PASSWORD", "admin123")
  }

  /** The one token the gate accepts, and the one login issues. */
  function ExpectedToken(cfg: Config): string {
    cfg.sha256(AdminUser(cfg) + ":" + AdminPass(cfg) + ":" + Secret)
  }

  /** The first header that is present, in the order the gate tries them, else "". */
  function HeaderCredential(req: AuthRequest): (h: string)
    ensures req.authorization.Some? ==> h == req.authorization.value
    ensures req.authorization.None? && req.redirectAuthorization.Some? ==> h == req.redirectAuthorization.value
    ensures req.authorization.None? && req.redirectAuthorization.None? && req.adminTokenHeader.Some?
            ==> h == req.adminTokenHeader.value
    ensures req.authorization.None? && req.redirectAuthorization.None? && req.adminTokenHeader.None? ==> h == ""
  {
    match (req.authorization, req.redirectAuthorization, req.adminTokenHeader)
    case (Some(a), _, _) => a
    case (None, Some(a), _) => a
    case (None, None, Some(a)) => a
    case (None, None, None) => ""
  }

  /**
   * `str_replace('Bearer ', '', $s)`: one left-to-right pass that deletes each
   * occurrence it finds; text that only becomes "Bearer " once an inner
   * occurrence is gone is not rescanned.
   */
  function StripBearer(s: string): (r: string)
    ensures |r| <= |s|
    decreases |s|
  {
    if |s| == 0 then ""
    else if Bearer <= s then StripBearer(s[|Bearer|..])
    else [s[0]] + StripBearer(s[1..])
  }

  /** A leading "Bearer " is dropped. */
  lemma StripBearerPrefix(t: string)
    ensures StripBearer(Bearer + t) == StripBearer(t)
  {
    assert Bearer <= Bearer + t;
    assert (Bearer + t)[|Bearer|..] == t;
  }

  /** Text at which no occurrence starts is copied as it is, and the pass goes on after it. */
  lemma {:induction false} StripBearerCopies(a: string, u: string)
    requires forall i :: 0 <= i < |a| ==> !(Bearer <= (a + u)[i..])
    ensures StripBearer(a + u) == a + StripBearer(u)
    decreases |a|
  {
    if a != [] {
      var s := a + u;
      assert s[0..] == s;
      assert s[1..] == a[1..] + u;
      forall i | 0 <= i < |a[1..]| ensures !(Bearer <= (a[1..] + u)[i..]) {
        assert (a[1..] + u)[i..] == s[i + 1..];
      }
      StripBearerCopies(a[1..], u);
      assert [s[0]] + (a[1..] + StripBearer(u)) == a + StripBearer(u);
    }
  }

  /**
   * An occurrence after other text is deleted too: when no occurrence starts
   * before it, `a + "Bearer " + t` becomes `a` followed by what `t` becomes.
   */
  lemma StripBearerAfterText(a: string, t: string)
    requires forall i :: 0 <= i < |a| ==> !(Bearer <= (a + Bearer + t)[i..])
    ensures StripBearer(a + Bearer + t) == a + StripBearer(t)
  {
    assert a + Bearer + t == a + (Bearer + t);
    StripBearerCopies(a, Bearer + t);
    StripBearerPrefix(t);
  }

  /** A string with no occurrence of "Bearer " passes through unchanged. */
  lemma {:induction false} StripBearerNoOccurrence(s: string)
    requires !Contains(s, Bearer)
    ensures StripBearer(s) == s
  {
    if |s| > 0 {
      StripBearerNoOccurrence(s[1..]);
    }
  }

  lemma {:induction false} ShortHasNoBearer(t: string)
    requires |t| < |Bearer|
    ensures !Contains(t, Bearer)
  {
    if |t| > 0 {
      ShortHasNoBearer(t[1..]);
    }
  }

  /** The single pass can leave an occurrence behind. */
  lemma StripBearerIsSinglePass(s: string)
    requires s == "BeBearer arer "
    ensures StripBearer(s) == Bearer
  {
    var tail := s[9..];
    ShortHasNoBearer(tail);
    StripBearerNoOccurrence(tail);
    var mid := s[2..];
    assert mid == Bearer + tail;
    StripBearerPrefix(tail);
    assert !(Bearer <= s) by { assert s[..|Bearer|][2] != Bearer[2]; }
    assert !(Bearer <= s[1..]) by { assert s[1..][..|Bearer|][0] != Bearer[0]; }
    assert s[1..][1..] == mid;
    assert tail == "arer ";
  }

  /** PHP's `!$token` / `empty(...)` on a string: "" and "0" are falsy. */
  predicate PhpFalsy(s: string) {
    s == "" || s == "0"
  }

  /** The token the gate compares: the header's, or the query parameter's when that one is falsy. */
  function PresentedToken(req: AuthRequest): string {
    var token := StripBearer(HeaderCredential(req));
    if PhpFalsy(token) && req.queryToken.Some? && !PhpFalsy(req.queryToken.value)
    then req.queryToken.value
    else token
  }

  /** `require_admin_auth()`: strict string equality with the expected token, else 401. */
  function RequireAdminAuth(cfg: Config, req: AuthRequest): (r: Result<(), ApiError>)
    ensures r.Ok? <==> PresentedToken(req) == ExpectedToken(cfg)
    ensures r.Err? ==> r.error == UnauthorizedError
  {
    if PresentedToken(req) == ExpectedToken(cfg) then Ok(()) else Err(UnauthorizedError)
  }

  predicate Authorized(cfg: Config, req: AuthRequest) {
    RequireAdminAuth(cfg, req).Ok?
  }

  /** A header token that is not falsy makes the query parameter irrelevant. */
  lemma QueryIgnoredWhenHeaderTokenSet(req: AuthRequest, query: Option<string>)
    requires !PhpFalsy(StripBearer(HeaderCredential(req)))
    ensures PresentedToken(req.(queryToken := query)) == PresentedToken(req)
  {
  }

  /** "0" in a header is falsy in PHP, so a non-empty query token takes over. */
  lemma ZeroHeaderFallsBackToQuery(q: string)
    requires !PhpFalsy(q)
    ensures PresentedToken(AuthRequest(Some("0"), None, None, Some(q))) == q
  {
    assert !(Bearer <= "0");
    assert "0"[1..] == "";
  }

  /** Lower-case hexadecimal, the form of a SHA-256 hex digest. */
  predicate IsLowerHex(s: string) {
    forall i :: 0 <= i < |s| ==> s[i] in "0123456789abcdef"
  }

  lemma {:induction false} HexHasNoBearer(t: string)
    requires IsLowerHex(t)
    ensures !Contains(t, Bearer)
  {
    if |t| > 0 {
      assert t[0] != Bearer[0];
      HexHasNoBearer(t[1..]);
    }
  }

  /** POST admin-login: the username is trimmed, the password is compared as sent. */
  function Login(cfg: Config, username: string, password: string): (r: Result<string, ApiError>)
    ensures r.Ok? <==> PhpTrim(username) == AdminUser(cfg) && password == AdminPass(cfg)
    ensures r.Ok? ==> r.value == ExpectedToken(cfg)
    ensures r.Err? ==> r.error == BadCredentials
  {
    if PhpTrim(username) != AdminUser(cfg) || password != AdminPass(cfg) then Err(BadCredentials)
    else Ok(ExpectedToken(cfg))
  }

  /** Surrounding whitespace in the username does not matter; in the password it does. */
  lemma LoginTrimsOnlyTheUsername(cfg: Config, username: string)
    ensures Login(cfg, username, AdminPass(cfg)) == Login(cfg, PhpTrim(username), AdminPass(cfg))
    ensures Login(cfg, AdminUser(cfg), " " + AdminPass(cfg)).Err?
  {
    TrimIdempotent(username);
    assert |" " + AdminPass(cfg)| != |AdminPass(cfg)|;
  }

  /** Without a `.env`, the credentials are admin / admin123. */
  lemma DefaultCredentials(cfg: Config)
    requires cfg.env == map[]
    ensures Login(cfg, "admin", "admin123") == Ok(ExpectedToken(cfg))
  {
    assert PhpTrim("admin") == "admin";
  }

  /** The request the admin pages send: `X-Admin-Token: Bearer <token>` and `?admin_token=<token>`. */
  function ClientRequest(token: string): AuthRequest {
    AuthRequest(None, None, Some(Bearer + token), Some(token))
  }

  /**
   * A token issued by login opens the gate under the same configuration,
   * whether it comes as `Authorization: Bearer …`, in the pages' own
   * request, or only in the query string.
   */
  lemma LoginTokenIsAccepted(cfg: Config, username: string, password: string)
    requires Login(cfg, username, password).Ok?
    requires IsLowerHex(ExpectedToken(cfg)) && ExpectedToken(cfg) != "" && ExpectedToken(cfg) != "0"
    ensures Authorized(cfg, AuthRequest(Some(Bearer + Login(cfg, username, password).value), None, None, None))
    ensures Authorized(cfg, ClientRequest(Login(cfg, username, password).value))
    ensures Authorized(cfg, AuthRequest(None, None, None, Some(Login(cfg, username, password).value)))
  {
    var t := ExpectedToken(cfg);
    HexHasNoBearer(t);
    StripBearerPrefix(t);
    StripBearerNoOccurrence(t);
  }

  /** A wrong token is refused wherever it is presented. */
  lemma OtherTokensAreRefused(cfg: Config, token: string)
    requires token != ExpectedToken(cfg) && IsLowerHex(token) && !PhpFalsy(token)
    ensures !Authorized(cfg, ClientRequest(token))
    ensures !Authorized(cfg, AuthRequest(Some(Bearer + token), None, None, None))
  {
    HexHasNoBearer(token);
    StripBearerPrefix(token);
    StripBearerNoOccurrence(token);
  }
}
