/**
 * The request gate (`middleware`): every request whose path the matcher selects
 * must carry a `site_auth` cookie equal to the hex SHA-256 digest of the site
 * password, otherwise it is sent to the login page. The gate keeps no state.
 */
module Gate {
  import opened Wrappers
  import opened Strings
  import opened Auth
  import opened Cookies

  /** The login page: never gated, and the target of every redirect. */
  const LoginPath: string := "/login"

  /** The gate's answer: continue to the page with extra response headers, or redirect. */
  datatype Response = Next(headers: Headers) | Redirect(location: string)

  /** The pass-through response, marked with `x-middleware-executed: true`. */
  function PassThrough(): Response {
    Next(map["x-middleware-executed" := "true"])
  }

  /**
   * `middleware(request)`: the path, the request's `Cookie` header, the
   * `SITE_PASSWORD` setting and the digest. A digest that rejects (`None`) is an
   * error inside the `try`, and the `catch` redirects.
   */
  function Middleware(path: string, cookieHeader: Option<string>, sitePassword: Option<string>, sha: Sha256): (r: Response)
    ensures path == LoginPath ==> r == PassThrough()
    ensures r.Redirect? ==> r.location == LoginPath
    ensures r.Next? ==> r == PassThrough()
    ensures path != LoginPath && !Truthy(GetCookieValue(cookieHeader, CookieName)) ==> r.Redirect?
    ensures path != LoginPath && !Truthy(sitePassword) ==> r.Redirect?
    ensures path != LoginPath && Truthy(sitePassword) && sha(sitePassword.value).None? ==> r.Redirect?
  {
    if path == LoginPath then PassThrough()
    else
      var authCookie := GetCookieValue(cookieHeader, CookieName);
      if !Truthy(authCookie) then Redirect(LoginPath)
      else if !Truthy(sitePassword) then Redirect(LoginPath)
      else
        match HashPassword(sha, sitePassword.value)
        case None => Redirect(LoginPath)
        case Some(storedHash) =>
          if !ConstantTimeEq(authCookie.value, storedHash) then Redirect(LoginPath) else PassThrough()
  }

  /** The cookie proves knowledge of the password: its value is the hex digest of the configured password. */
  predicate Authenticated(cookieHeader: Option<string>, sitePassword: Option<string>, sha: Sha256) {
    && Truthy(sitePassword)
    && sha(sitePassword.value).Some?
    && GetCookieValue(cookieHeader, CookieName) == Some(HexEncode(sha(sitePassword.value).value))
  }

  /** The gate lets a request through exactly on the login page or with an authenticating cookie. */
  lemma MiddlewareAllowsIff(path: string, cookieHeader: Option<string>, sitePassword: Option<string>, sha: Sha256)
    ensures Middleware(path, cookieHeader, sitePassword, sha).Next?
        <==> path == LoginPath || Authenticated(cookieHeader, sitePassword, sha)
  {
    var authCookie := GetCookieValue(cookieHeader, CookieName);
    if path != LoginPath && Truthy(sitePassword) && sha(sitePassword.value).Some? {
      var h := HexEncode(sha(sitePassword.value).value);
      assert HashPassword(sha, sitePassword.value) == Some(h);
      if authCookie.Some? {
        ConstantTimeEqIsEquality(authCookie.value, h);
      }
    }
  }

  /** A browser that echoes `site_auth=<digest of the password>` passes the gate on every path. */
  lemma DigestCookieOpens(path: string, sitePassword: string, sha: Sha256, d: Digest)
    requires sitePassword != "" && sha(sitePassword) == Some(d)
    ensures Middleware(path, Some(CookieName + "=" + HexEncode(d)), Some(sitePassword), sha) == PassThrough()
  {
    var h := HexEncode(d);
    LacksConcat(CookieName, "=", ';');
    HexLacks(d, ';');
    LacksConcat(CookieName + "=", h, ';');
    assert IsLowerHex(h[|h| - 1]);
    LookupSinglePair(CookieName, h);
    MiddlewareAllowsIff(path, Some(CookieName + "=" + h), Some(sitePassword), sha);
  }

  // ---------------------------------------------------------------------------
  // The matcher: `/((?!api|_next/static|_next/image|favicon.ico|login).*)`

  /** Characters the regular-expression `.` does not match. */
  predicate IsLineTerminator(c: char) {
    c == '\n' || c == '\r' || c == '\U{2028}' || c == '\U{2029}'
  }

  /** One pattern character against one text character; `.` is the wildcard. */
  predicate CharMatches(p: char, c: char) {
    if p == '.' then !IsLineTerminator(c) else c == p
  }

  /** The pattern matches at the start of `s`. */
  predicate MatchesAt(s: string, pattern: string) {
    |pattern| <= |s| && forall i :: 0 <= i < |pattern| ==> CharMatches(pattern[i], s[i])
  }

  /** The alternatives of the negative lookahead, as regular-expression text. */
  const Excluded: seq<string> := ["api", "_next/static", "_next/image", "favicon.ico", "login"]

  /**
   * The matcher, anchored at both ends: a `/`, then (lookahead) none of the
   * excluded alternatives, then `.*` to the end of the path.
   */
  predicate GateRuns(path: string)
    ensures GateRuns(path) ==>
      && |path| >= 1 && path[0] == '/'
      && forall k :: 0 <= k < |Excluded| ==> !StartsWith(path[1..], Excluded[k])
  {
    ExcludedPrefixesMatch(if path == [] then [] else path[1..]);
    && |path| >= 1 && path[0] == '/'
    && (forall k :: 0 <= k < |Excluded| ==> !MatchesAt(path[1..], Excluded[k]))
    && (forall i :: 1 <= i < |path| ==> !IsLineTerminator(path[i]))
  }

  /** Text that starts with an excluded alternative is matched by it. */
  lemma ExcludedPrefixesMatch(s: string)
    ensures forall k :: 0 <= k < |Excluded| && StartsWith(s, Excluded[k]) ==> MatchesAt(s, Excluded[k])
  {
    forall k | 0 <= k < |Excluded| && StartsWith(s, Excluded[k]) ensures MatchesAt(s, Excluded[k]) {
      ExcludedPlain(k);
    }
  }

  /** The excluded alternatives contain no line terminator. */
  lemma ExcludedPlain(k: nat)
    requires k < |Excluded|
    ensures forall i :: 0 <= i < |Excluded[k]| ==> !IsLineTerminator(Excluded[k][i])
  {
  }

  /** No path that begins with `/` and an excluded name reaches the gate. */
  lemma ExcludedNotGated(k: nat, suffix: string)
    requires k < |Excluded|
    ensures !GateRuns("/" + Excluded[k] + suffix)
  {
    var w := Excluded[k];
    var path := "/" + w + suffix;
    ExcludedPlain(k);
    assert path[1..] == w + suffix;
    forall i | 0 <= i < |w| ensures CharMatches(w[i], path[1..][i]) {
      assert path[1..][i] == w[i];
    }
    assert MatchesAt(path[1..], w);
  }

  /** Text that does not start with the pattern's characters before its first wildcard does not match it. */
  lemma NoPrefixNoMatch(s: string, pattern: string, n: nat)
    requires n <= |pattern| && forall i :: 0 <= i < n ==> pattern[i] != '.'
    requires !StartsWith(s, pattern[..n])
    ensures !MatchesAt(s, pattern)
  {
    if |pattern| <= |s| {
      var i :| 0 <= i < n && s[i] != pattern[i];
      assert !CharMatches(pattern[i], s[i]);
    }
  }

  /**
   * Every path of the form `/...` without a line break reaches the gate unless it
   * starts with `/api`, `/_next/static`, `/_next/image`, `/favicon` or `/login`.
   */
  lemma OtherPathsGated(path: string)
    requires |path| >= 1 && path[0] == '/'
    requires forall i :: 1 <= i < |path| ==> !IsLineTerminator(path[i])
    requires !StartsWith(path[1..], "api") && !StartsWith(path[1..], "_next/static")
    requires !StartsWith(path[1..], "_next/image") && !StartsWith(path[1..], "favicon")
    requires !StartsWith(path[1..], "login")
    ensures GateRuns(path)
  {
    forall k | 0 <= k < |Excluded| ensures !MatchesAt(path[1..], Excluded[k]) {
      var w := Excluded[k];
      var n := if k == 3 then 7 else |w|;
      assert w[..n] == ["api", "_next/static", "_next/image", "favicon", "login"][k];
      NoPrefixNoMatch(path[1..], w, n);
    }
  }

  /** The matcher's `.` is a wildcard: `/favicon-ico` does not reach the gate either. */
  lemma DotIsWildcard()
    ensures !GateRuns("/favicon-ico")
  {
    assert MatchesAt("/favicon-ico"[1..], Excluded[3]);
  }

  /** The site root reaches the gate. */
  lemma RootGated()
    ensures GateRuns("/")
  {
    OtherPathsGated("/");
  }

  /** The login page never reaches the gate, so the gate's own login check is a second line. */
  lemma LoginNotGated()
    ensures !GateRuns(LoginPath)
  {
    ExcludedNotGated(4, "");
    assert "/" + Excluded[4] + "" == LoginPath;
  }

  /** A request: gated when the matcher selects its path, passed on untouched otherwise. */
  function Handle(path: string, cookieHeader: Option<string>, sitePassword: Option<string>, sha: Sha256): (r: Response)
    ensures !GateRuns(path) ==> r == Next(map[])
  {
    if GateRuns(path) then Middleware(path, cookieHeader, sitePassword, sha) else Next(map[])
  }

  /** On every path the matcher selects, the page is served exactly to authenticated requests. */
  lemma GatedPathsNeedAuthentication(path: string, cookieHeader: Option<string>, sitePassword: Option<string>, sha: Sha256)
    requires GateRuns(path)
    ensures Handle(path, cookieHeader, sitePassword, sha).Next? <==> Authenticated(cookieHeader, sitePassword, sha)
    ensures !Authenticated(cookieHeader, sitePassword, sha) ==> Handle(path, cookieHeader, sitePassword, sha) == Redirect(LoginPath)
  {
    LoginNotGated();
    MiddlewareAllowsIff(path, cookieHeader, sitePassword, sha);
  }
}
