/**
 * The login form's server action (`loginAction`): password present, then the
 * rate limit for the client address, then the configured password, then the
 * digest comparison; success sets the session cookie and redirects home.
 */
module Login {
  import opened Wrappers
  import opened Strings
  import opened Auth
  import opened Cookies
  import opened RateLimit
  import opened Gate

  const PasswordRequired: string := "Password is required"
  const TooManyAttempts: string := "Too many login attempts. Please try again in 10 minutes."
  const NotConfigured: string := "Site password not configured"
  const InvalidPassword: string := "Invalid password"

  /** The four error texts the action can return. */
  predicate IsLoginError(e: string) {
    e == PasswordRequired || e == TooManyAttempts || e == NotConfigured || e == InvalidPassword
  }

  /** The record handed to the response's cookie store. */
  datatype CookieRecord = CookieRecord(
    name: string, value: string, httpOnly: bool, secure: bool, sameSite: string, path: string, maxAge: int)

  /** What the action does, in order. */
  datatype Effect =
    | RateLimitChecked(ip: string)
    | Hashed(input: string)
    | CookieSet(cookie: CookieRecord)
    | Redirected(location: string)

  /**
   * How the action ends: an `{ error }` state, the redirect home (which ends the
   * action by throwing), or a rejected digest escaping the action.
   */
  datatype Reply = Failed(error: string) | RedirectHome | Crash

  /** The reply, the effects in order, and the limiter's store afterwards. */
  datatype Outcome = Outcome(reply: Reply, effects: seq<Effect>, store: Store)

  /** The session cookie set on success; `secure` only when `NODE_ENV` is `production`. */
  function SessionCookie(hash: string, nodeEnv: Option<string>): (c: CookieRecord)
    ensures c.name == "site_auth" && c.value == hash && c.maxAge == 2592000
    ensures c.httpOnly && c.sameSite == "strict" && c.path == "/"
    ensures c.secure <==> nodeEnv == Some("production")
  {
    CookieRecord(CookieName, hash, true, nodeEnv == Some("production"), "strict", "/", CookieMaxAge)
  }

  /** How the action ends once the attempt has been let through the limiter, and what it did meanwhile. */
  datatype Verdict = Verdict(reply: Reply, effects: seq<Effect>)

  /** The steps after the rate limit: the configured password, both digests, the comparison, the cookie. */
  function AfterLimit(password: string, sitePassword: Option<string>, nodeEnv: Option<string>, sha: Sha256): (v: Verdict)
    ensures forall i :: 0 <= i < |v.effects| ==> !v.effects[i].RateLimitChecked?
    ensures v.reply != RedirectHome ==> forall i :: 0 <= i < |v.effects| ==> !v.effects[i].CookieSet?
    ensures v.reply == RedirectHome ==> |v.effects| == 4 && v.effects[2].CookieSet? && v.effects[3] == Redirected("/")
    ensures v.reply.Failed? ==> v.reply.error == NotConfigured || v.reply.error == InvalidPassword
    ensures v.reply == Crash ==> Truthy(sitePassword) && (sha(password).None? || sha(sitePassword.value).None?)
  {
    if !Truthy(sitePassword) then Verdict(Failed(NotConfigured), [])
    else
      var hashing := [Hashed(password)];
      match HashPassword(sha, password)
      case None => Verdict(Crash, hashing)
      case Some(submittedHash) =>
        var both := hashing + [Hashed(sitePassword.value)];
        match HashPassword(sha, sitePassword.value)
        case None => Verdict(Crash, both)
        case Some(storedHash) =>
          if !ConstantTimeEq(submittedHash, storedHash) then Verdict(Failed(InvalidPassword), both)
          else Verdict(RedirectHome, both + [CookieSet(SessionCookie(submittedHash, nodeEnv)), Redirected("/")])
  }

  /**
   * `loginAction` on the limiter's store: the submitted password (`None` when the
   * form lacks it), the request headers, `SITE_PASSWORD`, `NODE_ENV`, the digest
   * and the clock. Every error is one of the four messages; a crash happens only
   * when the digest rejects; no cookie is set unless the action redirects home,
   * and then the cookie is set just before the redirect.
   */
  function LoginSpec(store: Store, password: Option<string>, headers: Headers, sitePassword: Option<string>,
                     nodeEnv: Option<string>, sha: Sha256, now: int): (o: Outcome)
    ensures o.reply.Failed? ==> IsLoginError(o.reply.error)
    ensures o.reply == Crash ==> Truthy(password) && Truthy(sitePassword)
                                 && (sha(password.value).None? || sha(sitePassword.value).None?)
    ensures o.reply != RedirectHome ==> forall i :: 0 <= i < |o.effects| ==> !o.effects[i].CookieSet?
    ensures o.reply == RedirectHome ==> |o.effects| == 5 && o.effects[3].CookieSet? && o.effects[4] == Redirected("/")
  {
    if !Truthy(password) then Outcome(Failed(PasswordRequired), [], store)
    else
      var ip := ClientIP(headers);
      var check := Decide(store, ip, now);
      if !check.allowed then Outcome(Failed(TooManyAttempts), [RateLimitChecked(ip)], check.store)
      else
        var v := AfterLimit(password.value, sitePassword, nodeEnv, sha);
        Outcome(v.reply, [RateLimitChecked(ip)] + v.effects, check.store)
  }

  /** The steps after the rate limit, run one by one. */
  method CheckPassword(password: string, sitePassword: Option<string>, nodeEnv: Option<string>, sha: Sha256)
    returns (v: Verdict)
    ensures v == AfterLimit(password, sitePassword, nodeEnv, sha)
  {
    if !Truthy(sitePassword) {
      return Verdict(Failed(NotConfigured), []);
    }
    var effects := [Hashed(password)];
    var submittedHash := HashPassword(sha, password);
    if submittedHash.None? {
      return Verdict(Crash, effects);
    }
    effects := effects + [Hashed(sitePassword.value)];
    var storedHash := HashPassword(sha, sitePassword.value);
    if storedHash.None? {
      return Verdict(Crash, effects);
    }
    var same := ConstantTimeEquals(submittedHash.value, storedHash.value);
    if !same {
      return Verdict(Failed(InvalidPassword), effects);
    }
    effects := effects + [CookieSet(SessionCookie(submittedHash.value, nodeEnv)), Redirected("/")];
    v := Verdict(RedirectHome, effects);
  }

  /** `loginAction` against the shared limiter object. */
  method LoginAction(limiter: RateLimiter, password: Option<string>, headers: Headers, sitePassword: Option<string>,
                     nodeEnv: Option<string>, sha: Sha256, now: int) returns (reply: Reply, effects: seq<Effect>)
    requires limiter.Valid()
    modifies limiter
    ensures limiter.Valid()
    ensures var o := LoginSpec(old(limiter.store), password, headers, sitePassword, nodeEnv, sha, now);
            reply == o.reply && effects == o.effects && limiter.store == o.store
  {
    if !Truthy(password) {
      return Failed(PasswordRequired), [];
    }
    var clientIP := ClientIP(headers);
    var allowed := limiter.CheckRateLimit(clientIP, now);
    effects := [RateLimitChecked(clientIP)];
    if !allowed {
      return Failed(TooManyAttempts), effects;
    }
    var v := CheckPassword(password.value, sitePassword, nodeEnv, sha);
    reply, effects := v.reply, effects + v.effects;
  }

  // ---------------------------------------------------------------------------
  // Properties of the action

  /** A missing or empty password is refused before anything else happens. */
  lemma EmptyPasswordHasNoEffect(store: Store, password: Option<string>, headers: Headers, sitePassword: Option<string>,
                                 nodeEnv: Option<string>, sha: Sha256, now: int)
    requires !Truthy(password)
    ensures var o := LoginSpec(store, password, headers, sitePassword, nodeEnv, sha, now);
            o.reply == Failed(PasswordRequired) && o.effects == [] && o.store == store
  {
  }

  /** With a password, the rate limit is the first thing checked, once, and the store changes only through it. */
  lemma RateLimitCheckedFirst(store: Store, password: Option<string>, headers: Headers, sitePassword: Option<string>,
                              nodeEnv: Option<string>, sha: Sha256, now: int)
    requires Truthy(password)
    ensures var o := LoginSpec(store, password, headers, sitePassword, nodeEnv, sha, now);
            && |o.effects| >= 1 && o.effects[0] == RateLimitChecked(ClientIP(headers))
            && (forall i :: 1 <= i < |o.effects| ==> !o.effects[i].RateLimitChecked?)
            && o.store == Decide(store, ClientIP(headers), now).store
  {
  }

  /** A throttled address gets the throttling message: no hashing, no cookie, no change to the store. */
  lemma ThrottledDoesNothingElse(store: Store, password: Option<string>, headers: Headers, sitePassword: Option<string>,
                                 nodeEnv: Option<string>, sha: Sha256, now: int)
    requires Truthy(password) && Exhausted(store, ClientIP(headers), now)
    ensures var o := LoginSpec(store, password, headers, sitePassword, nodeEnv, sha, now);
            o.reply == Failed(TooManyAttempts) && o.effects == [RateLimitChecked(ClientIP(headers))] && o.store == store
  {
  }

  /** Without a configured password the attempt has already been counted, and nothing is hashed. */
  lemma UnconfiguredAttemptCounted(store: Store, password: Option<string>, headers: Headers, sitePassword: Option<string>,
                                   nodeEnv: Option<string>, sha: Sha256, now: int)
    requires Truthy(password) && !Exhausted(store, ClientIP(headers), now) && !Truthy(sitePassword)
    ensures var o := LoginSpec(store, password, headers, sitePassword, nodeEnv, sha, now);
            && o.reply == Failed(NotConfigured) && o.effects == [RateLimitChecked(ClientIP(headers))]
            && o.store == Decide(store, ClientIP(headers), now).store
  {
  }

  /** The submitted password is accepted exactly when its digest is the configured password's digest. */
  predicate Correct(password: Option<string>, sitePassword: Option<string>, sha: Sha256) {
    Truthy(password) && Truthy(sitePassword) && sha(password.value).Some? && sha(password.value) == sha(sitePassword.value)
  }

  /** After the limiter, the attempt succeeds exactly with the correct password, and fails as invalid exactly with another one. */
  lemma AfterLimitSuccessIff(password: string, sitePassword: Option<string>, nodeEnv: Option<string>, sha: Sha256)
    requires password != ""
    ensures var v := AfterLimit(password, sitePassword, nodeEnv, sha);
            && (v.reply == RedirectHome <==> Correct(Some(password), sitePassword, sha))
            && (v.reply == RedirectHome ==> v.effects[2] == CookieSet(SessionCookie(HexEncode(sha(sitePassword.value).value), nodeEnv)))
            && (v.reply == Failed(InvalidPassword) <==>
                  Truthy(sitePassword) && sha(password).Some? && sha(sitePassword.value).Some? && sha(password) != sha(sitePassword.value))
  {
    if Truthy(sitePassword) && sha(password).Some? && sha(sitePassword.value).Some? {
      var d1, d2 := sha(password).value, sha(sitePassword.value).value;
      ConstantTimeEqIsEquality(HexEncode(d1), HexEncode(d2));
      HexInjective(d1, d2);
    }
  }

  /**
   * The action redirects home exactly when the password is correct and the address is not
   * throttled; the cookie it sets then carries the digest of the configured password.
   */
  lemma SuccessIff(store: Store, password: Option<string>, headers: Headers, sitePassword: Option<string>,
                   nodeEnv: Option<string>, sha: Sha256, now: int)
    ensures var o := LoginSpec(store, password, headers, sitePassword, nodeEnv, sha, now);
            && (o.reply == RedirectHome <==> Correct(password, sitePassword, sha) && !Exhausted(store, ClientIP(headers), now))
            && (o.reply == RedirectHome ==>
                  o.effects[3] == CookieSet(SessionCookie(HexEncode(sha(sitePassword.value).value), nodeEnv)))
            && (o.reply == Failed(InvalidPassword) <==>
                  && Truthy(password) && Truthy(sitePassword) && !Exhausted(store, ClientIP(headers), now)
                  && sha(password.value).Some? && sha(sitePassword.value).Some?
                  && sha(password.value) != sha(sitePassword.value))
  {
    if Truthy(password) {
      AfterLimitSuccessIff(password.value, sitePassword, nodeEnv, sha);
    }
  }

  /** The cookie a successful login sets, sent back by the browser, opens the gate on every path. */
  lemma SessionCookieOpensGate(store: Store, password: Option<string>, headers: Headers, sitePassword: Option<string>,
                               nodeEnv: Option<string>, sha: Sha256, now: int, path: string)
    requires LoginSpec(store, password, headers, sitePassword, nodeEnv, sha, now).reply == RedirectHome
    ensures var c := LoginSpec(store, password, headers, sitePassword, nodeEnv, sha, now).effects[3].cookie;
            Middleware(path, Some(c.name + "=" + c.value), sitePassword, sha) == PassThrough()
  {
    SuccessIff(store, password, headers, sitePassword, nodeEnv, sha, now);
    DigestCookieOpens(path, sitePassword.value, sha, sha(sitePassword.value).value);
  }

  /** The replies to successive logins from one client at the given instants. */
  function Logins(store: Store, password: Option<string>, headers: Headers, sitePassword: Option<string>,
                  nodeEnv: Option<string>, sha: Sha256, times: seq<int>): (replies: seq<Reply>)
    ensures |replies| == |times|
    decreases |times|
  {
    if times == [] then []
    else
      var o := LoginSpec(store, password, headers, sitePassword, nodeEnv, sha, times[0]);
      [o.reply] + Logins(o.store, password, headers, sitePassword, nodeEnv, sha, times[1..])
  }

  /** With the correct password every login succeeds unless the limiter refuses it. */
  lemma {:induction false} CorrectLoginsFollowLimiter(store: Store, password: Option<string>, headers: Headers,
                                                      sitePassword: Option<string>, nodeEnv: Option<string>,
                                                      sha: Sha256, times: seq<int>)
    requires Correct(password, sitePassword, sha)
    ensures forall k :: 0 <= k < |times| ==>
              Logins(store, password, headers, sitePassword, nodeEnv, sha, times)[k]
              == if Run(store, ClientIP(headers), times)[k] then RedirectHome else Failed(TooManyAttempts)
    decreases |times|
  {
    if times != [] {
      var ip := ClientIP(headers);
      var o := LoginSpec(store, password, headers, sitePassword, nodeEnv, sha, times[0]);
      SuccessIff(store, password, headers, sitePassword, nodeEnv, sha, times[0]);
      RateLimitCheckedFirst(store, password, headers, sitePassword, nodeEnv, sha, times[0]);
      CorrectLoginsFollowLimiter(o.store, password, headers, sitePassword, nodeEnv, sha, times[1..]);
    }
  }

  /**
   * Successful logins count against the limit too: from a fresh address, the first five
   * correct logins within ten minutes succeed and the sixth and later are refused.
   */
  lemma SixthCorrectLoginRefused(store: Store, password: Option<string>, headers: Headers,
                                 sitePassword: Option<string>, nodeEnv: Option<string>, sha: Sha256, times: seq<int>)
    requires Correct(password, sitePassword, sha)
    requires times != [] && Key(ClientIP(headers)) !in store
    requires forall i :: 0 <= i < |times| ==> times[i] <= times[0] + WindowMs
    ensures forall k :: 0 <= k < |times| ==>
              Logins(store, password, headers, sitePassword, nodeEnv, sha, times)[k]
              == if k < 5 then RedirectHome else Failed(TooManyAttempts)
  {
    CorrectLoginsFollowLimiter(store, password, headers, sitePassword, nodeEnv, sha, times);
    FiveAttemptsPerWindow(store, ClientIP(headers), times);
  }
}
