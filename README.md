# Password gate of the Senses Integration dashboard, in Dafny

The dashboard is a Next.js application protected by one shared site password.
This project models the parts of it that decide who gets in, and proves what
they promise:

- **the authentication library** (`src/lib/auth.ts`):
  - constant-time string comparison;
  - the hex text of the password digest;
  - the fixed-window login rate limiter keyed by client address;
  - the `Cookie` header lookup;
  - the client-address choice from proxy headers;
  - the `Set-Cookie` text of the session cookie;
- **the request gate** (`src/middleware.ts`): the decision chain and the path matcher that selects the requests it sees;
- **the login action** (`src/app/login/action.ts`): the ordered checks, its four error replies, and the session cookie it sets;
- **the breadcrumb trail** of the page header (`src/components/page-header.tsx`);
- **project creation** on the questionnaire page (`src/app/questionnaire/page.tsx`): the random `XXXX-XXXX-XXXX-XXXX` project id, and the create-project form's validation, row and reset.

Modules, one per file:

| file | module | models |
|---|---|---|
| `wrappers.dfy` | `Wrappers` | `Option`, for JavaScript's `null`/`undefined` |
| `strings.dfy` | `Strings` | `trim`, `startsWith`, `split`/`join` on one character, decimal text |
| `auth.dfy` | `Auth` | hex digest text, `constantTimeEquals`, headers, `getClientIP` |
| `cookie.dfy` | `Cookies` | `createAuthCookie`, how a browser parses it (section 5.2 of RFC 6265), `getCookieValue` |
| `ratelimit.dfy` | `RateLimit` | `checkRateLimit` and its store, as the class `RateLimiter` |
| `middleware.dfy` | `Gate` | `middleware` and `config.matcher` |
| `login.dfy` | `Login` | `loginAction` |
| `breadcrumbs.dfy` | `Breadcrumbs` | `generateBreadcrumbs` |
| `questionnaire.dfy` | `Questionnaire` | `generateProjectId`, `handleCreateProject` and the dialog's preview id |

How the model represents the source:

- **Digest.** SHA-256 (with the UTF-8 encoding before it) is a parameter `sha: string -> Option<Digest>`. A `Digest` has 32 bytes; `None` stands for a rejected digest promise. The gate catches that rejection and redirects. The login action does not catch it, so the model ends the action with `Crash`.
- **Clock and randomness.** The clock is a parameter, in milliseconds. `Math.floor(Math.random() * 26)` becomes sixteen supplied letter indices.
- **Headers and settings.** Request headers are a map keyed by lower-case name. `SITE_PASSWORD`, `NODE_ENV` and the `Cookie` header are `Option<string>`. JavaScript falsiness of a string is `None` or `""` (`Truthy`).
- **Mutable state.**
  - The module-level rate-limit map is the field `store` of `RateLimiter`. Its method `CheckRateLimit` is proved equal to the function `Decide`, and every property is proved about `Decide`.
  - `LoginAction` changes the limiter and is proved equal to the function `LoginSpec`. The outcome has three parts: the reply, the ordered effects (rate-limit check, digests, cookie, redirect), and the new store.
  - The create-project dialog's React state is the class `CreateProjectForm`.
- **Loops.** `constantTimeEquals` and `generateProjectId` are loops proved against the functions `ConstantTimeEq` and `ProjectIdOf`.

Behaviour of the source worth knowing before reading the contracts:

- **Rate limiter.** The limiter is a fixed window: the count resets wholesale at `resetTime`, and a stored count is never below 1.
- **Cookie lookup.** `getCookieValue` trims whole `;`-separated pieces and returns the rest of the first piece that starts with `name=`, with no further trimming or validation.
- **Login cookie.** The login action sets its cookie through the framework's cookie store as a record. It does not use `createAuthCookie`, whose text also carries `Expires`. Both are modelled: the record as `Login.SessionCookie`, the text as `Cookies.CreateAuthCookie`.
- **Unconfigured password.** When the site password is not set, the attempt has already been counted by the limiter when the error is returned.

## Model

| member | source | states |
|---|---|---|
| Strings.TrimStartSpec | src/lib/auth.ts:66 | leading trim keeps a suffix, removes only whitespace, and stops at the first non-whitespace character |
| Strings.TrimEndSpec | src/lib/auth.ts:66 | trailing trim keeps a prefix, removes only whitespace, and stops at the last non-whitespace character |
| Strings.Trim | src/lib/auth.ts:66 | `trim` never lengthens and leaves no whitespace at either end |
| Strings.TrimIsSlice | src/lib/auth.ts:66 | what `trim` keeps is a contiguous slice of the input with only whitespace before and after it |
| Strings.TrimIdentity | src/lib/auth.ts:66 | a string with non-whitespace ends is unchanged by `trim` |
| Strings.TrimEmptyIff | src/app/questionnaire/page.tsx:60 | `s.trim()` is empty iff `s` is all whitespace |
| Strings.TrimKeepsLacks | src/lib/auth.ts:66 | trimming a text without a character gives a text without it |
| Strings.StartsWith | src/lib/auth.ts:67 | `s.startsWith(p)` iff `p` is no longer than `s` and agrees with it character by character; `s` is then `p` followed by the rest |
| Strings.Find | src/lib/auth.ts:41 | the index of the first separator, or the length when there is none; nothing before it is a separator |
| Strings.FindAt | src/lib/auth.ts:41 | the first-separator index is unique: any position with no separator before it and a separator at it (or the end) is that index |
| Strings.Split | src/lib/auth.ts:41 | `split` always yields at least one piece |
| Strings.SplitPieces | src/lib/auth.ts:41 | no piece contains the separator, and the first piece is the text before the first separator |
| Strings.SplitNoSeparator | src/lib/auth.ts:66 | text without the separator splits into itself alone |
| Strings.SplitAppend | src/lib/auth.ts:66 | splitting `a + c + b` at `c` gives the pieces of `a` followed by the pieces of `b` |
| Strings.JoinCons | src/app/questionnaire/page.tsx:35 | joining a first part with the rest puts the separator between them |
| Strings.JoinSplit | src/lib/auth.ts:66 | joining the pieces of a split with the separator restores the text |
| Strings.Join | src/app/questionnaire/page.tsx:35 | the joined text begins with the first part |
| Strings.SplitJoin | src/app/questionnaire/page.tsx:35 | splitting the join of separator-free parts at the separator gives back the parts |
| Strings.LacksConcat | src/lib/auth.ts:33 | concatenating two texts without a character gives a text without it |
| Strings.Decimal | src/lib/auth.ts:33 | the decimal text of a number consists of digits only and is non-empty |
| Strings.DecimalRoundTrip | src/lib/auth.ts:33 | reading back the decimal text of `n` gives `n` |
| Auth.HexValue | src/lib/auth.ts:12 | each lowercase hex digit denotes a value below 16 whose digit is itself |
| Auth.ToBase16Value | src/lib/auth.ts:12 | the digits of `n.toString(16)` denote `n`, with no leading zero unless the text is `0` |
| Auth.PadStartContents | src/lib/auth.ts:12 | `padStart` keeps the input as the suffix, behind nothing but `fill` characters |
| Auth.ByteToHex | src/lib/auth.ts:12 | `b.toString(16).padStart(2, '0')` is two lowercase hex digits whose value is `b` |
| Auth.HexEncode | src/lib/auth.ts:11-13 | the digest text has two lowercase hex characters per byte |
| Auth.HexRoundTrip | src/lib/auth.ts:11-13 | decoding the hex text gives back the bytes |
| Auth.HexInjective | src/lib/auth.ts:11-13 | two byte strings have the same hex text iff they are equal |
| Auth.HexLacks | src/lib/auth.ts:11-13 | hex text contains no character other than the sixteen digits, in particular no `;` |
| Auth.HashPassword | src/lib/auth.ts:7-14 | the result is absent iff the digest rejects; otherwise 64 lowercase hex characters that decode to the digest |
| Auth.BitXorZero | src/lib/auth.ts:23 | `x ^ y` is zero iff `x == y` |
| Auth.BitOrZero | src/lib/auth.ts:23 | the bitwise OR of `x` and `y` is zero iff both are zero |
| Auth.OrOfXorZero | src/lib/auth.ts:21-24 | the accumulated OR of XORs over the first `n` characters is zero iff those characters agree |
| Auth.ConstantTimeEqIsEquality | src/lib/auth.ts:16-27 | the comparison is true iff the strings are equal; it is symmetric and reflexive, and different lengths give false |
| Auth.ConstantTimeEquals | src/lib/auth.ts:16-27 | the loop computes the OR-of-XOR comparison, which is string equality |
| Auth.ClientIP | src/lib/auth.ts:36-42 | `cf-connecting-ip`, else `x-real-ip`, else the text of `x-forwarded-for` before its first comma, else `unknown`; empty values fall through, and the result is never empty |
| Cookies.CreateAuthCookie | src/lib/auth.ts:29-34 | the cookie text starts with `site_auth=<hash>` and ends with the expiry text |
| Cookies.AttributesTextEnd | src/lib/auth.ts:33 | the rendered attributes end with the text of the last attribute |
| Cookies.MaxAgeText | src/lib/auth.ts:2 | the `Max-Age` value is `2592000`, thirty days in seconds |
| Cookies.TrimAll | src/lib/auth.ts:66 | one result per piece, none longer than its piece, none with whitespace at either end |
| Cookies.TrimAllKeepsLacks | src/lib/auth.ts:66 | trimming the pieces adds no occurrence of a character they lack |
| Cookies.Spaced | src/lib/auth.ts:33 | each attribute gets the single space that follows its `;` |
| Cookies.AttributesTextCons | src/lib/auth.ts:33 | the rendered attributes are a `;`, the first attribute behind its space, then the rest |
| Cookies.SplitAttributes | src/lib/auth.ts:33 | splitting a rendered cookie at `;` yields the name-value pair, then each attribute behind one space |
| Cookies.TrimOneSpace | src/lib/auth.ts:33 | trimming an attribute behind its space gives the attribute |
| Cookies.TrimAllSpaced | src/lib/auth.ts:33 | trimming all spaced attributes gives the attributes |
| Cookies.PairParts | src/lib/auth.ts:33 | in `name=value` the first `=` follows the name, and the text holds no `;` |
| Cookies.RenderParse | src/lib/auth.ts:29-34 | a browser parsing a rendered `Set-Cookie` text reads back exactly the name, value and attributes |
| Cookies.FixedTextsAreAtoms | src/lib/auth.ts:33 | the cookie name and the fixed attributes hold no `;` and no surrounding whitespace |
| Cookies.AuthAttributesText | src/lib/auth.ts:33 | the attributes are `HttpOnly`, `Secure`, `SameSite=Strict`, `Path=/`, `Max-Age=2592000` and `Expires=<date>`, in that order |
| Cookies.AuthAttributesAreAtoms | src/lib/auth.ts:33 | every attribute survives splitting and trimming when the expiry text does |
| Cookies.AuthCookieParses | src/lib/auth.ts:29-34 | the issued cookie parses as `site_auth` with the hash as its value and exactly those six attributes |
| Cookies.CookiePieces | src/lib/auth.ts:66 | at least one piece; no piece holds a `;` or has whitespace at either end |
| Cookies.CookiePiecesOfJoin | src/lib/auth.ts:66 | a header written as `;`-joined pairs yields exactly those pairs, trimmed |
| Cookies.FindPrefixed | src/lib/auth.ts:67 | the first piece starting with the prefix, or none when no piece does |
| Cookies.GetCookieValue | src/lib/auth.ts:62-70 | none for an absent or empty header, and none iff no piece starts with `name=`; otherwise the text after `name=` in the first such piece |
| Cookies.SplitFirst | src/lib/auth.ts:66 | the first piece of a split is the text before the first separator |
| Cookies.LookupSinglePair | src/lib/auth.ts:62-70 | a header holding only `name=value` yields `value` |
| Cookies.IssuedCookieReadBack | src/lib/auth.ts:29-34 | echoing the issued cookie's name-value pair gives the digest text back from the lookup |
| RateLimit.Key | src/lib/auth.ts:46 | the key is the six characters `login_` followed by the address |
| RateLimit.KeyInjective | src/lib/auth.ts:46 | two addresses share a key iff they are the same address |
| RateLimit.Decide | src/lib/auth.ts:44-60 | refuses iff a live window has five attempts, and then changes nothing; with no entry or an ended window it stores `{1, now + 600000}`; otherwise it adds exactly one attempt; no other key changes |
| RateLimit.DecideKeepsBounded | src/lib/auth.ts:49-59 | stored attempts stay between 1 and 5 |
| RateLimit.RateLimiter.CheckRateLimit | src/lib/auth.ts:44-60 | the update to the store field and the answer are those of `Decide`, and the bound is kept |
| RateLimit.RateLimiter.constructor | src/lib/auth.ts:5 | the store starts empty |
| RateLimit.Run | src/lib/auth.ts:44-60 | successive checks give one answer per call |
| RateLimit.RunInWindow | src/lib/auth.ts:54-59 | inside a live window with `a` attempts used, the `k`-th further call is allowed iff `a + k < 5` |
| RateLimit.FiveAttemptsPerWindow | src/lib/auth.ts:44-60 | for a fresh address (or after its window ends), calls 1 to 5 within ten minutes are allowed and every later call in that window is refused |
| RateLimit.WindowReset | src/lib/auth.ts:49-52 | after `resetTime`, the next call is allowed and starts a new window with one attempt |
| Gate.Middleware | src/middleware.ts:5-51 | `/login` always passes, with the marker header; every redirect targets `/login`; a missing cookie, missing password or rejected digest redirects |
| Gate.MiddlewareAllowsIff | src/middleware.ts:15-50 | a request passes iff its path is `/login` or its `site_auth` cookie equals the hex digest of the configured password |
| Gate.DigestCookieOpens | src/middleware.ts:21-46 | a cookie header `site_auth=<hex digest of the password>` passes on every path |
| Gate.GateRuns | src/middleware.ts:63 | a path the matcher selects starts with `/` and does not continue with any excluded alternative |
| Gate.ExcludedPrefixesMatch | src/middleware.ts:63 | text that starts with an excluded alternative is matched by it |
| Gate.ExcludedPlain | src/middleware.ts:63 | the excluded alternatives contain no line break |
| Gate.ExcludedNotGated | src/middleware.ts:63 | no path `/api...`, `/_next/static...`, `/_next/image...`, `/favicon.ico...` or `/login...` reaches the gate |
| Gate.NoPrefixNoMatch | src/middleware.ts:63 | text that does not start with an alternative's characters before its first `.` does not match that alternative |
| Gate.OtherPathsGated | src/middleware.ts:63 | every path `/...` without a line break reaches the gate unless it starts with `/api`, `/_next/static`, `/_next/image`, `/favicon` or `/login` |
| Gate.DotIsWildcard | src/middleware.ts:63 | the `.` in `favicon.ico` matches any character, so `/favicon-ico` is excluded as well |
| Gate.RootGated | src/middleware.ts:63 | the site root reaches the gate |
| Gate.LoginNotGated | src/middleware.ts:63 | the login page never reaches the gate |
| Gate.Handle | src/middleware.ts:53-65 | a request the matcher does not select passes untouched |
| Gate.GatedPathsNeedAuthentication | src/middleware.ts:5-65 | on every selected path the page is served iff the cookie authenticates, and otherwise the request is redirected to `/login` |
| Login.SessionCookie | src/app/login/action.ts:50-58 | the cookie is `site_auth` with the given value, `httpOnly`, `sameSite` strict, path `/` and `maxAge` 2592000; `secure` iff `NODE_ENV` is `production` |
| Login.AfterLimit | src/app/login/action.ts:32-60 | after the limiter no further rate-limit check happens; no cookie is set unless the reply is the redirect, which ends with cookie then redirect; errors are "not configured" or "invalid"; a crash needs a rejected digest |
| Login.CheckPassword | src/app/login/action.ts:32-60 | the steps after the limiter, run one by one, give exactly the reply and effects described |
| Login.LoginSpec | src/app/login/action.ts:12-61 | every error reply is one of the four messages; a crash happens only when the digest rejects; no cookie is set unless the action redirects home, and then the cookie is set just before the redirect |
| Login.LoginAction | src/app/login/action.ts:12-61 | the reply, the effects and the new limiter store are those of the specification `LoginSpec` |
| Login.EmptyPasswordHasNoEffect | src/app/login/action.ts:13-17 | a missing or empty password gives "Password is required", with no effects and the store untouched |
| Login.RateLimitCheckedFirst | src/app/login/action.ts:24-29 | with a password, the rate limit for the client address is the first effect and happens only once; the store changes only through it |
| Login.ThrottledDoesNothingElse | src/app/login/action.ts:27-29 | a throttled address gets the throttling message, with no hashing, no cookie and no change to the store |
| Login.UnconfiguredAttemptCounted | src/app/login/action.ts:27-35 | without a configured password the reply is "Site password not configured", nothing is hashed, and the attempt is already counted |
| Login.AfterLimitSuccessIff | src/app/login/action.ts:38-60 | after the limiter, success iff both digests exist and are equal, and then the cookie carries the configured password's digest; "Invalid password" iff both exist and differ |
| Login.SuccessIff | src/app/login/action.ts:12-61 | redirect home iff the password is correct and the address is not throttled, and the cookie then carries the configured password's digest; "Invalid password" iff the digests differ |
| Login.SessionCookieOpensGate | src/app/login/action.ts:49-60 | the cookie a successful login sets, sent back by the browser, passes the gate on every path |
| Login.Logins | src/app/login/action.ts:12-61 | successive logins give one reply per attempt |
| Login.CorrectLoginsFollowLimiter | src/app/login/action.ts:27-60 | with the correct password, each login succeeds iff the limiter allows it, and otherwise gets the throttling message |
| Login.SixthCorrectLoginRefused | src/app/login/action.ts:27-29 | from a fresh address, the first five correct logins within ten minutes succeed and the sixth and later are refused |
| Breadcrumbs.FindLink | src/components/page-header.tsx:43 | the first sub-link whose url is the path, or none iff there is none |
| Breadcrumbs.Matches | src/components/page-header.tsx:28-31 | an item matches iff its own url is the path or some sub-link's url is |
| Breadcrumbs.FindItem | src/components/page-header.tsx:28-31 | the first navigation item whose url or one of whose sub-links' urls is the path, or none iff there is none |
| Breadcrumbs.GenerateBreadcrumbs | src/components/page-header.tsx:17-55 | Home first (current iff the path is `/`); at most three crumbs; Home alone for `/` or no match; otherwise the matched item, then its first matching sub-link iff the item's own url differs; exactly one current crumb, the last, and its url is the path |
| Questionnaire.AlphabetLetters | src/app/questionnaire/page.tsx:24 | the `n`-th letter of the alphabet is the `n`-th capital letter |
| Questionnaire.ProjectIdOf | src/app/questionnaire/page.tsx:23-36 | every id the draws select is 19 characters of capital letters with `-` at positions 4, 9 and 14 |
| Questionnaire.DrawsOf | src/app/questionnaire/page.tsx:30 | the letter indices read from an id are valid draws |
| Questionnaire.EveryProjectIdReachable | src/app/questionnaire/page.tsx:23-36 | every id of the form `XXXX-XXXX-XXXX-XXXX` is produced by some draws |
| Questionnaire.JoinGroups | src/app/questionnaire/page.tsx:35 | joining four-letter groups with `-` puts `-` at every fifth position and the groups' letters in order elsewhere |
| Questionnaire.GenerateProjectId | src/app/questionnaire/page.tsx:23-36 | the nested loops and the join produce the id the draws select, which has the documented form |
| Questionnaire.Submittable | src/app/questionnaire/page.tsx:60 | the form is accepted iff neither name is all whitespace |
| Questionnaire.CreateProjectForm.constructor | src/app/questionnaire/page.tsx:40-48 | the initial form: empty names, contractor "Senses Integration", no preview, dialog closed, not loading, no error |
| Questionnaire.CreateProjectForm.SetDialogOpen | src/app/questionnaire/page.tsx:51-55 | opening the dialog draws a fresh preview id; otherwise the preview is kept |
| Questionnaire.CreateProjectForm.HandleCreateProject | src/app/questionnaire/page.tsx:57-106 | a blank name is refused with the required-fields message and no row; otherwise the row holds the trimmed fields and the preview id (or a fresh id), always of the documented form; success resets the form, closes the dialog and navigates to `/questionnaire/<id>`; failure keeps the form and shows the thrown `Error`'s message, or "Failed to create project" for any other thrown value; loading ends false |

## Left out

- SHA-256 and `TextEncoder` (src/lib/auth.ts:8-10): a platform call, so the model takes it as the parameter `sha` returning 32 bytes or a rejection.
- Timing: the model states what `constantTimeEquals` returns, not how long it takes.
- `logout()` (src/lib/auth.ts:72-80) and src/app/api/auth/logout/route.ts: network and browser navigation, or a constant cookie-clearing record; they hold no logic.
- `Date.now()` is a parameter. In `createAuthCookie` the caller supplies the `toUTCString()` text of the expiry instant `now + 2592000000`; the date arithmetic and formatting are not modelled.
- `Math.random()` floating point: each draw is a supplied index in [0, 26).
- Concurrency: the limiter is one single-threaded map, with no sharing between server instances or interleaved requests.
- Framework plumbing: `NextRequest`, `NextResponse`, URL resolution against `request.url`, `headers()`, `cookies()`, `redirect()` and console logging become plain outcome values.
- Header-name case: names are matched as lower-case map keys.
- Characters: strings are sequences of characters, which stand in for UTF-16 code units (`charCodeAt`, `length`).
- Next.js matcher details: the matcher is modelled as its regular expression anchored at both ends; the framework's own rewriting of matchers (locale prefixes, data routes) is not.
- `formData.get('password') as string`: a file upload in place of text is not modelled; the password is text or absent.
- The Supabase insert and `router.push`: the database's answer is a parameter, and navigation is returned as the target path.
- Rendering: the JSX of `PageHeader` and `QuestionnairePage`, and the UI-only files (src/app/login/page.tsx, src/components/list2.tsx, src/components/app-sidebar.tsx, src/components/projects-data-table.tsx).
- The navigation data lives in a file that is not part of this model; it is a parameter of `GenerateBreadcrumbs`.
