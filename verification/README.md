# Campnet auto-login, modelled in Dafny

A model of the decision logic of a captive-portal auto-login watcher. The
watcher probes two "generate_204" URLs to decide whether the machine is online
or caught by the campus portal. When it is not online, it submits stored
credentials to the portal's login form. While online, and once a login has
set `last_success`, it forces a refresh login when at least 300 seconds have
passed since then; a watcher that has stayed online since it started never
does. Once the network, clock and filesystem are taken out, what is left is a
handful of pure functions, and each is modelled here:

- `Probe` (probe.dfy): `is_logged_in`. It classifies each probe response (status,
  final URL after redirects, body) with fixed priority rules. The first
  conclusive URL in `CHECK_URLS` order decides; if no URL is conclusive, the
  result is offline.
- `PortalLogin` (portal_login.dfy): `login_with_credential`, which classifies the
  portal's answer to the login POST, and `login`, which searches an ordered
  credential list for the first success.
- `Credentials` (credentials.dfy): `_read_credentials_file` from the parsed JSON
  value onwards. It accepts a list, or an object with a "credentials" list.
  Each entry uses the `username`/`uname` and `password`/`pwd` keys, with
  Python truthiness for `or`.
- `Watcher` (watcher.dfy): one iteration of `main`'s loop as a step function,
  plus finite runs of it. The step takes the probe verdict, the two clock
  readings, `last_success` and the login outcome. It gives back the path taken,
  the new `last_success` and the sleep duration.
- `Text` (text.dfy): Python's `in` on strings, `lower`, `strip`, `s[:n]` and
  integer formatting. `lower` and `strip` are ASCII approximations of Python's
  Unicode methods. `strip` removes the ASCII characters that Python's
  `isspace` accepts, including `\x1c`-`\x1f`.
- `Wrappers` (wrappers.dfy): `Option` and `Result`.

Consequences of the code's rule order:

- A login response "Already logged in" is reported as "login successful", not
  "already logged in". The rule for "logged in" comes first and matches
  the same text (`PortalLogin.AlreadyLoggedInIsShadowed`).
- The "already" rule accepts "already" together with "login" or "logged"
  (campnet_login.py:106). So a body with "already" and "logged" but not
  "logged in" also gives "already logged in".
- A forced refresh happens once `now - last_success >= 300`, so exactly 300
  seconds already triggers it.
- The "empty body" probe rule tests the stripped body, so a whitespace-only
  body counts as empty.
- A failed login while offline never takes the retry path. See Findings.

## Model

| member | source | states |
|---|---|---|
| Text.Contains | campnet_autologin.py:73-76 | Python's `p in s`: `p` is a prefix of `s` or occurs in `s` after its first character (a predicate; its meaning is stated by ContainsIffOccurs) |
| Text.ContainsIffOccurs | campnet_autologin.py:73-76 | The left-to-right substring search used for Python's `p in s` holds exactly when `p` occurs at some position of `s` |
| Text.ContainsToLower | campnet_login.py:99 | Lower-casing a text keeps every occurrence, lower-cased, so a mixed-case phrase in the raw body is found in the lower-cased text |
| Text.ToLowerMapsAlphabet | campnet_autologin.py:59 | Lower-casing keeps the length; the capital at position k of "A".."Z" becomes the letter at position k of "a".."z", and every character outside "A".."Z" is kept |
| Text.ToLowerNormalises | campnet_autologin.py:59 | A lower-cased text has no ASCII capital, and lower-casing it again changes nothing |
| Text.SkipSpace | campnet_autologin.py:58 | The forward scan of `strip()` stops at the first non-whitespace character, and everything it passes is whitespace |
| Text.SkipSpaceBack | campnet_autologin.py:58 | The backward scan of `strip()` stops after the last non-whitespace character, and everything it passes is whitespace |
| Text.Strip | campnet_autologin.py:58 | `strip()`: the text between the forward and the backward whitespace scans (its meaning is stated by StripSlice, StripEmptyIff and StripPadded) |
| Text.StripSlice | campnet_autologin.py:58 | `strip()` returns a slice of the text with only whitespace outside it and no whitespace at either end of it |
| Text.StripEmptyIff | campnet_autologin.py:58 | The stripped body is empty exactly when the body is all whitespace |
| Text.Take | campnet_login.py:112 | `s[:200]` is a prefix of `s` with length `min(len(s), 200)` |
| Text.NatToString | campnet_autologin.py:71 | The status rendered in an f-string is a non-empty run of decimal digits whose decimal value is the status, with no leading zero (it starts with "0" only for 0) |
| Text.NatToStringInjective | campnet_autologin.py:71 | Different status codes render to different texts |
| Probe.RedirectReason | campnet_autologin.py:70-71 | The reason `f"redirected to {final_url} ({status})"` (its readback is stated by RedirectReasonInjective) |
| Probe.ProbeText | campnet_autologin.py:58-59 | The text the probe rules examine: the body stripped, then lower-cased (stated by SuccessMarkerIff and StripEmptyIff) |
| Probe.Classify | campnet_autologin.py:53-81 | A transport error is inconclusive. A redirected response is always offline. An online verdict needs an unredirected 200 or 204 |
| Probe.NoRedirect204IsOnline | campnet_autologin.py:61-62 | A 204 whose final URL is the requested URL is online with reason "204 with no redirect", whatever its body |
| Probe.SuccessMarkerIff | campnet_autologin.py:58-59 | The stripped, lower-cased body equals "success" exactly when the body is "success" in any ASCII case, padded only with whitespace |
| Probe.NoRedirect200Online | campnet_autologin.py:64-68 | An unredirected 200 with a blank body is online ("200 with empty body"). One with the padded success marker is online ("200 success marker") |
| Probe.ClassifyConclusiveOnResponse | campnet_autologin.py:61-71 | A response is classified online exactly when it was not redirected and is a 204, or a 200 with a blank or success-marker body |
| Probe.RedirectIsOffline | campnet_autologin.py:70-71 | Any response whose final URL differs from the requested URL is offline. This includes a redirected 204 or 200. The reason starts with "redirected to " followed by the final URL |
| Probe.RedirectReasonInjective | campnet_autologin.py:71 | The redirect reason determines both the redirect target and the status code |
| Probe.NoRedirectOfflineRules | campnet_autologin.py:73-81 | An unredirected response that no online rule catches gives "html portal content" if its text has "<html" or "<!doctype". Otherwise it gives "portal text detected" if the text has "campnet" or "login". Otherwise it is inconclusive |
| Probe.FirstConclusive | campnet_autologin.py:45-83 | The loop over the URLs is online only when some URL's classification is online: never online by default |
| Probe.FirstConclusiveWins | campnet_autologin.py:45-55 | When every earlier URL was inconclusive, the first conclusive URL's verdict is the result |
| Probe.AllInconclusiveIsOffline | campnet_autologin.py:83 | With every URL inconclusive the result is `(False, "all probes inconclusive")` |
| Probe.LaterOutcomesIgnored | campnet_autologin.py:45-77 | Outcomes of URLs after the first conclusive one cannot change the result: probing stops there |
| Probe.TransportErrorsAreSkipped | campnet_autologin.py:53-55 | A transport error is skipped like any inconclusive URL: its detail never matters and it is never read as offline |
| Probe.SameClassificationSameResult | campnet_autologin.py:45-83 | The overall result depends only on the per-URL classifications, in order |
| Probe.IsLoggedIn | campnet_autologin.py:44-83 | With the two configured URLs, the first URL decides if it is conclusive, then the second, else the result is "all probes inconclusive" |
| Probe.ScenarioFirst204 | campnet_autologin.py:61-62 | An unredirected 204 on the first URL gives online, whatever the second URL would answer |
| Probe.ScenarioPortalRedirect | campnet_autologin.py:70-71 | A portal page "<html>login</html>" served after a redirect is offline, and the reason names the portal URL and status 200 |
| Probe.ScenarioNoNetwork | campnet_autologin.py:53-55 | Transport errors on both URLs give "all probes inconclusive", offline |
| PortalLogin.TryCredential | campnet_login.py:88-112 | `login_with_credential(c)` for the k-th POST of a `login` call: the classification of what that POST produced |
| PortalLogin.ClassifyLoginResponse | campnet_login.py:97-112 | A transport error gives `(False, "network error: " + detail)`. Success holds exactly when the lower-cased body has "successfully" or "logged in", or has "already" with "login" or "logged" |
| PortalLogin.SuccessRule | campnet_login.py:103-104 | A lower-cased body with "successfully" or "logged in" gives `(True, "login successful")` |
| PortalLogin.ReasonDeterminesSuccess | campnet_login.py:97-112 | The result is a success exactly when its reason is "login successful" or "already logged in": no failure reason takes either form |
| PortalLogin.AlreadyLoggedInIff | campnet_login.py:103-107 | "already logged in" is the reason exactly when the body has "already" with "login" or "logged", and has neither "successfully" nor "logged in" |
| PortalLogin.AlreadyLoggedInIsShadowed | campnet_login.py:103-107 | A body containing "already logged in" yields "login successful", never "already logged in" |
| PortalLogin.ScenarioAlreadyLoggedIn | campnet_login.py:99-104 | A raw body containing "Already logged in" is reported as `(True, "login successful")` |
| PortalLogin.InvalidCredentialsIff | campnet_login.py:109-110 | `(False, "invalid username/password")` is returned exactly when neither success rule fires and the body has both "password" and "invalid" |
| PortalLogin.UnexpectedResponse | campnet_login.py:112 | Any other body fails with "unexpected response: " and at most the first 200 characters of the body as received, before lower-casing |
| PortalLogin.Login | campnet_login.py:115-127 | With no credentials: `(False, None, "no credentials supplied")` and no POST. Otherwise one POST per list element in order; the credential of the first successful POST and its reason are returned, and nothing after it is posted. If every POST fails: `(False, None, last reason)` after posting all of them |
| PortalLogin.LoginOnlyLastSucceeds | campnet_login.py:121-125 | When only the last of N POSTs succeeds, all N are made and the last credential is reported with its reason, even if it also appears earlier in the list |
| PortalLogin.LoginRepeatedCredential | campnet_login.py:119-125 | A credential listed twice is posted twice: a network error on the first POST and a success page on the second give `(True, c, "login successful")` after two POSTs |
| Credentials.Truthy | campnet_login.py:42-44 | Python truthiness of a JSON value: null, false, zero, and empty strings, lists and objects are falsy |
| Credentials.Or | campnet_login.py:42-43 | Python's `a or b` is `a` when `a` is truthy and `b` otherwise, so it is truthy exactly when either operand is |
| Credentials.Entries | campnet_login.py:33 | The list to read: the "credentials" member of a top-level object (null when it is missing), otherwise the top-level value itself |
| Credentials.NormaliseFrom | campnet_login.py:38-47 | The entries are accepted exactly when all are valid, one credential per entry in order. Otherwise the error names the first invalid entry (1-based): "not a mapping" or "missing username/password" |
| Credentials.ReadCredentials | campnet_login.py:33-49 | A top-level object contributes its "credentials" member. A non-list is refused. Success yields exactly one credential per entry, in order, when every entry is valid |
| Credentials.PreferredKeys | campnet_login.py:42-43 | "username" is taken over "uname", and "password" over "pwd", whenever it is truthy. The alias is used only when the key is missing or falsy |
| Credentials.StringFieldsKept | campnet_login.py:44-47 | An accepted entry with string fields yields a credential with non-empty username and password |
| Credentials.FirstBadEntryReported | campnet_login.py:38-45 | The first refused entry decides the error, whatever follows it |
| Credentials.FirstBadEntryUnique | campnet_login.py:38-45 | There is only one first refused entry |
| Credentials.ScenarioWrappedAliases | campnet_login.py:33-47 | `{"credentials": [{"uname": "f2020", "pwd": "pw"}]}` yields the single credential ("f2020", "pw") |
| Credentials.ScenarioBareObject | campnet_login.py:33-35 | A top-level object without a "credentials" member is refused as not a list |
| Watcher.AsWrittenJudge | campnet_autologin.py:86-92 | `if attempt_login():` examines the 3-tuple that `login()` returns, which is never empty and so always truthy, whatever the login outcome |
| Watcher.IntendedJudge | campnet_autologin.py:86-92 | The intended judgement of `attempt_login()`: the success flag of the login outcome |
| Watcher.RefreshDue | campnet_autologin.py:102 | A refresh is due when `last_success` is truthy (non-zero) and at least 300s have passed since it |
| Watcher.Step | campnet_autologin.py:99-116 | A login is attempted exactly when offline or a refresh is due. The post-login path is taken exactly when offline with a login judged successful, the retry path exactly when offline with one judged failed. A login judged successful sets `last_success` to the post-login time, and nothing else changes it. The sleep is 5s on the post-login path and 10s otherwise |
| Watcher.OnlineQuiet | campnet_autologin.py:101-107 | Online with `last_success` zero or less than 300s old: no login, `last_success` unchanged, 10s sleep |
| Watcher.OfflineAttempts | campnet_autologin.py:109-116 | Offline always attempts a login. Judged success sets `last_success` and sleeps 5s. Judged failure keeps it and sleeps 10s |
| Watcher.AsWrittenAttemptsAlwaysSucceed | campnet_autologin.py:86-92 | As written, every attempt counts as success: the retry path is never taken and every attempt resets `last_success` |
| Watcher.AsWrittenFailedLoginCountsAsSuccess | campnet_autologin.py:86-92 | As written, an offline cycle whose login failed still sets `last_success` and sleeps 5s |
| Watcher.IntendedFailedLoginRetries | campnet_autologin.py:109-116 | Judging by the success flag, a failed login keeps `last_success` and sleeps the 10s retry interval |
| Watcher.IntendedForcedRefresh | campnet_autologin.py:101-106 | Judging by the success flag, a successful forced refresh sets `last_success` to the time after the login, a failed one keeps it, and both sleep 10s |
| Watcher.Run | campnet_autologin.py:97-116 | A run has one iteration result per input cycle |
| Watcher.RunSteps | campnet_autologin.py:97-116 | Iteration k of a run is one step from the `last_success` that iteration k-1 left, starting from the initial value |
| Watcher.OnlineWithoutHistoryNeverLogsIn | campnet_autologin.py:97-107 | Starting from `last_success = 0` and always online, no login is ever attempted and every iteration sleeps 10s |
| Watcher.OfflineIterationsAttempt | campnet_autologin.py:109-110 | In every run, every offline iteration attempts a login |
| Watcher.AsWrittenRunNeverRetries | campnet_autologin.py:110-116 | As written, no iteration of any run reaches the retry lines |
| Watcher.IntendedTimerMovesOnlyOnSuccess | campnet_autologin.py:104-111 | Judging by the success flag, `last_success` changes only in an iteration whose login succeeded |
| Watcher.AsWrittenTimerKeepsLatestAttempt | campnet_autologin.py:102-111 | As written and with a clock that never goes back, `last_success` never drops below the end time of any earlier attempt |
| Watcher.AsWrittenRefreshSpacing | campnet_autologin.py:102-105 | As written and with a clock that never goes back, a forced refresh starts at least 300s after any earlier login attempt ended |
| Watcher.ScenarioForcedRefresh | campnet_autologin.py:102-104 | Online with the last login exactly 300s ago forces a refresh. At 299s it does not |

## Findings

| source | as written | input that shows it | evidently intended | confidence | as-written member | corrected member |
|---|---|---|---|---|---|---|
| campnet_autologin.py:86-92 | `attempt_login` returns `login()`'s 3-tuple. `if attempt_login():` tests the tuple, which is never empty and so always truthy | Offline cycle where `login()` returns `(False, None, "invalid username/password")`: `last_success` is set to now, the loop sleeps 5s, and the retry branch at lines 115-116 is never reached | Return the tuple's success flag, as the `-> bool` annotation and the "did not confirm success" log line indicate | high; not executed | Watcher.AsWrittenFailedLoginCountsAsSuccess | Watcher.IntendedFailedLoginRetries |

`Watcher.Step` and `Watcher.Run` take the judgement of a login as a
parameter. `AsWrittenJudge` is the code's behaviour and `IntendedJudge` reads
the success flag. The run lemmas that hold for both are stated for any judge.
Those that depend on the judgement are stated for each one by name.

## Left out

- HTTP GET and POST, their timeouts, the no-cache probe headers, and the disabled TLS verification of the login POST. These are network I/O. Their results are the inputs `ProbeOutcome` and `PostOutcome`.
- The login form payload (mode "191", username, password, millisecond timestamp, product type "0"). It only shapes the request that is left out.
- `load_credentials`. It handles environment lookup, path resolution, existence checks, de-duplication and the UNAME/PWD fallback, and `login()` uses it when called without a list. This is filesystem and environment plumbing. `PortalLogin.Login` takes the credential list explicitly.
- `.env` loading, `json.load` and opening the file. `Credentials.ReadCredentials` starts from the parsed value. Duplicate JSON keys are assumed already resolved into one value per key.
- Python's `str()` of non-string JSON values (numbers, booleans, lists, objects). It is the caller-supplied `render` function. Strings are kept as they are.
- JSON numbers are reals, so integers and floats are not told apart. NaN and infinities are not modelled.
- Logging configuration and all log calls, and the `__main__` blocks. They have no effect on results.
- `time.time` and `time.sleep`. Clock readings are cycle inputs and sleep durations are step outputs. Times are exact reals, so floating-point rounding is not modelled.
- The non-terminating `while True` loop. It is modelled by single steps and by finite runs of any length.
- Unicode case mapping and whitespace of Python's `lower` and `strip`. Only ASCII letters are lower-cased, and only ASCII whitespace is stripped.
- The answer to each POST of a `login` call is an input `post(k, c)`: what the k-th POST, made with credential `c`, produced. Across loop iterations, the login outcome is a separate input per cycle.
- Watcher.Step: an exception that escapes `main` is not modelled, so every step returns a result. `login()` without a list raises when `load_credentials` finds no credential (campnet_login.py:82-85), and `is_logged_in` catches only `RequestException` (campnet_autologin.py:53). Neither `attempt_login` nor `main` catches these, so the watcher would stop. The step models only iterations that complete.
