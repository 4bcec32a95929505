/** The login attempter of campnet_login.py: `login_with_credential` turns the
    portal's answer to one form POST into `(success, reason)`, and `login`
    tries the credentials in order until one succeeds. The POSTs themselves
    are an input: `post(k, c)` is what the `k`-th POST of a `login` call,
    made with credential `c`, produced. A credential listed twice is posted
    twice, and the two POSTs may be answered differently. */
module PortalLogin {
  import opened Wrappers
  import opened Text
  import opened Credentials

  /** What the POST produced: an exception, or the response text. */
  datatype PostOutcome =
    | PostError(detail: string)
    | PostResponse(body: string)

  /** `(success, reason)` for one credential. */
  datatype Attempt = Attempt(success: bool, reason: string)

  /** `(success, credential used, reason)` as returned by `login`. */
  datatype LoginOutcome = LoginOutcome(success: bool, used: Option<Credential>, reason: string)

  /** How much of an unrecognised body the reason quotes. */
  const SnippetLength: nat := 200

  const NetworkErrorPrefix: string := "network error: "
  const UnexpectedPrefix: string := "unexpected response: "

  /* The rules, applied to the lower-cased body. */

  predicate SaysSuccess(text: string) {
    Contains(text, "successfully") || Contains(text, "logged in")
  }

  predicate SaysAlready(text: string) {
    Contains(text, "already") && (Contains(text, "login") || Contains(text, "logged"))
  }

  predicate SaysInvalid(text: string) {
    Contains(text, "password") && Contains(text, "invalid")
  }

  /** `login_with_credential` once the POST has been made. */
  function ClassifyLoginResponse(o: PostOutcome): (r: Attempt)
    ensures o.PostError? ==> r == Attempt(false, NetworkErrorPrefix + o.detail)
    ensures r.success <==> o.PostResponse? && (SaysSuccess(ToLower(o.body)) || SaysAlready(ToLower(o.body)))
  {
    match o
    case PostError(detail) => Attempt(false, NetworkErrorPrefix + detail)
    case PostResponse(body) =>
      var text := ToLower(body);
      if SaysSuccess(text) then Attempt(true, "login successful")
      else if SaysAlready(text) then Attempt(true, "already logged in")
      else if SaysInvalid(text) then Attempt(false, "invalid username/password")
      else Attempt(false, UnexpectedPrefix + Take(body, SnippetLength))
  }

  /** `login_with_credential(c)` made as the `k`-th POST of a `login` call. */
  function TryCredential(post: (nat, Credential) -> PostOutcome, k: nat, c: Credential): Attempt {
    ClassifyLoginResponse(post(k, c))
  }

  /* ---------------- properties of the classification ---------------- */

  /** "successfully" or "logged in" anywhere in the body means success. */
  lemma SuccessRule(body: string)
    requires SaysSuccess(ToLower(body))
    ensures ClassifyLoginResponse(PostResponse(body)) == Attempt(true, "login successful")
  {
  }

  /** The two success reasons and the three failure reasons never coincide,
      so the reason alone tells success from failure. */
  lemma ReasonDeterminesSuccess(o: PostOutcome)
    ensures ClassifyLoginResponse(o).success <==>
              ClassifyLoginResponse(o).reason in {"login successful", "already logged in"}
  {
    var r := ClassifyLoginResponse(o);
    if !r.success {
      assert r.reason[0] in {'n', 'i', 'u'};
    }
  }

  /** "already logged in" is reported exactly when the body mentions "already"
      with "login" or "logged" and neither success phrase. */
  lemma AlreadyLoggedInIff(o: PostOutcome)
    ensures ClassifyLoginResponse(o).reason == "already logged in" <==>
              o.PostResponse? && !SaysSuccess(ToLower(o.body)) && SaysAlready(ToLower(o.body))
  {
    var r := ClassifyLoginResponse(o);
    if !r.success {
      assert r.reason[0] in {'n', 'i', 'u'};
    }
  }

  /** A body saying "already logged in" also says "logged in", so it is
      reported as "login successful": the "already logged in" reason never
      appears for it. */
  lemma AlreadyLoggedInIsShadowed(body: string)
    requires Contains(ToLower(body), "already logged in")
    ensures ClassifyLoginResponse(PostResponse(body)) == Attempt(true, "login successful")
  {
    assert "already logged in"[8..17] == "logged in";
    assert OccursAt("already logged in", "logged in", 8);
    ContainsIffOccurs("already logged in", "logged in");
    ContainsThrough(ToLower(body), "already logged in", "logged in");
  }

  /** Invalid credentials are reported exactly when no success rule fires and
      the body mentions both "password" and "invalid". */
  lemma InvalidCredentialsIff(o: PostOutcome)
    ensures ClassifyLoginResponse(o) == Attempt(false, "invalid username/password") <==>
              o.PostResponse? && !SaysSuccess(ToLower(o.body)) && !SaysAlready(ToLower(o.body)) &&
              SaysInvalid(ToLower(o.body))
  {
    var r := ClassifyLoginResponse(o);
    if o.PostError? {
      assert r.reason[0] == 'n';
    } else if !SaysSuccess(ToLower(o.body)) && !SaysAlready(ToLower(o.body)) && !SaysInvalid(ToLower(o.body)) {
      assert r.reason[0] == 'u';
    }
  }

  /** Any other body is a failure quoting at most the first 200 characters of
      the body as received, before lower-casing. */
  lemma UnexpectedResponse(body: string)
    requires !SaysSuccess(ToLower(body)) && !SaysAlready(ToLower(body)) && !SaysInvalid(ToLower(body))
    ensures ClassifyLoginResponse(PostResponse(body)) == Attempt(false, UnexpectedPrefix + Take(body, SnippetLength))
    ensures |Take(body, SnippetLength)| <= SnippetLength && StartsWith(body, Take(body, SnippetLength))
    ensures |body| <= SnippetLength ==> Take(body, SnippetLength) == body
  {
  }

  /** Scenario: a body containing "Already logged in" (any surrounding
      text) is reported as "login successful". */
  lemma ScenarioAlreadyLoggedIn(body: string)
    requires Contains(body, "Already logged in")
    ensures ClassifyLoginResponse(PostResponse(body)) == Attempt(true, "login successful")
  {
    ContainsToLower(body, "Already logged in");
    ToLowerEqIff("Already logged in", "already logged in");
    AlreadyLoggedInIsShadowed(body);
  }

  /* ---------------- the search over credentials (`login`) ---------------- */

  /** The attempt with `creds[k]`, made as the `k`-th POST. */
  function AttemptAt(creds: seq<Credential>, post: (nat, Credential) -> PostOutcome, k: nat): Attempt
    requires k < |creds|
  {
    TryCredential(post, k, creds[k])
  }

  /** Attempt `k` is the first one that succeeds. */
  predicate FirstSuccessAt(creds: seq<Credential>, post: (nat, Credential) -> PostOutcome, k: int) {
    0 <= k < |creds| && AttemptAt(creds, post, k).success &&
    forall j :: 0 <= j < k ==> !AttemptAt(creds, post, j).success
  }

  /** `login(credentials)` with an explicit list. `tried` is how many
      POSTs were made: the search stops at the first success. */
  method Login(creds: seq<Credential>, post: (nat, Credential) -> PostOutcome) returns (r: LoginOutcome, tried: nat)
    ensures |creds| == 0 ==> r == LoginOutcome(false, None, "no credentials supplied") && tried == 0
    ensures tried <= |creds|
    ensures r.success <==> exists k :: 0 <= k < |creds| && AttemptAt(creds, post, k).success
    ensures r.success ==>
              && FirstSuccessAt(creds, post, tried - 1)
              && r.used == Some(creds[tried - 1])
              && r.reason == AttemptAt(creds, post, tried - 1).reason
    ensures !r.success && |creds| > 0 ==>
              && tried == |creds|
              && r == LoginOutcome(false, None, AttemptAt(creds, post, |creds| - 1).reason)
  {
    if |creds| == 0 {
      return LoginOutcome(false, None, "no credentials supplied"), 0;
    }
    var lastReason := "no attempts made";
    tried := 0;
    while tried < |creds|
      invariant tried <= |creds|
      invariant forall j :: 0 <= j < tried ==> !AttemptAt(creds, post, j).success
      invariant tried > 0 ==> lastReason == AttemptAt(creds, post, tried - 1).reason
    {
      var a := TryCredential(post, tried, creds[tried]);
      lastReason := a.reason;
      tried := tried + 1;
      if a.success {
        assert AttemptAt(creds, post, tried - 1).success;
        return LoginOutcome(true, Some(creds[tried - 1]), a.reason), tried;
      }
    }
    r := LoginOutcome(false, None, lastReason);
  }

  /** Scenario: only the last of `n` attempts succeeds; all `n` are made and
      the last credential is reported. The last credential may also appear
      earlier in the list. */
  method LoginOnlyLastSucceeds(creds: seq<Credential>, post: (nat, Credential) -> PostOutcome)
    returns (r: LoginOutcome, tried: nat)
    requires |creds| > 0 && AttemptAt(creds, post, |creds| - 1).success
    requires forall j :: 0 <= j < |creds| - 1 ==> !AttemptAt(creds, post, j).success
    ensures tried == |creds| && r == LoginOutcome(true, Some(creds[|creds| - 1]), AttemptAt(creds, post, |creds| - 1).reason)
  {
    r, tried := Login(creds, post);
  }

  /** Scenario: the same credential listed twice is posted twice. When the
      first POST fails on the network and the second gets a success page,
      `login` succeeds with that credential after two POSTs. */
  method LoginRepeatedCredential(c: Credential, detail: string, body: string)
    returns (r: LoginOutcome, tried: nat)
    requires SaysSuccess(ToLower(body))
    ensures tried == 2 && r == LoginOutcome(true, Some(c), "login successful")
  {
    var post := (k: nat, x: Credential) => if k == 0 then PostError(detail) else PostResponse(body);
    assert !AttemptAt([c, c], post, 0).success;
    SuccessRule(body);
    assert AttemptAt([c, c], post, 1) == Attempt(true, "login successful");
    r, tried := Login([c, c], post);
  }
}
