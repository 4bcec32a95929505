/** The connectivity probe of campnet_autologin.py (`is_logged_in`). Each
    well-known "generate_204" URL is fetched once; the HTTP exchange itself is
    an input (`ProbeOutcome`), and the classifier decides from the status, the
    final URL after redirects and the body whether the URL was conclusive. */
module Probe {
  import opened Wrappers
  import opened Text

  /** The probe URLs, tried in this order. */
  const CheckUrls: seq<string> := [
    "http://clients3.google.com/generate_204",
    "http://connectivitycheck.gstatic.com/generate_204"
  ]

  /** What one GET produced: a transport exception, or a response with its
      status code, the URL after following redirects and its text. */
  datatype ProbeOutcome =
    | TransportError(detail: string)
    | Response(status: nat, finalUrl: string, body: string)

  /** `(online, reason)` as returned by `is_logged_in`. */
  datatype Verdict = Verdict(online: bool, reason: string)

  const Inconclusive: Verdict := Verdict(false, "all probes inconclusive")

  const RedirectPrefix: string := "redirected to "

  /** The reason for a redirected probe: `f"redirected to {final_url} ({status})"`. */
  function RedirectReason(finalUrl: string, status: nat): string {
    RedirectPrefix + finalUrl + " (" + NatToString(status) + ")"
  }

  /** The text the rules look at: the stripped body, lower-cased. */
  function ProbeText(body: string): string {
    ToLower(Strip(body))
  }

  predicate HasHtmlMarkup(text: string) {
    Contains(text, "<html") || Contains(text, "<!doctype")
  }

  predicate HasPortalWords(text: string) {
    Contains(text, "campnet") || Contains(text, "login")
  }

  /** One URL's classification; `None` means inconclusive (try the next URL). */
  function Classify(url: string, o: ProbeOutcome): (r: Option<Verdict>)
    ensures o.TransportError? ==> r == None
    ensures o.Response? && o.finalUrl != url ==> r.Some? && !r.value.online
    ensures r.Some? && r.value.online ==> o.Response? && o.finalUrl == url && o.status in {200, 204}
  {
    match o
    case TransportError(_) => None
    case Response(status, finalUrl, body) =>
      var text := ProbeText(body);
      if status == 204 && finalUrl == url then
        Some(Verdict(true, "204 with no redirect"))
      else if status == 200 && finalUrl == url && Strip(body) == [] then
        Some(Verdict(true, "200 with empty body"))
      else if status == 200 && finalUrl == url && text == "success" then
        Some(Verdict(true, "200 success marker"))
      else if finalUrl != url then
        Some(Verdict(false, RedirectReason(finalUrl, status)))
      else if HasHtmlMarkup(text) then
        Some(Verdict(false, "html portal content"))
      else if HasPortalWords(text) then
        Some(Verdict(false, "portal text detected"))
      else
        None
  }

  /** The loop over the URLs: the first conclusive URL decides, otherwise the
      result is offline. Online is only ever reported by some URL. */
  function FirstConclusive(urls: seq<string>, outcomes: seq<ProbeOutcome>): (r: Verdict)
    requires |urls| == |outcomes|
    ensures r.online ==> exists k :: 0 <= k < |urls| && Classify(urls[k], outcomes[k]) == Some(r)
    decreases |urls|
  {
    if |urls| == 0 then Inconclusive
    else match Classify(urls[0], outcomes[0])
      case Some(v) => v
      case None => FirstConclusive(urls[1..], outcomes[1..])
  }

  /** `is_logged_in()`: one outcome per entry of `CheckUrls`. */
  function IsLoggedIn(outcomes: seq<ProbeOutcome>): (r: Verdict)
    requires |outcomes| == |CheckUrls|
    ensures Classify(CheckUrls[0], outcomes[0]).Some? ==> Some(r) == Classify(CheckUrls[0], outcomes[0])
    ensures Classify(CheckUrls[0], outcomes[0]).None? && Classify(CheckUrls[1], outcomes[1]).Some? ==>
              Some(r) == Classify(CheckUrls[1], outcomes[1])
    ensures Classify(CheckUrls[0], outcomes[0]).None? && Classify(CheckUrls[1], outcomes[1]).None? ==>
              r == Inconclusive
  {
    FirstConclusive(CheckUrls, outcomes)
  }

  /* ---------------- the classification rules ---------------- */

  /** A 204 that was not redirected is online whatever its body. */
  lemma NoRedirect204IsOnline(url: string, body: string)
    ensures Classify(url, Response(204, url, body)) == Some(Verdict(true, "204 with no redirect"))
  {
  }

  /** The body is the word "success" in any ASCII case, surrounded only by
      whitespace. */
  ghost predicate SuccessMarker(body: string) {
    exists i, j :: PaddedAt(body, i, j) && ToLower(body[i..j]) == "success"
  }

  predicate PaddedAt(body: string, i: int, j: int) {
    0 <= i <= j <= |body| && SpaceBetween(body, 0, i) && SpaceBetween(body, j, |body|)
  }

  /** The success-marker rule means exactly a padded case variant of "success". */
  lemma SuccessMarkerIff(body: string)
    ensures ProbeText(body) == "success" <==> SuccessMarker(body)
  {
    var r := Strip(body);
    StripSlice(body);
    if ProbeText(body) == "success" {
      var i, j :| SliceWithin(body, r, i, j);
      assert PaddedAt(body, i, j) && ToLower(body[i..j]) == "success";
    }
    if SuccessMarker(body) {
      var i, j :| PaddedAt(body, i, j) && ToLower(body[i..j]) == "success";
      var m := body[i..j];
      assert LowerChar(m[0]) == ToLower(m)[0] == 's';
      assert LowerChar(m[6]) == ToLower(m)[6] == 's';
      assert body[i] == m[0] && body[j - 1] == m[6];
      StripPadded(body, i, j);
    }
  }

  /** A 200 that was not redirected is online when its body is blank (or
      only whitespace) or is the success marker. */
  lemma NoRedirect200Online(url: string, body: string)
    ensures AllSpace(body) ==>
              Classify(url, Response(200, url, body)) == Some(Verdict(true, "200 with empty body"))
    ensures !AllSpace(body) && SuccessMarker(body) ==>
              Classify(url, Response(200, url, body)) == Some(Verdict(true, "200 success marker"))
  {
    StripEmptyIff(body);
    SuccessMarkerIff(body);
  }

  /** Every response that was not redirected and is not caught by an online
      rule is offline iff it shows portal markup or portal words; the two
      offline reasons are told apart by the markup. */
  lemma NoRedirectOfflineRules(url: string, status: nat, body: string)
    requires !(status == 204) && !(status == 200 && (AllSpace(body) || SuccessMarker(body)))
    ensures HasHtmlMarkup(ProbeText(body)) ==>
              Classify(url, Response(status, url, body)) == Some(Verdict(false, "html portal content"))
    ensures !HasHtmlMarkup(ProbeText(body)) && HasPortalWords(ProbeText(body)) ==>
              Classify(url, Response(status, url, body)) == Some(Verdict(false, "portal text detected"))
    ensures !HasHtmlMarkup(ProbeText(body)) && !HasPortalWords(ProbeText(body)) ==>
              Classify(url, Response(status, url, body)) == None
  {
    StripEmptyIff(body);
    SuccessMarkerIff(body);
  }

  /** A response with any rule firing is conclusive; online ones are exactly
      the unredirected 204s and the unredirected 200s with a blank or
      success-marker body. */
  lemma ClassifyConclusiveOnResponse(url: string, o: ProbeOutcome)
    requires o.Response?
    ensures Classify(url, o).Some? && Classify(url, o).value.online <==>
              o.finalUrl == url && (o.status == 204 || (o.status == 200 && (AllSpace(o.body) || SuccessMarker(o.body))))
  {
    StripEmptyIff(o.body);
    SuccessMarkerIff(o.body);
  }

  /** A redirected response is offline, whatever its status (a redirected 204
      included), and its reason starts with the redirect target. */
  lemma RedirectIsOffline(url: string, status: nat, finalUrl: string, body: string)
    requires finalUrl != url
    ensures Classify(url, Response(status, finalUrl, body)) == Some(Verdict(false, RedirectReason(finalUrl, status)))
    ensures StartsWith(RedirectReason(finalUrl, status), RedirectPrefix + finalUrl)
  {
  }

  /** In `url (digits` the parenthesis after the URL is the last one. */
  lemma LastParen(u: string, status: nat)
    ensures (u + " (" + NatToString(status))[|u| + 1] == '('
    ensures forall k :: |u| + 1 < k < |u + " (" + NatToString(status)| ==> (u + " (" + NatToString(status))[k] != '('
  {
    var d := NatToString(status);
    var x := u + " (" + d;
    forall k | |u| + 1 < k < |x| ensures x[k] != '(' {
      assert x[k] == d[k - |u| - 2];
    }
  }

  /** The redirect reason names its target and status unambiguously. */
  lemma RedirectReasonInjective(u1: string, s1: nat, u2: string, s2: nat)
    requires RedirectReason(u1, s1) == RedirectReason(u2, s2)
    ensures u1 == u2 && s1 == s2
  {
    var d1, d2 := NatToString(s1), NatToString(s2);
    var x1, x2 := u1 + " (" + d1, u2 + " (" + d2;
    var r := RedirectReason(u1, s1);
    assert r == RedirectPrefix + x1 + ")";
    assert RedirectReason(u2, s2) == RedirectPrefix + x2 + ")";
    assert x1 == r[|RedirectPrefix|..|r| - 1] == x2;
    LastParen(u1, s1);
    LastParen(u2, s2);
    assert x2[|u1| + 1] == '(' && x1[|u2| + 1] == '(';
    assert |u1| == |u2|;
    assert u1 == x1[..|u1|] == x2[..|u2|] == u2;
    assert d1 == x1[|u1| + 2..] == x2[|u2| + 2..] == d2;
    NatToStringInjective(s1, s2);
  }

  /* ---------------- the loop over the URLs ---------------- */

  /** The first conclusive URL decides the result. */
  lemma {:induction false} FirstConclusiveWins(urls: seq<string>, outcomes: seq<ProbeOutcome>, k: nat)
    requires |urls| == |outcomes| && k < |urls|
    requires forall j :: 0 <= j < k ==> Classify(urls[j], outcomes[j]).None?
    requires Classify(urls[k], outcomes[k]).Some?
    ensures FirstConclusive(urls, outcomes) == Classify(urls[k], outcomes[k]).value
    decreases k
  {
    if k > 0 {
      assert Classify(urls[0], outcomes[0]).None?;
      FirstConclusiveWins(urls[1..], outcomes[1..], k - 1);
    }
  }

  /** With every URL inconclusive the result is offline. */
  lemma {:induction false} AllInconclusiveIsOffline(urls: seq<string>, outcomes: seq<ProbeOutcome>)
    requires |urls| == |outcomes|
    requires forall j :: 0 <= j < |urls| ==> Classify(urls[j], outcomes[j]).None?
    ensures FirstConclusive(urls, outcomes) == Inconclusive
    decreases |urls|
  {
    if |urls| > 0 {
      assert Classify(urls[0], outcomes[0]).None?;
      AllInconclusiveIsOffline(urls[1..], outcomes[1..]);
    }
  }

  /** Outcomes after a conclusive URL are never looked at: the probing stops. */
  lemma {:induction false} LaterOutcomesIgnored(urls: seq<string>, o1: seq<ProbeOutcome>, o2: seq<ProbeOutcome>, k: nat)
    requires |urls| == |o1| == |o2| && k < |urls|
    requires forall j :: 0 <= j <= k ==> o1[j] == o2[j]
    requires Classify(urls[k], o1[k]).Some?
    ensures FirstConclusive(urls, o1) == FirstConclusive(urls, o2)
    decreases k
  {
    assert o1[0] == o2[0];
    if k > 0 && Classify(urls[0], o1[0]).None? {
      LaterOutcomesIgnored(urls[1..], o1[1..], o2[1..], k - 1);
    }
  }

  /** Transport errors are skipped, never read as offline: replacing one by
      another changes nothing. */
  lemma TransportErrorsAreSkipped(urls: seq<string>, outcomes: seq<ProbeOutcome>, k: nat, detail: string)
    requires |urls| == |outcomes| && k < |urls| && outcomes[k].TransportError?
    ensures FirstConclusive(urls, outcomes) == FirstConclusive(urls, outcomes[k := TransportError(detail)])
  {
    SameClassificationSameResult(urls, outcomes, outcomes[k := TransportError(detail)]);
  }

  lemma {:induction false} SameClassificationSameResult(urls: seq<string>, o1: seq<ProbeOutcome>, o2: seq<ProbeOutcome>)
    requires |urls| == |o1| == |o2|
    requires forall j :: 0 <= j < |urls| ==> Classify(urls[j], o1[j]) == Classify(urls[j], o2[j])
    ensures FirstConclusive(urls, o1) == FirstConclusive(urls, o2)
    decreases |urls|
  {
    if |urls| > 0 {
      assert Classify(urls[0], o1[0]) == Classify(urls[0], o2[0]);
      SameClassificationSameResult(urls[1..], o1[1..], o2[1..]);
    }
  }

  /* ---------------- scenarios ---------------- */

  /** An unredirected 204 on the first URL: online, the second URL unused. */
  lemma ScenarioFirst204(second: ProbeOutcome)
    ensures IsLoggedIn([Response(204, CheckUrls[0], "ignored"), second]) == Verdict(true, "204 with no redirect")
  {
  }

  /** A portal page served after a redirect: offline, naming the portal. */
  lemma ScenarioPortalRedirect(portal: string, second: ProbeOutcome)
    requires portal != CheckUrls[0]
    ensures IsLoggedIn([Response(200, portal, "<html>login</html>"), second]) ==
              Verdict(false, RedirectReason(portal, 200))
  {
  }

  /** Both probes failing at the transport level: offline by default. */
  lemma ScenarioNoNetwork(e1: string, e2: string)
    ensures IsLoggedIn([TransportError(e1), TransportError(e2)]) == Inconclusive
  {
  }
}
