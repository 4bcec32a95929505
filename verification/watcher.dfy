/** The watcher loop of campnet_autologin.py (`main`). One iteration is a pure
    step: from the probe's verdict, the clock readings and the outcome of the
    login (should one be attempted) it computes whether a login was attempted,
    the new `last_success` and how long the loop then sleeps. Runs of the
    non-terminating loop are finite sequences of iterations.

    `attempt_login` returns `login()`'s 3-tuple, and the loop tests that tuple
    for truth. How the loop judges a login is therefore a parameter of the
    step: `AsWrittenJudge` is the code's behaviour (a non-empty tuple is
    always truthy), `IntendedJudge` reads the success flag. */
module Watcher {
  import opened Wrappers
  import opened PortalLogin

  const CheckIntervalSeconds: nat := 10
  const RetryIntervalSeconds: nat := 10
  const PostLoginVerifyDelaySeconds: nat := 5
  const ForceLoginIntervalSeconds: real := 300.0

  /** The inputs of one iteration: the probe's `online` flag, `time.time()`
      when the refresh deadline is checked, `time.time()` once a login has
      returned, and what `login()` returned (used only if it is called). */
  datatype Cycle = Cycle(online: bool, checkedAt: real, loggedInAt: real, login: LoginOutcome)

  /** Which way through the loop body an iteration went. */
  datatype Path =
    | Quiet          // online, no refresh due
    | ForcedRefresh  // online, refresh due: login attempted
    | PostLogin      // offline, login judged successful
    | Retry          // offline, login judged failed

  datatype StepResult = StepResult(path: Path, lastSuccess: real, sleep: nat) {
    predicate Attempted() {
      path != Quiet
    }
  }

  /** The number of fields of the tuple `login()` returns. */
  const LoginTupleArity: nat := 3

  /** Python truthiness of a tuple: true when it is non-empty. */
  predicate TupleTruthy(arity: nat) {
    arity > 0
  }

  /** `if attempt_login():` as written: the condition is the 3-tuple itself. */
  predicate AsWrittenJudge(o: LoginOutcome): (judged: bool)
    ensures judged
  {
    TupleTruthy(LoginTupleArity)
  }

  /** `if attempt_login():` as intended: the condition is the success flag. */
  predicate IntendedJudge(o: LoginOutcome) {
    o.success
  }

  /** A refresh is due: some login has succeeded (`last_success` is truthy)
      and at least the force-refresh interval has passed since. */
  predicate RefreshDue(last: real, now: real) {
    last != 0.0 && now - last >= ForceLoginIntervalSeconds
  }

  /** One iteration of the `while True` loop of `main`. */
  function Step(last: real, c: Cycle, judge: LoginOutcome -> bool): (r: StepResult)
    ensures r.Attempted() <==> !c.online || RefreshDue(last, c.checkedAt)
    ensures r.path == PostLogin <==> !c.online && judge(c.login)
    ensures r.path == Retry <==> !c.online && !judge(c.login)
    ensures r.Attempted() && judge(c.login) ==> r.lastSuccess == c.loggedInAt
    ensures r.lastSuccess == last || (r.Attempted() && judge(c.login) && r.lastSuccess == c.loggedInAt)
    ensures r.sleep == (if r.path == PostLogin then PostLoginVerifyDelaySeconds else CheckIntervalSeconds)
  {
    if c.online then
      if RefreshDue(last, c.checkedAt) then
        StepResult(ForcedRefresh, if judge(c.login) then c.loggedInAt else last, CheckIntervalSeconds)
      else
        StepResult(Quiet, last, CheckIntervalSeconds)
    else if judge(c.login) then
      StepResult(PostLogin, c.loggedInAt, PostLoginVerifyDelaySeconds)
    else
      StepResult(Retry, last, RetryIntervalSeconds)
  }

  /* ---------------- single steps ---------------- */

  /** Online with no refresh due: nothing happens but a 10-second sleep. */
  lemma OnlineQuiet(last: real, c: Cycle, judge: LoginOutcome -> bool)
    requires c.online && (last == 0.0 || c.checkedAt - last < ForceLoginIntervalSeconds)
    ensures Step(last, c, judge) == StepResult(Quiet, last, 10)
  {
  }

  /** Offline: a login is always attempted, whatever the judge. */
  lemma OfflineAttempts(last: real, c: Cycle, judge: LoginOutcome -> bool)
    requires !c.online
    ensures Step(last, c, judge).Attempted()
    ensures judge(c.login) ==> Step(last, c, judge) == StepResult(PostLogin, c.loggedInAt, 5)
    ensures !judge(c.login) ==> Step(last, c, judge) == StepResult(Retry, last, 10)
  {
  }

  /** As written, every attempted login counts as a success: `last_success`
      becomes the time after the attempt and the retry path is never taken. */
  lemma AsWrittenAttemptsAlwaysSucceed(last: real, c: Cycle)
    ensures Step(last, c, AsWrittenJudge).path != Retry
    ensures Step(last, c, AsWrittenJudge).Attempted() ==> Step(last, c, AsWrittenJudge).lastSuccess == c.loggedInAt
  {
    assert AsWrittenJudge(c.login);
  }

  /** The discrepancy: as written, an offline cycle whose login failed on
      every credential still resets the refresh timer and sleeps only 5s. */
  lemma AsWrittenFailedLoginCountsAsSuccess(last: real, at: real, reason: string)
    ensures !LoginOutcome(false, None, reason).success
    ensures Step(last, Cycle(false, at, at, LoginOutcome(false, None, reason)), AsWrittenJudge) ==
            StepResult(PostLogin, at, 5)
  {
    assert AsWrittenJudge(LoginOutcome(false, None, reason));
  }

  /** As intended, a failed login keeps the timer and waits the retry
      interval; a successful one resets it. */
  lemma IntendedFailedLoginRetries(last: real, c: Cycle)
    requires !c.online
    ensures !c.login.success ==> Step(last, c, IntendedJudge) == StepResult(Retry, last, RetryIntervalSeconds)
    ensures c.login.success ==> Step(last, c, IntendedJudge) == StepResult(PostLogin, c.loggedInAt, 5)
  {
  }

  /** A forced refresh while online: judged by the success flag, a
      successful login moves `last_success` to the time after it, a failed
      one leaves it; either way the loop then sleeps the poll interval. */
  lemma IntendedForcedRefresh(last: real, c: Cycle)
    requires c.online && RefreshDue(last, c.checkedAt)
    ensures c.login.success ==> Step(last, c, IntendedJudge) == StepResult(ForcedRefresh, c.loggedInAt, CheckIntervalSeconds)
    ensures !c.login.success ==> Step(last, c, IntendedJudge) == StepResult(ForcedRefresh, last, CheckIntervalSeconds)
  {
  }

  /* ---------------- bounded runs ---------------- */

  /** The iterations of a run that starts with `last_success == last`. */
  function Run(last: real, cycles: seq<Cycle>, judge: LoginOutcome -> bool): (trace: seq<StepResult>)
    ensures |trace| == |cycles|
    decreases |cycles|
  {
    if |cycles| == 0 then []
    else
      var s := Step(last, cycles[0], judge);
      [s] + Run(s.lastSuccess, cycles[1..], judge)
  }

  /** `last_success` before iteration `k` of a run. */
  function LastBefore(last: real, trace: seq<StepResult>, k: nat): real
    requires k <= |trace|
  {
    if k == 0 then last else trace[k - 1].lastSuccess
  }

  /** Each iteration of a run is one step from the timer the previous
      iteration left behind. */
  lemma {:induction false} RunSteps(last: real, cycles: seq<Cycle>, judge: LoginOutcome -> bool, k: nat)
    requires k < |cycles|
    ensures Run(last, cycles, judge)[k] ==
            Step(LastBefore(last, Run(last, cycles, judge), k), cycles[k], judge)
    decreases k
  {
    if k > 0 {
      var s := Step(last, cycles[0], judge);
      var trace := Run(last, cycles, judge);
      assert trace == [s] + Run(s.lastSuccess, cycles[1..], judge);
      RunSteps(s.lastSuccess, cycles[1..], judge, k - 1);
      assert cycles[1..][k - 1] == cycles[k];
      if k > 1 {
        assert trace[k - 1] == Run(s.lastSuccess, cycles[1..], judge)[k - 2];
      }
    }
  }

  /** Online from the start, with no login ever having succeeded: no login is
      attempted and the loop only sleeps the poll interval (the forced
      refresh needs a truthy `last_success`). */
  lemma {:induction false} OnlineWithoutHistoryNeverLogsIn(cycles: seq<Cycle>, judge: LoginOutcome -> bool)
    requires forall k :: 0 <= k < |cycles| ==> cycles[k].online
    ensures forall k :: 0 <= k < |cycles| ==> Run(0.0, cycles, judge)[k] == StepResult(Quiet, 0.0, CheckIntervalSeconds)
    decreases |cycles|
  {
    if |cycles| > 0 {
      assert cycles[0].online;
      assert Step(0.0, cycles[0], judge) == StepResult(Quiet, 0.0, CheckIntervalSeconds);
      OnlineWithoutHistoryNeverLogsIn(cycles[1..], judge);
      forall k | 0 < k < |cycles|
        ensures Run(0.0, cycles, judge)[k] == StepResult(Quiet, 0.0, CheckIntervalSeconds)
      {
        assert Run(0.0, cycles, judge)[k] == Run(0.0, cycles[1..], judge)[k - 1];
      }
    }
  }

  /** In every run, every offline iteration attempts a login. */
  lemma OfflineIterationsAttempt(last: real, cycles: seq<Cycle>, judge: LoginOutcome -> bool)
    ensures forall k :: 0 <= k < |cycles| && !cycles[k].online ==> Run(last, cycles, judge)[k].Attempted()
  {
    forall k | 0 <= k < |cycles| && !cycles[k].online
      ensures Run(last, cycles, judge)[k].Attempted()
    {
      RunSteps(last, cycles, judge, k);
    }
  }

  /** As written, no run ever takes the retry path. */
  lemma AsWrittenRunNeverRetries(last: real, cycles: seq<Cycle>)
    ensures forall k :: 0 <= k < |cycles| ==> Run(last, cycles, AsWrittenJudge)[k].path != Retry
  {
    forall k | 0 <= k < |cycles|
      ensures Run(last, cycles, AsWrittenJudge)[k].path != Retry
    {
      RunSteps(last, cycles, AsWrittenJudge, k);
      AsWrittenAttemptsAlwaysSucceed(LastBefore(last, Run(last, cycles, AsWrittenJudge), k), cycles[k]);
    }
  }

  /** As intended, the timer only moves on an iteration whose login succeeded. */
  lemma IntendedTimerMovesOnlyOnSuccess(last: real, cycles: seq<Cycle>)
    ensures forall k :: 0 <= k < |cycles| ==>
              var trace := Run(last, cycles, IntendedJudge);
              trace[k].lastSuccess != LastBefore(last, trace, k) ==> trace[k].Attempted() && cycles[k].login.success
  {
    forall k | 0 <= k < |cycles|
      ensures var trace := Run(last, cycles, IntendedJudge);
              trace[k].lastSuccess != LastBefore(last, trace, k) ==> trace[k].Attempted() && cycles[k].login.success
    {
      RunSteps(last, cycles, IntendedJudge, k);
    }
  }

  /** The clock never goes back: within an iteration the login finishes no
      earlier than the deadline check, and every iteration starts no earlier
      than any earlier one ended. */
  predicate MonotoneClock(cycles: seq<Cycle>) {
    && (forall k :: 0 <= k < |cycles| ==> cycles[k].checkedAt <= cycles[k].loggedInAt)
    && (forall a, b :: 0 <= a < b < |cycles| ==> cycles[a].loggedInAt <= cycles[b].checkedAt)
  }

  /** As written, once a login has been attempted at iteration `i`, the timer
      never falls back below the time that login finished. */
  lemma {:induction false} AsWrittenTimerKeepsLatestAttempt(last: real, cycles: seq<Cycle>, i: nat, k: nat)
    requires MonotoneClock(cycles)
    requires i < k <= |cycles| && Run(last, cycles, AsWrittenJudge)[i].Attempted()
    ensures LastBefore(last, Run(last, cycles, AsWrittenJudge), k) >= cycles[i].loggedInAt
    decreases k
  {
    var trace := Run(last, cycles, AsWrittenJudge);
    if k == i + 1 {
      RunSteps(last, cycles, AsWrittenJudge, i);
      AsWrittenAttemptsAlwaysSucceed(LastBefore(last, trace, i), cycles[i]);
    } else {
      AsWrittenTimerKeepsLatestAttempt(last, cycles, i, k - 1);
      RunSteps(last, cycles, AsWrittenJudge, k - 1);
      AsWrittenAttemptsAlwaysSucceed(LastBefore(last, trace, k - 1), cycles[k - 1]);
      assert cycles[i].loggedInAt <= cycles[k - 1].checkedAt <= cycles[k - 1].loggedInAt;
    }
  }

  /** As written and with a monotone clock, a forced refresh comes at least
      300 seconds after the end of any earlier login attempt. */
  lemma AsWrittenRefreshSpacing(last: real, cycles: seq<Cycle>, i: nat, j: nat)
    requires MonotoneClock(cycles)
    requires i < j < |cycles|
    requires Run(last, cycles, AsWrittenJudge)[i].Attempted()
    requires Run(last, cycles, AsWrittenJudge)[j].path == ForcedRefresh
    ensures cycles[j].checkedAt - cycles[i].loggedInAt >= ForceLoginIntervalSeconds
  {
    AsWrittenTimerKeepsLatestAttempt(last, cycles, i, j);
    RunSteps(last, cycles, AsWrittenJudge, j);
  }

  /* ---------------- scenarios ---------------- */

  /** Online, and the last login was 300 seconds ago: a refresh login is made
      although the probes show the session is up. */
  lemma ScenarioForcedRefresh(o: LoginOutcome, judge: LoginOutcome -> bool)
    ensures Step(1000.0, Cycle(true, 1300.0, 1301.0, o), judge).path == ForcedRefresh
    ensures Step(1000.0, Cycle(true, 1299.0, 1300.0, o), judge).path == Quiet
  {
  }
}
