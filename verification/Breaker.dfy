/** The circuit breaker of pkg/ossx/retry.go: one atomic step for each critical section of cb.mu,
    and do, which runs the retry loop between two such steps. */
module Breaker {
  import opened Wrappers
  import opened Errors
  import opened Retry

  datatype Mode = Closed | Open | HalfOpen

  datatype State = State(threshold: int, cooldown: int, failures: nat, mode: Mode, openedAt: int) {
    predicate Valid() {
      threshold >= 1 && cooldown >= 1
    }
  }

  // newCircuitBreaker
  function New(threshold: int, cooldown: int): (b: State)
    ensures b.Valid()
  {
    State(if threshold <= 0 then 5 else threshold, if cooldown <= 0 then 30 * SECOND else cooldown, 0, Mode.Closed, 0)
  }

  // The threshold and the cooldown that a breaker works with: what is configured, if positive.
  function Threshold(configured: int): int {
    if configured >= 1 then configured else 5
  }

  function Cooldown(configured: int): int {
    if configured >= 1 then configured else 30_000_000_000
  }

  predicate Admits(b: State, now: int) {
    b.mode == Open ==> now - b.openedAt >= b.cooldown
  }

  function AfterAllow(b: State, now: int): State {
    if b.mode == Open && Admits(b, now) then b.(mode := HalfOpen) else b
  }

  function AfterSuccess(b: State): State {
    b.(failures := 0, mode := Mode.Closed)
  }

  function AfterFailure(b: State, now: int): State {
    var c := b.(failures := b.failures + 1);
    if c.failures >= c.threshold then c.(mode := Open, openedAt := now) else c
  }

  const BREAKER_OPEN := "circuit breaker open"

  // The breaker afterwards, the state fn works on, the returned error, and the retry run if admitted.
  datatype DoRun<S> = DoRun(breaker: State, state: S, err: Option<GoError>, run: Option<RetryRun<S>>)

  function Record(b: State, err: Option<GoError>, now: int): State {
    if err.None? then AfterSuccess(b)
    else if IsRetryable(err.value) then AfterFailure(b, now)
    else b
  }

  function DoSpec<S>(b: State, p: Policy, ctx: Context, look: nat, op: string, fn: Attempt<S>, s: S,
                     allowAt: int, recordAt: int): DoRun<S>
    requires p.Valid()
  {
    if !Admits(b, allowAt) then DoRun(b, s, Some(NewError(Unavailable, op, BREAKER_OPEN)), None)
    else
      var r := WithRetrySpec(p, ctx, look, op, fn, s);
      DoRun(Record(AfterAllow(b, allowAt), r.err, recordAt), r.state, r.err, Some(r))
  }

  class CircuitBreaker {
    const threshold: int
    const cooldown: int
    var failures: nat
    var mode: Mode
    var openedAt: int

    function Value(): State
      reads this
    {
      State(threshold, cooldown, failures, mode, openedAt)
    }

    constructor (threshold: int, cooldown: int)
      ensures Value() == New(threshold, cooldown)
    {
      var t, c := threshold, cooldown;
      if t <= 0 { t := 5; }
      if c <= 0 { c := 30 * SECOND; }
      this.threshold, this.cooldown := t, c;
      failures, mode, openedAt := 0, Mode.Closed, 0;
    }

    method Allow(now: int) returns (ok: bool)
      modifies this
      ensures ok == Admits(old(Value()), now)
      ensures Value() == AfterAllow(old(Value()), now)
    {
      match mode {
        case Closed => return true;
        case Open =>
          if now - openedAt >= cooldown {
            mode := HalfOpen;
            return true;
          }
          return false;
        case HalfOpen => return true;
      }
    }

    method RecordSuccess()
      modifies this
      ensures Value() == AfterSuccess(old(Value()))
    {
      failures := 0;
      mode := Mode.Closed;
    }

    method RecordFailure(now: int)
      modifies this
      ensures Value() == AfterFailure(old(Value()), now)
    {
      failures := failures + 1;
      if failures >= threshold {
        mode := Open;
        openedAt := now;
      }
    }

    method Do<S>(p: Policy, ctx: Context, look: nat, op: string, fn: Attempt<S>, s: S, allowAt: int, recordAt: int)
      returns (state: S, err: Option<GoError>)
      requires p.Valid()
      modifies this
      ensures var r := DoSpec(old(Value()), p, ctx, look, op, fn, s, allowAt, recordAt);
              Value() == r.breaker && state == r.state && err == r.err
    {
      var ok := Allow(allowAt);
      if !ok {
        return s, Some(NewError(Unavailable, op, BREAKER_OPEN));
      }
      var waits;
      state, err, waits := WithRetry(p, ctx, look, op, fn, s);
      if err.None? {
        RecordSuccess();
        return;
      }
      if IsRetryable(err.value) {
        RecordFailure(recordAt);
      }
    }
  }

  // ------------------------------------------------------------------ retry and breaker agree

  /** do counts a failure of this run exactly when MaxAttempts calls of fn all failed retryably. */
  ghost predicate CountsExactly<S>(p: Policy, ctx: Context, look: nat, op: string, fn: Attempt<S>, s: S)
    requires p.Valid()
  {
    var r := WithRetrySpec(p, ctx, look, op, fn, s);
    (r.err.Some? && IsRetryable(r.err.value)) <==> Exhausted(p, r.results)
  }

  // For one run: exactly when the retry flag of the returned error matches its kind.
  lemma FailureCountedIff<S>(p: Policy, ctx: Context, look: nat, op: string, fn: Attempt<S>, s: S)
    requires p.Valid()
    ensures var r := WithRetrySpec(p, ctx, look, op, fn, s);
            CountsExactly(p, ctx, look, op, fn, s) <==> (r.err.None? || FlagConsistent(r.err.value))
  {
    RetryLaw(p, ctx, look, op, fn, s);
    var r := WithRetrySpec(p, ctx, look, op, fn, s);
    if r.err.Some? {
      RetryTestsAgreeIff(r.err.value);
    }
  }

  // Some retry loop makes the n-th call: all calls before it fail retryably.
  ghost predicate Made<S>(fn: Attempt<S>, s: S, n: nat) {
    n >= 1 && forall i :: 1 <= i < n ==> RetryableFailure(CallError(fn, s, i))
  }

  /** Every error that a retry loop can see from fn has a flag that matches its kind. */
  ghost predicate Trustworthy<S>(fn: Attempt<S>, s: S) {
    forall n: nat :: Made(fn, s, n) && CallError(fn, s, n).Some? ==> FlagConsistent(CallError(fn, s, n).value)
  }

  lemma TrustworthyCounts<S>(p: Policy, ctx: Context, look: nat, op: string, fn: Attempt<S>, s: S)
    requires p.Valid() && Trustworthy(fn, s)
    ensures CountsExactly(p, ctx, look, op, fn, s)
  {
    RetryLaw(p, ctx, look, op, fn, s);
    FailureCountedIff(p, ctx, look, op, fn, s);
    var r := WithRetrySpec(p, ctx, look, op, fn, s);
    var n := |r.results|;
    if r.err.Some? && !CancelledBy(op, r.err) {
      forall i | 1 <= i <= n ensures CallError(fn, s, i) == r.results[i - 1] {
        assert 1 + (i - 1) == i;
      }
      assert Made(fn, s, n);
    }
  }

  const LIVE: Context := _ => None

  // An untrustworthy error is miscounted by the policy that stops at it.
  lemma MiscountWitness<S>(look: nat, op: string, fn: Attempt<S>, s: S, n: nat)
    requires Made(fn, s, n) && CallError(fn, s, n).Some? && !FlagConsistent(CallError(fn, s, n).value)
    ensures !CountsExactly(Policy(n, 1, 1, 1.0), LIVE, look, op, fn, s)
  {
    var p, ctx := Policy(n, 1, 1, 1.0), LIVE;
    RetryLaw(p, ctx, look, op, fn, s);
    FailureCountedIff(p, ctx, look, op, fn, s);
    var r := WithRetrySpec(p, ctx, look, op, fn, s);
    var k := |r.results|;
    assert 1 + (k - 1) == k;
    assert r.err == CallError(fn, s, k);
    assert k < n ==> RetryableFailure(CallError(fn, s, k));
  }

  /** Over one adapter call fn on one state, do counts failures exactly for exhausted runs, under every
      policy and every context, if and only if every error that a retry loop can see from fn has a flag
      that matches its kind. */
  lemma CountsExactlyIff<S>(fn: Attempt<S>, s: S)
    ensures (forall p: Policy, ctx: Context, look: nat, op: string :: p.Valid() ==> CountsExactly(p, ctx, look, op, fn, s))
            <==> Trustworthy(fn, s)
  {
    if Trustworthy(fn, s) {
      forall p: Policy, ctx: Context, look: nat, op: string | p.Valid() ensures CountsExactly(p, ctx, look, op, fn, s) {
        TrustworthyCounts(p, ctx, look, op, fn, s);
      }
    } else {
      var n: nat :| Made(fn, s, n) && CallError(fn, s, n).Some? && !FlagConsistent(CallError(fn, s, n).value);
      MiscountWitness(0, "", fn, s, n);
      assert Policy(n, 1, 1, 1.0).Valid();
    }
  }

  // Adapters whose errors come from the constructors are trustworthy.
  lemma BuiltIsTrustworthy<S(!new)>(fn: Attempt<S>, s: S)
    requires forall i: nat, t: S :: fn(i, t).1.Some? ==> Built(fn(i, t).1.value)
    ensures Trustworthy(fn, s)
  {
    forall n: nat | Made(fn, s, n) && CallError(fn, s, n).Some? ensures FlagConsistent(CallError(fn, s, n).value) {
      BuiltErrorsAgree(CallError(fn, s, n).value);
    }
  }

  /** Over every trustworthy adapter call, for every sequence of outcomes and cancellations of one do call:
      the breaker refuses without calling fn; or it closes exactly when the last call succeeded, counts a
      failure exactly when MaxAttempts calls all failed retryably, and otherwise keeps its counter and,
      once half-open, stays half-open. */
  lemma DoLaw<S>(b: State, p: Policy, ctx: Context, look: nat, op: string, fn: Attempt<S>, s: S, allowAt: int, recordAt: int)
    requires p.Valid() && Trustworthy(fn, s)
    ensures var r := DoSpec(b, p, ctx, look, op, fn, s, allowAt, recordAt);
            && (r.run.Some? ==> r.state == After(fn, s, 1, |r.run.value.results|) && r.run.value == WithRetrySpec(p, ctx, look, op, fn, s))
            && (r.run.None? <==> b.mode == Open && allowAt < b.openedAt + b.cooldown)
            && (r.run.None? ==> r.breaker == b && r.state == s && r.err.Some? && IsErrCircuitOpen(r.err.value))
            && (r.run.Some? ==>
                  var results := r.run.value.results;
                  && |results| <= p.maxAttempts
                  && (r.err.None? <==> results != [] && results[|results| - 1].None?)
                  && (r.err.None? ==> r.breaker.failures == 0 && r.breaker.mode == Mode.Closed)
                  && (Exhausted(p, results) <==> r.err.Some? && r.breaker.failures == b.failures + 1)
                  && (r.err.Some? && !Exhausted(p, results) ==>
                        r.breaker == b.(mode := if b.mode == Open then HalfOpen else b.mode)))
  {
    if Admits(b, allowAt) {
      RetryLaw(p, ctx, look, op, fn, s);
      TrustworthyCounts(p, ctx, look, op, fn, s);
    }
  }

  // ------------------------------------------------------------------ every interleaving

  // One critical section of cb.mu, with the clock reading taken inside it. Calls of do on one
  // breaker interleave freely between these steps, so a run of the breaker is any sequence of them.
  datatype Step = Allow(at: int) | Success(at: int) | Failure(at: int)

  function Apply(b: State, e: Step): State {
    match e
    case Allow(at) => AfterAllow(b, at)
    case Success(_) => AfterSuccess(b)
    case Failure(at) => AfterFailure(b, at)
  }

  function Replay(b: State, run: seq<Step>): State {
    if run == [] then b else Apply(Replay(b, run[..|run| - 1]), run[|run| - 1])
  }

  /** The monotonic clock: readings inside the lock never go back. */
  ghost predicate Timed(run: seq<Step>) {
    forall i, j :: 0 <= i <= j < |run| ==> run[i].at <= run[j].at
  }

  // The history: failures recorded since the last success, and when the last failure was.
  function FailuresSinceSuccess(run: seq<Step>): nat {
    if run == [] then 0
    else
      var before := FailuresSinceSuccess(run[..|run| - 1]);
      match run[|run| - 1]
      case Allow(_) => before
      case Success(_) => 0
      case Failure(_) => before + 1
  }

  function LastFailure(run: seq<Step>): Option<int> {
    if run == [] then None
    else if run[|run| - 1].Failure? then Some(run[|run| - 1].at)
    else LastFailure(run[..|run| - 1])
  }

  ghost predicate RefinesHistory(b: State, run: seq<Step>) {
    && b.failures == FailuresSinceSuccess(run)
    && (b.mode == Mode.Closed <==> b.failures < b.threshold)
    && (b.mode != Mode.Closed ==> LastFailure(run) == Some(b.openedAt))
    && (b.mode == HalfOpen ==> run != [] && run[|run| - 1].at - b.openedAt >= b.cooldown)
  }

  /** In every interleaving the breaker is a function of its history: the counter is the number of
      failures since the last success, it is closed exactly below the threshold, and when not closed
      openedAt is the time of the latest failure. */
  lemma {:induction false} HistoryRefined(threshold: int, cooldown: int, run: seq<Step>)
    requires Timed(run)
    ensures RefinesHistory(Replay(New(threshold, cooldown), run), run)
    ensures var b := Replay(New(threshold, cooldown), run);
            b.threshold == Threshold(threshold) && b.cooldown == Cooldown(cooldown)
    decreases |run|
  {
    if run != [] {
      var before := run[..|run| - 1];
      HistoryRefined(threshold, cooldown, before);
      if before != [] {
        assert before[|before| - 1].at <= run[|run| - 1].at;
      }
    }
  }

  /** The half-open state is invisible: whether a call is admitted depends on the history alone. */
  lemma AdmittedIff(threshold: int, cooldown: int, run: seq<Step>, now: int)
    requires Timed(run + [Allow(now)])
    ensures FailuresSinceSuccess(run) > 0 ==> LastFailure(run).Some?
    ensures Admits(Replay(New(threshold, cooldown), run), now)
            <==> (FailuresSinceSuccess(run) < Threshold(threshold) || now - LastFailure(run).value >= Cooldown(cooldown))
  {
    var run' := run + [Allow(now)];
    assert forall i :: 0 <= i < |run| ==> run[i] == run'[i];
    assert run'[|run|].at == now;
    HistoryRefined(threshold, cooldown, run);
    FailureSeen(run);
  }

  lemma {:induction false} FailureSeen(run: seq<Step>)
    ensures FailuresSinceSuccess(run) > 0 ==> LastFailure(run).Some?
    decreases |run|
  {
    if run != [] { FailureSeen(run[..|run| - 1]); }
  }

  lemma {:induction false} HistorySince(run: seq<Step>, i: nat)
    requires Timed(run) && i < |run| && run[i].Failure?
    requires forall k :: i < k < |run| ==> !run[k].Success?
    ensures FailuresSinceSuccess(run) >= FailuresSinceSuccess(run[..i + 1])
    ensures LastFailure(run).Some? && LastFailure(run).value >= run[i].at
    decreases |run|
  {
    var before := run[..|run| - 1];
    if i == |run| - 1 {
      assert run[..i + 1] == run;
    } else {
      HistorySince(before, i);
      assert before[..i + 1] == run[..i + 1];
    }
  }

  /** After a failure that reached the threshold, no call is admitted within the cooldown of it
      unless some call recorded a success in between, whatever else interleaves. */
  lemma NoEarlyAdmission(threshold: int, cooldown: int, run: seq<Step>, i: nat, j: nat)
    requires Timed(run) && i < j < |run|
    requires run[i].Failure? && FailuresSinceSuccess(run[..i + 1]) >= Threshold(threshold)
    requires run[j].Allow? && run[j].at - run[i].at < Cooldown(cooldown)
    requires forall k :: i < k < j ==> !run[k].Success?
    ensures !Admits(Replay(New(threshold, cooldown), run[..j]), run[j].at)
  {
    HistorySince(run[..j], i);
    assert run[..j][..i + 1] == run[..i + 1];
    assert run[..j] + [Allow(run[j].at)] == run[..j + 1];
    AdmittedIff(threshold, cooldown, run[..j], run[j].at);
  }

  /** Half-open admits any number of calls, not one probe: from the end of the cooldown on, every
      call is admitted as long as none of them has recorded a result. */
  lemma {:induction false} HalfOpenAdmitsAll(threshold: int, cooldown: int, run: seq<Step>, calls: seq<Step>)
    requires Timed(run + calls) && forall k :: 0 <= k < |calls| ==> calls[k].Allow?
    requires LastFailure(run).Some?
    requires forall k :: 0 <= k < |calls| ==> calls[k].at - LastFailure(run).value >= Cooldown(cooldown)
    ensures forall k :: 0 <= k < |calls| ==>
              Admits(Replay(New(threshold, cooldown), run + calls[..k]), calls[k].at)
  {
    forall k | 0 <= k < |calls|
      ensures Admits(Replay(New(threshold, cooldown), run + calls[..k]), calls[k].at)
    {
      AllowsKeepHistory(run, calls[..k]);
      var prefix := run + calls[..k] + [Allow(calls[k].at)];
      assert prefix == (run + calls)[..|prefix|];
      AdmittedIff(threshold, cooldown, run + calls[..k], calls[k].at);
    }
  }

  lemma {:induction false} AllowsKeepHistory(run: seq<Step>, calls: seq<Step>)
    requires forall k :: 0 <= k < |calls| ==> calls[k].Allow?
    ensures LastFailure(run + calls) == LastFailure(run)
    ensures FailuresSinceSuccess(run + calls) == FailuresSinceSuccess(run)
    decreases |calls|
  {
    if calls == [] {
      assert run + calls == run;
    } else {
      var n := |calls| - 1;
      assert (run + calls)[..|run + calls| - 1] == run + calls[..n];
      AllowsKeepHistory(run, calls[..n]);
    }
  }
}
