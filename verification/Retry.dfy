/** The bounded retry loop and its backoff (pkg/ossx/retry.go). Durations are whole nanoseconds and
    the multiplier is a real number, so rounding of float64 is not modelled. */
module Retry {
  import opened Wrappers
  import opened Errors

  const MILLISECOND := 1_000_000
  const SECOND := 1_000_000_000

  datatype RetryConfig = RetryConfig(maxAttempts: int, initialWait: int, maxWait: int, multiplier: real,
                                     circuitThreshold: int, circuitCooldown: int)

  datatype Policy = Policy(maxAttempts: int, initialWait: int, maxWait: int, multiplier: real) {
    predicate Valid() {
      maxAttempts >= 1 && initialWait > 0 && maxWait > 0 && multiplier > 0.0
    }
  }

  // retryPolicyFromConfig
  function FromConfig(c: RetryConfig): (p: Policy)
    ensures p.Valid()
  {
    Policy(if c.maxAttempts <= 0 then 3 else c.maxAttempts,
           if c.initialWait <= 0 then 100 * MILLISECOND else c.initialWait,
           if c.maxWait <= 0 then 5 * SECOND else c.maxWait,
           if c.multiplier <= 0.0 then 2.0 else c.multiplier)
  }

  // ------------------------------------------------------------------ backoff

  function Pow(m: real, k: nat): real {
    if k == 0 then 1.0 else m * Pow(m, k - 1)
  }

  // delay: the wait before the given (1-based) attempt.
  function Delay(p: Policy, attempt: int): int {
    if attempt <= 1 then 0
    else
      var d := p.initialWait as real * Pow(p.multiplier, attempt - 2);
      (if d > p.maxWait as real then p.maxWait as real else d).Floor
  }

  lemma {:induction false} PowPositive(m: real, k: nat)
    requires m > 0.0
    ensures Pow(m, k) > 0.0
  {
    if k > 0 { PowPositive(m, k - 1); }
  }

  lemma {:induction false} PowMonotone(m: real, j: nat, k: nat)
    requires m >= 1.0 && j <= k
    ensures Pow(m, j) <= Pow(m, k)
    decreases k
  {
    if j < k {
      PowMonotone(m, j, k - 1);
      PowPositive(m, k - 1);
      MulAtLeast(m, Pow(m, k - 1));
    }
  }

  lemma MulAtLeast(m: real, x: real)
    requires m >= 1.0 && x > 0.0
    ensures m * x >= x
  {
    assert (m - 1.0) * x >= 0.0;
  }

  lemma DelayBounds(p: Policy, attempt: int)
    requires p.Valid()
    ensures 0 <= Delay(p, attempt) <= p.maxWait
    ensures attempt >= 2 ==> Delay(p, attempt) as real <= p.initialWait as real * Pow(p.multiplier, attempt - 2)
  {
    if attempt >= 2 {
      PowPositive(p.multiplier, attempt - 2);
      assert p.initialWait as real * Pow(p.multiplier, attempt - 2) > 0.0;
    }
  }

  lemma {:induction false} PowAdds(m: real, j: nat, k: nat)
    ensures Pow(m, j + k) == Pow(m, j) * Pow(m, k) && Pow(m, 1) == m
    decreases j
  {
    if j > 0 {
      PowAdds(m, j - 1, k);
      assert Pow(m, j + k) == m * Pow(m, j - 1 + k);
      assert m * (Pow(m, j - 1) * Pow(m, k)) == m * Pow(m, j - 1) * Pow(m, k);
    }
  }

  /** The wait before attempt k > 1 is exactly the greatest whole number of nanoseconds that is at most
      MaxWait and at most InitialWait * M^(k-2); there is none before the first. */
  lemma DelayExact(p: Policy, attempt: int, wait: int)
    requires p.Valid()
    ensures attempt <= 1 ==> Delay(p, attempt) == 0
    ensures attempt >= 2 ==>
              var exact := p.initialWait as real * Pow(p.multiplier, attempt - 2);
              && Delay(p, attempt) <= p.maxWait && Delay(p, attempt) as real <= exact
              && (wait <= p.maxWait && wait as real <= exact ==> wait <= Delay(p, attempt))
  {
    DelayBounds(p, attempt);
  }

  /** Every positive setting is kept; the others become 3 attempts, 100 ms, 5 s and a factor of 2. */
  lemma PolicyHonoursConfig(c: RetryConfig)
    ensures var p := FromConfig(c);
            && p.maxAttempts == (if c.maxAttempts >= 1 then c.maxAttempts else 3)
            && p.initialWait == (if c.initialWait >= 1 then c.initialWait else 100_000_000)
            && p.maxWait == (if c.maxWait >= 1 then c.maxWait else 5_000_000_000)
            && p.multiplier == (if c.multiplier > 0.0 then c.multiplier else 2.0)
  {
  }

  /** With a multiplier of at least one, waits never shrink from one attempt to a later one. */
  lemma DelayMonotone(p: Policy, a: int, b: int)
    requires p.Valid() && p.multiplier >= 1.0 && a <= b
    ensures Delay(p, a) <= Delay(p, b)
  {
    if a <= 1 {
      DelayBounds(p, b);
    } else {
      PowMonotone(p.multiplier, a - 2, b - 2);
      ScaleUpReal(p.initialWait as real, Pow(p.multiplier, a - 2), Pow(p.multiplier, b - 2));
    }
  }

  // ------------------------------------------------------------------ the loop

  // What ctx.Err() / ctx.Done() shows at each successive look; it never goes back to nil.
  type Context = nat -> Option<GoError>

  ghost predicate Monotone(ctx: Context) {
    forall i, j :: i <= j && ctx(i).Some? ==> ctx(j).Some?
  }

  ghost predicate NeverCancelled(ctx: Context) {
    forall i :: ctx(i).None?
  }

  // fn: the effect of one attempt on the state it captures, and its error. Any adapter fits.
  type Attempt<!S> = (nat, S) -> (S, Option<GoError>)

  // The state, the returned error, the result of every call of fn, and every wait requested.
  datatype RetryRun<S> = RetryRun(state: S, err: Option<GoError>, results: seq<Option<GoError>>, waits: seq<int>)

  const BEFORE := "retry cancelled"
  const DURING := "retry backoff cancelled"

  // withRetry from the given attempt on. Looks at the context are numbered from look.
  function Run<S>(p: Policy, ctx: Context, look: nat, op: string, fn: Attempt<S>, s: S, attempt: nat): RetryRun<S>
    requires 1 <= attempt <= p.maxAttempts
    decreases p.maxAttempts - attempt
  {
    var before := ctx(look + 2 * attempt);
    if before.Some? then RetryRun(s, Some(WrapError(Canceled, op, BEFORE, before)), [], [])
    else
      var (t, e) := fn(attempt, s);
      if e.None? || ClassifyError(e.value) != Retryable || attempt == p.maxAttempts then RetryRun(t, e, [e], [])
      else
        var during := ctx(look + 2 * attempt + 1);
        if during.Some? then
          RetryRun(t, Some(WrapError(Canceled, op, DURING, during)), [e], [Delay(p, attempt + 1)])
        else
          var r := Run(p, ctx, look, op, fn, t, attempt + 1);
          r.(results := [e] + r.results, waits := [Delay(p, attempt + 1)] + r.waits)
  }

  function WithRetrySpec<S>(p: Policy, ctx: Context, look: nat, op: string, fn: Attempt<S>, s: S): RetryRun<S>
    requires p.Valid()
  {
    Run(p, ctx, look, op, fn, s, 1)
  }

  ghost function Prepend<S>(results: seq<Option<GoError>>, waits: seq<int>, r: RetryRun<S>): RetryRun<S> {
    RetryRun(r.state, r.err, results + r.results, waits + r.waits)
  }

  lemma PrependSnoc<S>(results: seq<Option<GoError>>, e: Option<GoError>, waits: seq<int>, w: int, r: RetryRun<S>)
    ensures Prepend(results + [e], waits + [w], r) == Prepend(results, waits, Prepend([e], [w], r))
  {
    assert results + [e] + r.results == results + ([e] + r.results);
    assert waits + [w] + r.waits == waits + ([w] + r.waits);
  }

  /** The loop of withRetry, with lastErr and the attempt counter as the code has them. */
  method WithRetry<S>(p: Policy, ctx: Context, look: nat, op: string, fn: Attempt<S>, s: S)
    returns (state: S, err: Option<GoError>, waits: seq<int>)
    requires p.Valid()
    ensures var run := WithRetrySpec(p, ctx, look, op, fn, s);
            state == run.state && err == run.err && waits == run.waits
  {
    hide ClassifyError, Delay;
    state, waits := s, [];
    ghost var run := WithRetrySpec(p, ctx, look, op, fn, s);
    var lastErr: Option<GoError> := None;
    ghost var results: seq<Option<GoError>> := [];
    var attempt := 1;
    while attempt <= p.maxAttempts
      invariant 1 <= attempt <= p.maxAttempts
      invariant run == Prepend(results, waits, Run(p, ctx, look, op, fn, state, attempt))
      decreases p.maxAttempts - attempt
    {
      var cause := ctx(look + 2 * attempt);
      if cause.Some? {
        err := Some(WrapError(Canceled, op, BEFORE, cause));
        return;
      }
      var result := fn(attempt, state);
      state, err := result.0, result.1;
      if err.None? {
        return;
      }
      lastErr := err;
      match ClassifyError(err.value) {
        case Fatal => return;
        case NonRetryable => return;
        case Retryable =>
      }
      if attempt == p.maxAttempts {
        break;
      }
      var wait := Delay(p, attempt + 1);
      PrependSnoc(results, err, waits, wait, Run(p, ctx, look, op, fn, state, attempt + 1));
      waits, results := waits + [wait], results + [err];
      var done := ctx(look + 2 * attempt + 1);
      if done.Some? {
        err := Some(WrapError(Canceled, op, DURING, done));
        return;
      }
      attempt := attempt + 1;
    }
    err := lastErr;
  }

  // ------------------------------------------------------------------ the law of the loop

  // The state after k calls of fn, the first of them numbered attempt.
  function After<S>(fn: Attempt<S>, s: S, attempt: nat, k: nat): S
    decreases k
  {
    if k == 0 then s else After(fn, fn(attempt, s).0, attempt + 1, k - 1)
  }

  lemma {:induction false} AfterLast<S>(fn: Attempt<S>, s: S, attempt: nat, k: nat)
    requires k >= 1
    ensures After(fn, s, attempt, k) == fn(attempt + k - 1, After(fn, s, attempt, k - 1)).0
    decreases k
  {
    if k > 1 {
      AfterLast(fn, fn(attempt, s).0, attempt + 1, k - 1);
      assert attempt + 1 + (k - 1) - 1 == attempt + k - 1;
    }
  }

  // The error of the n-th call of fn when fn is called again and again, counted from 1.
  ghost function CallError<S>(fn: Attempt<S>, s: S, n: nat): Option<GoError>
    requires n >= 1
  {
    fn(n, After(fn, s, 1, n - 1)).1
  }

  predicate RetryableFailure(e: Option<GoError>) {
    e.Some? && ClassifyError(e.value) == Retryable
  }

  predicate CancelledBy(op: string, e: Option<GoError>) {
    e.Some? && e.value.Typed? && e.value.kind == Canceled && !e.value.retryable
    && e.value.op == op && e.value.message in {BEFORE, DURING}
  }

  ghost predicate Exhausted(p: Policy, results: seq<Option<GoError>>) {
    |results| == p.maxAttempts && forall i :: 0 <= i < |results| ==> RetryableFailure(results[i])
  }

  // The look at the context before call number k, and the look during the backoff before it.
  function Before(ctx: Context, look: nat, k: nat): Option<GoError> {
    ctx(look + 2 * k)
  }

  function During(ctx: Context, look: nat, k: nat): Option<GoError>
    requires k >= 1
  {
    ctx(look + 2 * k - 1)
  }

  /** The context was live before each of the n calls from attempt on and during the backoff before each but
      the first. */
  ghost predicate LiveFor(ctx: Context, look: nat, attempt: nat, n: nat)
    requires attempt >= 1
  {
    && (forall k :: attempt <= k < attempt + n ==> Before(ctx, look, k).None?)
    && (forall k :: attempt < k < attempt + n ==> During(ctx, look, k).None?)
  }

  // The last call settled the run.
  ghost predicate Settled<S>(p: Policy, attempt: nat, r: RetryRun<S>) {
    var n := |r.results|;
    n > 0 && r.err == r.results[n - 1] && |r.waits| == n - 1
    && (!RetryableFailure(r.err) || n == p.maxAttempts - attempt + 1)
  }

  // The context stopped the run where it would have gone on, during the backoff or at the look after it.
  ghost predicate Stopped<S>(p: Policy, ctx: Context, look: nat, op: string, attempt: nat, r: RetryRun<S>)
    requires attempt >= 1
  {
    var n := |r.results|;
    var before, during := Before(ctx, look, attempt + n), During(ctx, look, attempt + n);
    && n < p.maxAttempts - attempt + 1 && |r.waits| == n
    && (n > 0 ==> RetryableFailure(r.results[n - 1]))
    && if n > 0 && during.Some? then r.err == Some(WrapError(Canceled, op, DURING, during))
       else before.Some? && r.err == Some(WrapError(Canceled, op, BEFORE, before))
  }

  /** Everything that can be seen of a run, without the order of its branches. */
  ghost predicate Lawful<S>(p: Policy, ctx: Context, look: nat, op: string, fn: Attempt<S>, s: S, attempt: nat, r: RetryRun<S>)
    requires attempt >= 1
  {
    var n := |r.results|;
    // fn ran at most up to MaxAttempts, each call under a live context on the state that the previous one left
    && n <= p.maxAttempts - attempt + 1
    && LiveFor(ctx, look, attempt, n)
    && r.state == After(fn, s, attempt, n)
    && (forall i :: 0 <= i < n ==> r.results[i] == fn(attempt + i, After(fn, s, attempt, i)).1)
    // it went on only after retryable failures, and waited the backoff each time
    && (forall i :: 0 <= i < n - 1 ==> RetryableFailure(r.results[i]))
    && BackoffsFrom(p, r.waits, attempt)
    // it ended with its last call, or with its context
    && (Settled(p, attempt, r) || Stopped(p, ctx, look, op, attempt, r))
  }

  // One more retryable failure in front of a lawful rest.
  lemma LawfulCons<S>(p: Policy, ctx: Context, look: nat, op: string, fn: Attempt<S>, s: S, attempt: nat, q: RetryRun<S>)
    requires 1 <= attempt < p.maxAttempts
    requires RetryableFailure(fn(attempt, s).1)
    requires Before(ctx, look, attempt).None? && During(ctx, look, attempt + 1).None?
    requires Lawful(p, ctx, look, op, fn, fn(attempt, s).0, attempt + 1, q)
    ensures Lawful(p, ctx, look, op, fn, s, attempt,
                   q.(results := [fn(attempt, s).1] + q.results, waits := [Delay(p, attempt + 1)] + q.waits))
  {
    hide Delay, ClassifyError, Before, During;
    var (t, e) := fn(attempt, s);
    var results, waits := [e] + q.results, [Delay(p, attempt + 1)] + q.waits;
    forall i | 0 <= i < |results|
      ensures results[i] == fn(attempt + i, After(fn, s, attempt, i)).1
      ensures i < |results| - 1 ==> RetryableFailure(results[i])
    {
      if i > 0 {
        assert results[i] == q.results[i - 1];
        assert After(fn, s, attempt, i) == After(fn, t, attempt + 1, i - 1);
        assert attempt + i == attempt + 1 + (i - 1);
      }
    }
    forall i | 0 <= i < |waits| ensures waits[i] == Delay(p, attempt + i + 1) {
      if i > 0 {
        assert waits[i] == q.waits[i - 1];
        assert attempt + i + 1 == attempt + 1 + (i - 1) + 1;
      }
    }
    assert attempt + 1 + |q.results| == attempt + |results|;
    assert q.results != [] ==> results[|results| - 1] == q.results[|q.results| - 1];
  }

  lemma {:induction false} RunLawful<S>(p: Policy, ctx: Context, look: nat, op: string, fn: Attempt<S>, s: S, attempt: nat)
    requires 1 <= attempt <= p.maxAttempts
    ensures Lawful(p, ctx, look, op, fn, s, attempt, Run(p, ctx, look, op, fn, s, attempt))
    decreases p.maxAttempts - attempt
  {
    hide ClassifyError, Delay;
    var (t, e) := fn(attempt, s);
    if ctx(look + 2 * attempt).None? && RetryableFailure(e) && attempt < p.maxAttempts
       && ctx(look + 2 * attempt + 1).None? {
      RunLawful(p, ctx, look, op, fn, t, attempt + 1);
      LawfulCons(p, ctx, look, op, fn, s, attempt, Run(p, ctx, look, op, fn, t, attempt + 1));
    }
  }

  lemma SameLength<S>(p: Policy, ctx: Context, look: nat, op: string, fn: Attempt<S>, s: S, attempt: nat, r: RetryRun<S>, q: RetryRun<S>)
    requires attempt >= 1 && Lawful(p, ctx, look, op, fn, s, attempt, r) && Lawful(p, ctx, look, op, fn, s, attempt, q)
    ensures |r.results| >= |q.results|
  {
    hide ClassifyError, Delay, Before, During;
    var n := |r.results|;
    assert forall i :: 0 <= i < n && i < |q.results| ==> r.results[i] == q.results[i];
    var k := attempt + n;
    var before, during := Before(ctx, look, k), During(ctx, look, k);
    assert n < |q.results| ==> before.None?;
    assert 0 < n < |q.results| ==> during.None?;
  }

  lemma LawfulUnique<S>(p: Policy, ctx: Context, look: nat, op: string, fn: Attempt<S>, s: S, attempt: nat, r: RetryRun<S>, q: RetryRun<S>)
    requires attempt >= 1 && Lawful(p, ctx, look, op, fn, s, attempt, r) && Lawful(p, ctx, look, op, fn, s, attempt, q)
    ensures r == q
  {
    hide ClassifyError, Delay, Before, During;
    SameLength(p, ctx, look, op, fn, s, attempt, r, q);
    SameLength(p, ctx, look, op, fn, s, attempt, q, r);
    assert r.results == q.results;
    assert |r.waits| == |q.waits| && r.err == q.err;
    assert r.waits == q.waits;
  }

  /** For every adapter, every context and every policy, a run of withRetry is exactly what the law allows:
      nothing else is lawful. So fn is never called once a look at the context, before a call or during a
      backoff, has shown an error, and "retry cancelled" and "retry backoff cancelled" carry that error. */
  lemma RetryLawExact<S>(p: Policy, ctx: Context, look: nat, op: string, fn: Attempt<S>, s: S, r: RetryRun<S>)
    requires p.Valid()
    ensures Lawful(p, ctx, look, op, fn, s, 1, r) <==> r == WithRetrySpec(p, ctx, look, op, fn, s)
  {
    RunLawful(p, ctx, look, op, fn, s, 1);
    if Lawful(p, ctx, look, op, fn, s, 1, r) {
      LawfulUnique(p, ctx, look, op, fn, s, 1, r, WithRetrySpec(p, ctx, look, op, fn, s));
    }
  }

  /** At most MaxAttempts calls, all but the last failed retryably; nil exactly when the last call succeeded,
      otherwise its error or the cancellation. */
  lemma RetryLaw<S>(p: Policy, ctx: Context, look: nat, op: string, fn: Attempt<S>, s: S)
    requires p.Valid()
    ensures var r := WithRetrySpec(p, ctx, look, op, fn, s);
            var n := |r.results|;
            && Lawful(p, ctx, look, op, fn, s, 1, r)
            && |r.waits| <= p.maxAttempts - 1
            && (r.err.None? <==> n > 0 && r.results[n - 1].None?)
            && (r.err.Some? ==> (n < p.maxAttempts && CancelledBy(op, r.err))
                                || (n > 0 && r.err == r.results[n - 1] && (!RetryableFailure(r.err) || n == p.maxAttempts)))
            && (NeverCancelled(ctx) ==> n > 0 && r.err == r.results[n - 1])
  {
    hide ClassifyError, Delay;
    RunLawful(p, ctx, look, op, fn, s, 1);
  }

  // One attempt of a run that is not cancelled.
  lemma RunStep<S>(p: Policy, ctx: Context, look: nat, op: string, fn: Attempt<S>, s: S, attempt: nat)
    requires 1 <= attempt <= p.maxAttempts && NeverCancelled(ctx)
    ensures var (t, e) := fn(attempt, s);
            var r := Run(p, ctx, look, op, fn, s, attempt);
            if RetryableFailure(e) && attempt < p.maxAttempts
            then var q := Run(p, ctx, look, op, fn, t, attempt + 1); r.state == q.state && r.err == q.err
            else r.state == t && r.err == e
  {
    assert ctx(look + 2 * attempt).None? && ctx(look + 2 * attempt + 1).None?;
    var (t, e) := fn(attempt, s);
    if !(RetryableFailure(e) && attempt < p.maxAttempts) {
      assert e.None? || ClassifyError(e.value) != Retryable || attempt == p.maxAttempts;
      assert Run(p, ctx, look, op, fn, s, attempt) == RetryRun(t, e, [e], []);
    }
  }

  // ------------------------------------------------------------------ total backoff

  function Sum(waits: seq<int>): int {
    if waits == [] then 0 else waits[0] + Sum(waits[1..])
  }

  // first*M^from + first*M^(from+1) + ..., so many terms.
  function Geometric(first: real, m: real, from: nat, terms: nat): real
    decreases terms
  {
    if terms == 0 then 0.0 else first * Pow(m, from) + Geometric(first, m, from + 1, terms - 1)
  }

  // The waits of a run whose first wait comes before the given attempt + 1.
  ghost predicate BackoffsFrom(p: Policy, waits: seq<int>, attempt: nat) {
    forall i :: 0 <= i < |waits| ==> waits[i] == Delay(p, attempt + i + 1)
  }

  lemma BackoffsTail(p: Policy, waits: seq<int>, attempt: nat)
    requires waits != [] && BackoffsFrom(p, waits, attempt)
    ensures waits[0] == Delay(p, attempt + 1) && BackoffsFrom(p, waits[1..], attempt + 1)
  {
    assert waits[0] == Delay(p, attempt + 0 + 1);
    forall i | 0 <= i < |waits[1..]| ensures waits[1..][i] == Delay(p, attempt + 1 + i + 1) {
      assert waits[1..][i] == waits[i + 1];
      assert attempt + (i + 1) + 1 == attempt + 1 + i + 1;
    }
  }

  lemma {:induction false} TotalAtMostMax(p: Policy, waits: seq<int>, attempt: nat)
    requires p.Valid() && BackoffsFrom(p, waits, attempt)
    ensures Sum(waits) <= |waits| * p.maxWait
    decreases |waits|
  {
    if waits != [] {
      BackoffsTail(p, waits, attempt);
      DelayBounds(p, attempt + 1);
      TotalAtMostMax(p, waits[1..], attempt + 1);
      assert |waits| * p.maxWait == p.maxWait + (|waits| - 1) * p.maxWait;
    }
  }

  lemma {:induction false} TotalAtMostGeometric(p: Policy, waits: seq<int>, attempt: nat)
    requires p.Valid() && attempt >= 1 && BackoffsFrom(p, waits, attempt)
    ensures Sum(waits) as real <= Geometric(p.initialWait as real, p.multiplier, attempt - 1, |waits|)
    decreases |waits|
  {
    if waits != [] {
      BackoffsTail(p, waits, attempt);
      DelayBounds(p, attempt + 1);
      TotalAtMostGeometric(p, waits[1..], attempt + 1);
    }
  }

  lemma {:induction false} GeometricGrows(first: real, m: real, from: nat, terms: nat, more: nat)
    requires first > 0.0 && m > 0.0 && terms <= more
    ensures Geometric(first, m, from, terms) <= Geometric(first, m, from, more)
    decreases more
  {
    if more > 0 {
      PowPositive(m, from);
      assert first * Pow(m, from) > 0.0;
      GeometricGrows(first, m, from + 1, if terms == 0 then 0 else terms - 1, more - 1);
    }
  }

  /** The waits that one run requests: each at most MaxWait, never shrinking for a multiplier of at
      least one, and in total at most (MaxAttempts-1)*MaxWait and at most the geometric sum
      InitialWait*(1 + M + ... + M^(MaxAttempts-2)). */
  lemma BackoffBound<S>(p: Policy, ctx: Context, look: nat, op: string, fn: Attempt<S>, s: S)
    requires p.Valid()
    ensures var waits := WithRetrySpec(p, ctx, look, op, fn, s).waits;
            && (forall i :: 0 <= i < |waits| ==> 0 <= waits[i] <= p.maxWait)
            && (p.multiplier >= 1.0 ==> forall i, j :: 0 <= i <= j < |waits| ==> waits[i] <= waits[j])
            && Sum(waits) <= (p.maxAttempts - 1) * p.maxWait
            && Sum(waits) as real <= Geometric(p.initialWait as real, p.multiplier, 0, p.maxAttempts - 1)
  {
    RetryLaw(p, ctx, look, op, fn, s);
    var waits := WithRetrySpec(p, ctx, look, op, fn, s).waits;
    EachWaitBounded(p, waits);
    if p.multiplier >= 1.0 { WaitsNeverShrink(p, waits); }
    TotalWaitBounded(p, waits);
    TotalWaitGeometric(p, waits);
  }

  ghost predicate Backoffs(p: Policy, waits: seq<int>) {
    |waits| <= p.maxAttempts - 1 && BackoffsFrom(p, waits, 1)
  }

  lemma EachWaitBounded(p: Policy, waits: seq<int>)
    requires p.Valid() && Backoffs(p, waits)
    ensures forall i :: 0 <= i < |waits| ==> 0 <= waits[i] <= p.maxWait
  {
    forall i | 0 <= i < |waits| ensures 0 <= waits[i] <= p.maxWait {
      DelayBounds(p, i + 2);
    }
  }

  lemma WaitsNeverShrink(p: Policy, waits: seq<int>)
    requires p.Valid() && Backoffs(p, waits) && p.multiplier >= 1.0
    ensures forall i, j :: 0 <= i <= j < |waits| ==> waits[i] <= waits[j]
  {
    forall i, j | 0 <= i <= j < |waits| ensures waits[i] <= waits[j] {
      DelayMonotone(p, i + 2, j + 2);
    }
  }

  lemma TotalWaitBounded(p: Policy, waits: seq<int>)
    requires p.Valid() && Backoffs(p, waits)
    ensures Sum(waits) <= (p.maxAttempts - 1) * p.maxWait
  {
    TotalAtMostMax(p, waits, 1);
    ScaleUp(p.maxWait, |waits|, p.maxAttempts - 1);
  }

  lemma TotalWaitGeometric(p: Policy, waits: seq<int>)
    requires p.Valid() && Backoffs(p, waits)
    ensures Sum(waits) as real <= Geometric(p.initialWait as real, p.multiplier, 0, p.maxAttempts - 1)
  {
    TotalAtMostGeometric(p, waits, 1);
    GeometricGrows(p.initialWait as real, p.multiplier, 0, |waits|, p.maxAttempts - 1);
  }

  lemma ScaleUp(c: int, a: int, b: int)
    requires c >= 0 && a <= b
    ensures a * c <= b * c
  {
    assert (b - a) * c >= 0;
  }

  lemma ScaleUpReal(c: real, a: real, b: real)
    requires c >= 0.0 && a <= b
    ensures c * a <= c * b
  {
    assert c * (b - a) >= 0.0;
  }
}
