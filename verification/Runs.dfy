/** What Store.run does with the closure of an operation (pkg/ossx/blobstore.go, pkg/ossx/retry.go), without
    the breaker and the loop around it. */
module Runs {
  import opened Wrappers
  import opened Errors
  import opened Config
  import Breaker
  import Retry
  import Spec = StoreSpec

  /** What a run through breaker and retry does: at most MaxAttempts calls of fn in a row, all failing retryably
      but perhaps the last. The result is that of the last call, or an error of its own, which is not about a
      missing object: the circuit is open, or the context stopped what would have gone on. */
  ghost predicate Shape<R>(cfg: Config, fn: Spec.Closure<R>, c: Spec.Captured<R>, r: Spec.RunResult<R>, n: nat) {
    && r.captured == Retry.After(fn, c, 1, n) && n <= Retry.FromConfig(cfg.retry).maxAttempts
    && (forall i :: 1 <= i < n ==> Retry.RetryableFailure(Retry.CallError(fn, c, i)))
    && (n == 0 || r.err != Retry.CallError(fn, c, n) ==> OwnError(r.err))
    && (n >= 1 && r.err != Retry.CallError(fn, c, n) ==> Retry.RetryableFailure(Retry.CallError(fn, c, n)))
  }

  ghost predicate OwnError(e: Option<GoError>) {
    e.Some? && !Spec.IsNotFound(e.value)
  }

  lemma RunShape<R>(cfg: Config, breakers: map<string, Breaker.State>, op: string, env: Spec.Env, look: nat,
                    fn: Spec.Closure<R>, c: Spec.Captured<R>) returns (n: nat)
    ensures Shape(cfg, fn, c, Spec.RunOp(cfg, breakers, op, env, look, fn, c), n)
    ensures Retry.NeverCancelled(env.ctx) && Breaker.Admits(Spec.BreakerFor(cfg, breakers, op), env.clock(look)) ==>
              var err := Spec.RunOp(cfg, breakers, op, env, look, fn, c).err;
              n >= 1 && err == Retry.CallError(fn, c, n) && (Retry.RetryableFailure(err) ==> n == Retry.FromConfig(cfg.retry).maxAttempts)
  {
    var p, b := Retry.FromConfig(cfg.retry), Spec.BreakerFor(cfg, breakers, op);
    n := 0;
    if Breaker.Admits(b, env.clock(look)) {
      var r := Retry.WithRetrySpec(p, env.ctx, look, op, fn, c);
      Retry.RetryLaw(p, env.ctx, look, op, fn, c);
      n := |r.results|;
      forall i | 1 <= i <= n ensures Retry.CallError(fn, c, i) == r.results[i - 1] {
        assert 1 + (i - 1) == i;
      }
      hide Retry.WithRetrySpec;
    }
  }

  /** With a live context and an admitting breaker, a first call that succeeds or fails for good is the run. */
  lemma FirstCall<R>(cfg: Config, breakers: map<string, Breaker.State>, op: string, env: Spec.Env, look: nat,
                     fn: Spec.Closure<R>, c: Spec.Captured<R>)
    requires Retry.NeverCancelled(env.ctx) && Breaker.Admits(Spec.BreakerFor(cfg, breakers, op), env.clock(look))
    requires !Retry.RetryableFailure(fn(1, c).1)
    ensures var r := Spec.RunOp(cfg, breakers, op, env, look, fn, c);
            r.captured == fn(1, c).0 && r.err == fn(1, c).1
  {
    Retry.RunStep(Retry.FromConfig(cfg.retry), env.ctx, look, op, fn, c, 1);
  }

  // ------------------------------------------------------------------ an outage seen by the store

  // One run of an operation: its environment, closure and captured variables.
  datatype Trial<!R> = Trial(env: Spec.Env, look: nat, fn: Spec.Closure<R>, c: Spec.Captured<R>)

  function After<R>(cfg: Config, op: string, trials: seq<Trial<R>>): map<string, Breaker.State> {
    if trials == [] then map[]
    else
      var before, t := After(cfg, op, trials[..|trials| - 1]), trials[|trials| - 1];
      Spec.RunOp(cfg, before, op, t.env, t.look, t.fn, t.c).breakers
  }

  // When the run records its result.
  function RecordAt<R>(cfg: Config, t: Trial<R>): int {
    t.env.clock(t.look + Retry.FromConfig(cfg.retry).maxAttempts + 1)
  }

  // The breaker lets the run through, and all its attempts fail with retryable errors.
  ghost predicate Exhausts<R>(cfg: Config, breakers: map<string, Breaker.State>, op: string, t: Trial<R>) {
    var d := Spec.DoWith(cfg, Spec.BreakerFor(cfg, breakers, op), op, t.env, t.look, t.fn, t.c);
    && d.run.Some? && Retry.Exhausted(Retry.FromConfig(cfg.retry), d.run.value.results)
    && d.err.Some? && IsRetryable(d.err.value)
  }

  ghost predicate AllExhaust<R>(cfg: Config, op: string, trials: seq<Trial<R>>) {
    forall i :: 0 <= i < |trials| ==> Exhausts(cfg, After(cfg, op, trials[..i]), op, trials[i])
  }

  lemma ExhaustedStep<R>(cfg: Config, breakers: map<string, Breaker.State>, op: string, t: Trial<R>)
    requires Exhausts(cfg, breakers, op, t)
    ensures Spec.BreakerFor(cfg, Spec.RunOp(cfg, breakers, op, t.env, t.look, t.fn, t.c).breakers, op)
            == Breaker.AfterFailure(Breaker.AfterAllow(Spec.BreakerFor(cfg, breakers, op), t.env.clock(t.look)), RecordAt(cfg, t))
  {
    hide Retry.WithRetrySpec, Retry.Exhausted, Retry.FromConfig;
  }

  // The breaker of op after the outage so far.
  ghost predicate Counted<R>(cfg: Config, op: string, trials: seq<Trial<R>>, b: Breaker.State) {
    && b.threshold == Breaker.Threshold(cfg.retry.circuitThreshold) && b.cooldown == Breaker.Cooldown(cfg.retry.circuitCooldown)
    && b.failures == |trials|
    && b.mode == (if |trials| < b.threshold then Breaker.Mode.Closed else Breaker.Open)
    && (|trials| >= b.threshold ==> trials != [] && b.openedAt == RecordAt(cfg, trials[|trials| - 1]))
  }

  lemma CountedStep<R>(cfg: Config, op: string, trials: seq<Trial<R>>, t: Trial<R>, b: Breaker.State, now: int)
    requires Counted(cfg, op, trials, b)
    ensures Counted(cfg, op, trials + [t], Breaker.AfterFailure(Breaker.AfterAllow(b, now), RecordAt(cfg, t)))
  {
    hide RecordAt;
  }

  lemma {:induction false} AfterOutage<R>(cfg: Config, op: string, trials: seq<Trial<R>>)
    requires AllExhaust(cfg, op, trials)
    ensures Counted(cfg, op, trials, Spec.BreakerFor(cfg, After(cfg, op, trials), op))
    decreases |trials|
  {
    hide Exhausts, Spec.RunOp, RecordAt, Breaker.AfterFailure, Breaker.AfterAllow;
    if trials != [] {
      hide Counted, Spec.BreakerFor;
      var n := |trials| - 1;
      assert forall i :: 0 <= i < n ==> trials[..n][..i] == trials[..i];
      AfterOutage(cfg, op, trials[..n]);
      var before, t := After(cfg, op, trials[..n]), trials[n];
      ExhaustedStep(cfg, before, op, t);
      CountedStep(cfg, op, trials[..n], t, Spec.BreakerFor(cfg, before, op), t.env.clock(t.look));
      assert trials == trials[..n] + [t];
    }
  }

  /** On a fresh store, after so many exhausted runs of one operation, a call within the configured cooldown of
      the last of them is admitted if and only if they are fewer than the configured threshold. */
  lemma TripsAtThreshold<R>(cfg: Config, op: string, trials: seq<Trial<R>>, now: int)
    requires AllExhaust(cfg, op, trials)
    requires trials != [] ==> now - RecordAt(cfg, trials[|trials| - 1]) < Breaker.Cooldown(cfg.retry.circuitCooldown)
    ensures Breaker.Admits(Spec.BreakerFor(cfg, After(cfg, op, trials), op), now)
            <==> |trials| < Breaker.Threshold(cfg.retry.circuitThreshold)
  {
    AfterOutage(cfg, op, trials);
  }
}
