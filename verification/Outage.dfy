/** The load that an outage puts on a provider: how many adapter calls retry and breaker let through. */
module Outage {
  import opened Wrappers
  import opened Arith
  import opened Errors
  import opened Retry
  import opened Breaker

  // One call of an operation: what its context shows, and the clock at its two breaker steps.
  datatype Call = Call(ctx: Context, look: nat, admitAt: int, recordAt: int)

  datatype Entry = Entry(at: int, adapterCalls: nat)

  /** Calls one after another: each starts after the previous one has recorded its result. */
  ghost predicate Sequential(calls: seq<Call>) {
    && (forall i :: 0 <= i < |calls| ==> calls[i].admitAt <= calls[i].recordAt)
    && (forall i, j :: 0 <= i < j < |calls| ==> calls[i].recordAt <= calls[j].admitAt)
  }

  // An outage: every attempt on any state fails with a retryable kind and a flag that matches it.
  ghost predicate AlwaysDown<S(!new)>(fn: Attempt<S>) {
    forall i: nat, s: S :: RetryableFailure(fn(i, s).1) && FlagConsistent(fn(i, s).1.value)
  }

  // When each call started and how often it reached the adapter.
  function Log<S>(b: Breaker.State, p: Policy, op: string, fn: Attempt<S>, s: S, calls: seq<Call>): (log: seq<Entry>)
    requires p.Valid()
    ensures |log| == |calls|
    decreases |calls|
  {
    if calls == [] then []
    else
      var c := calls[0];
      var r := DoSpec(b, p, c.ctx, c.look, op, fn, s, c.admitAt, c.recordAt);
      [Entry(c.admitAt, if r.run.None? then 0 else |r.run.value.results|)]
      + Log(r.breaker, p, op, fn, r.state, calls[1..])
  }

  // Adapter calls made by the calls that started within [lo, hi].
  function CallsWithin(log: seq<Entry>, lo: int, hi: int): nat
    decreases |log|
  {
    if log == [] then 0
    else (if lo <= log[0].at <= hi then log[0].adapterCalls else 0) + CallsWithin(log[1..], lo, hi)
  }

  /** During an outage an admitted call exhausts its attempts and records a failure. */
  lemma OutageCall<S(!new)>(b: Breaker.State, p: Policy, op: string, fn: Attempt<S>, s: S, c: Call)
    requires p.Valid() && AlwaysDown(fn) && NeverCancelled(c.ctx)
    ensures var r := DoSpec(b, p, c.ctx, c.look, op, fn, s, c.admitAt, c.recordAt);
            if Admits(b, c.admitAt)
            then r.run.Some? && |r.run.value.results| == p.maxAttempts
                 && r.breaker == AfterFailure(AfterAllow(b, c.admitAt), c.recordAt)
            else r.run.None? && r.breaker == b
  {
    if Admits(b, c.admitAt) {
      RetryLaw(p, c.ctx, c.look, op, fn, s);
      FailureCountedIff(p, c.ctx, c.look, op, fn, s);
      var r := WithRetrySpec(p, c.ctx, c.look, op, fn, s);
      var n := |r.results|;
      assert r.results[n - 1] == fn(1 + (n - 1), After(fn, s, 1, n - 1)).1;
    }
  }

  // How many further calls may still be admitted within [lo, hi].
  function Budget(b: Breaker.State, lo: int, hi: int): nat
    requires b.Valid()
  {
    if hi < lo then 0
    else if b.failures < b.threshold then b.threshold - b.failures + Cooldowns(hi - lo, b.cooldown)
    else
      var start := if b.openedAt + b.cooldown > lo then b.openedAt + b.cooldown else lo;
      if start <= hi then 1 + Cooldowns(hi - start, b.cooldown) else 0
  }

  // The number of whole cooldowns in a span, by counting.
  function Cooldowns(span: int, cooldown: int): nat
    requires cooldown >= 1
    decreases span
  {
    if span < cooldown then 0 else 1 + Cooldowns(span - cooldown, cooldown)
  }

  lemma {:induction false} CooldownsMonotone(x: int, y: int, c: int)
    requires c >= 1 && x <= y
    ensures Cooldowns(x, c) <= Cooldowns(y, c)
    decreases y
  {
    if x >= c { CooldownsMonotone(x - c, y - c, c); }
  }

  lemma {:induction false} CooldownsIsDivision(span: int, c: int)
    requires c >= 1 && span >= 0
    ensures Cooldowns(span, c) == span / c
    decreases span
  {
    if span >= c {
      CooldownsIsDivision(span - c, c);
      var q, r := (span - c) / c, (span - c) % c;
      assert span == (q + 1) * c + r;
      QuotientOf(span, c, q + 1, r);
    } else {
      QuotientOf(span, c, 0, span);
    }
  }

  /** One admitted call uses up at least one unit of budget if it started inside the window. */
  lemma BudgetStep(b: Breaker.State, admitAt: int, recordAt: int, lo: int, hi: int)
    requires b.Valid() && admitAt <= recordAt && Admits(b, admitAt)
    requires b.mode == (if b.failures < b.threshold then Mode.Closed else Open)
    ensures var c := AfterFailure(AfterAllow(b, admitAt), recordAt);
            c.Valid() && c.mode == (if c.failures < c.threshold then Mode.Closed else Open)
            && (if lo <= admitAt <= hi then 1 else 0) + Budget(c, lo, hi) <= Budget(b, lo, hi)
  {
    var c := AfterFailure(AfterAllow(b, admitAt), recordAt);
    if lo <= hi && c.failures >= c.threshold {
      var start' := if recordAt + b.cooldown > lo then recordAt + b.cooldown else lo;
      var start := if b.failures < b.threshold then lo
                   else if b.openedAt + b.cooldown > lo then b.openedAt + b.cooldown else lo;
      if start' <= hi && lo <= admitAt {
        CooldownsMonotone(hi - start', hi - start - b.cooldown, b.cooldown);
      } else if start' <= hi {
        CooldownsMonotone(hi - start', hi - start, b.cooldown);
      }
    }
  }

  // Calls that started within [lo, hi] and were not refused.
  function AdmittedWithin(log: seq<Entry>, lo: int, hi: int): nat
    decreases |log|
  {
    if log == [] then 0
    else (if lo <= log[0].at <= hi && log[0].adapterCalls > 0 then 1 else 0) + AdmittedWithin(log[1..], lo, hi)
  }

  lemma {:induction false} AdmittedWithinBudget<S(!new)>(b: Breaker.State, p: Policy, op: string, fn: Attempt<S>, s: S,
                                                         calls: seq<Call>, lo: int, hi: int)
    requires p.Valid() && AlwaysDown(fn) && Sequential(calls)
    requires forall i :: 0 <= i < |calls| ==> NeverCancelled(calls[i].ctx)
    requires b.Valid() && b.mode == (if b.failures < b.threshold then Mode.Closed else Open)
    ensures var log := Log(b, p, op, fn, s, calls);
            && AdmittedWithin(log, lo, hi) <= Budget(b, lo, hi)
            && forall i :: 0 <= i < |log| ==> log[i].adapterCalls in {0, p.maxAttempts}
    decreases |calls|
  {
    if calls != [] {
      var c := calls[0];
      var r := DoSpec(b, p, c.ctx, c.look, op, fn, s, c.admitAt, c.recordAt);
      OutageCall(b, p, op, fn, s, c);
      if Admits(b, c.admitAt) {
        BudgetStep(b, c.admitAt, c.recordAt, lo, hi);
      }
      AdmittedWithinBudget(r.breaker, p, op, fn, r.state, calls[1..], lo, hi);
      var log, rest := Log(b, p, op, fn, s, calls), Log(r.breaker, p, op, fn, r.state, calls[1..]);
      assert log[1..] == rest;
      forall i | 0 <= i < |log| ensures log[i].adapterCalls in {0, p.maxAttempts} {
        if i > 0 { assert log[i] == rest[i - 1]; }
      }
    }
  }

  lemma {:induction false} CallsAreAttempts(log: seq<Entry>, m: nat, lo: int, hi: int)
    requires forall i :: 0 <= i < |log| ==> log[i].adapterCalls in {0, m}
    ensures CallsWithin(log, lo, hi) <= m * AdmittedWithin(log, lo, hi)
    decreases |log|
  {
    if log != [] {
      CallsAreAttempts(log[1..], m, lo, hi);
      var n := AdmittedWithin(log[1..], lo, hi);
      assert m * (1 + n) == m + m * n;
    }
  }

  /** For one operation called sequentially on a fresh breaker through an outage, the adapter calls
      made by the calls that start within any window of length width number at most
      MaxAttempts * (threshold + floor(width / cooldown)). */
  lemma OutageLoadBound<S(!new)>(threshold: int, cooldown: int, p: Policy, op: string, fn: Attempt<S>, s: S,
                                 calls: seq<Call>, from: int, width: nat)
    requires p.Valid() && AlwaysDown(fn) && Sequential(calls)
    requires forall i :: 0 <= i < |calls| ==> NeverCancelled(calls[i].ctx)
    ensures CallsWithin(Log(New(threshold, cooldown), p, op, fn, s, calls), from, from + width)
            <= p.maxAttempts * (Threshold(threshold) + width / Cooldown(cooldown))
  {
    var b := New(threshold, cooldown);
    AdmittedWithinBudget(b, p, op, fn, s, calls, from, from + width);
    CooldownsIsDivision(width, b.cooldown);
    var log := Log(b, p, op, fn, s, calls);
    CallsAreAttempts(log, p.maxAttempts, from, from + width);
    ScaleLeft(p.maxAttempts, AdmittedWithin(log, from, from + width), b.threshold + width / b.cooldown);
  }

  lemma ScaleLeft(m: nat, a: int, b: int)
    requires a <= b
    ensures m * a <= m * b
  {
    assert m * (b - a) >= 0;
  }
}
