/** Every sequential run of the store, as StoreSpec and Invariants define it, is a run of the interleaving
    system of Concurrent, with the same answers. */
module Sequential {
  import opened Wrappers
  import opened Errors
  import opened Keys
  import opened Config
  import opened Memory
  import opened Accesses
  import opened Digests
  import opened Text
  import opened Concurrent
  import opened Runs
  import Breaker
  import Invariants
  import Parts
  import Retry
  import Spec = StoreSpec

  // ------------------------------------------------------------------ joining runs

  lemma NoSteps<A>(cfg: Config, lib: Library, adapter: Adapter<A>, s: System<A>)
    ensures var none: seq<Step<A>> := []; IsRun(cfg, lib, adapter, s, none) && Reached(s, none) == s
  {
  }

  lemma {:induction false} Concatenated<A>(cfg: Config, lib: Library, adapter: Adapter<A>, s: System<A>,
      steps: seq<Step<A>>, more: seq<Step<A>>)
    requires IsRun(cfg, lib, adapter, s, steps) && IsRun(cfg, lib, adapter, Reached(s, steps), more)
    ensures IsRun(cfg, lib, adapter, s, steps + more) && Reached(s, steps + more) == Reached(Reached(s, steps), more)
    decreases |more|
  {
    hide Enabled, Next;
    if more == [] {
      assert steps + more == steps;
    } else {
      var n := |more| - 1;
      Prefixes(cfg, lib, adapter, Reached(s, steps), more, n);
      assert more[..n + 1] == more;
      Concatenated(cfg, lib, adapter, s, steps, more[..n]);
      Extend(cfg, lib, adapter, s, steps + more[..n], more[n]);
      assert steps + more[..n] + [more[n]] == steps + more;
    }
  }

  // ------------------------------------------------------------------ the calls of one operation

  // The access that a closure makes at its i-th call, and what the operation makes of the captured result.
  datatype View<!R> = View(access: (nat, Spec.Captured<R>) -> Access, answer: (Option<R>, Option<GoError>) -> Reply)

  // The closure performs the access, which belongs to the operation.
  ghost predicate PerformsAt<R>(lib: Library, request: Request, fn: Spec.Closure<R>, view: View<R>, body: Body,
      i: nat, c: Spec.Captured<R>) {
    var a := view.access(i, c);
    Invariants.Belongs(request, a) && fn(i, c).0.mem == Perform(lib, c.mem, a) && Invariants.LeftOver(fn(i, c).0.body, body)
  }

  function OutcomeAt<R>(lib: Library, request: Request, view: View<R>, i: nat, c: Spec.Captured<R>): Option<Reply> {
    Outcome(request, view.access(i, c), ReplyTo(lib, c.mem, view.access(i, c)))
  }

  // Where the adapter's reply settles the operation, the closure stops the retry loop with that answer; where
  // it does not, the closure returns the error.
  ghost predicate AnswersAt<R>(lib: Library, request: Request, fn: Spec.Closure<R>, view: View<R>, i: nat,
      c: Spec.Captured<R>) {
    var (t, e) := fn(i, c);
    match OutcomeAt(lib, request, view, i, c)
    case Some(result) => !Retry.RetryableFailure(e) && view.answer(t.out, e) == result
    case None => e.Some? && view.answer(t.out, e) == Err(e.value)
  }

  ghost predicate Performs<R(!new)>(lib: Library, request: Request, fn: Spec.Closure<R>, view: View<R>, body: Body) {
    forall i: nat, c: Spec.Captured<R> :: Invariants.LeftOver(c.body, body) ==> PerformsAt(lib, request, fn, view, body, i, c)
  }

  ghost predicate Faithful<R(!new)>(lib: Library, request: Request, fn: Spec.Closure<R>, view: View<R>, body: Body) {
    && Performs(lib, request, fn, view, body)
    && (forall i: nat, c: Spec.Captured<R> :: Invariants.LeftOver(c.body, body) ==> AnswersAt(lib, request, fn, view, i, c))
    && (forall out: Option<R>, e: GoError :: !Spec.IsNotFound(e) ==> view.answer(out, Some(e)) == Err(e))
  }

  ghost predicate IsRunning(s: System<Memory.State>, p: nat, request: Request) {
    p < |s.procs| && s.procs[p] == Process(request, Running) && !request.Close?
  }

  // The system after process p has returned. A failing Complete clears its mark.
  ghost function Done(s: System<Memory.State>, p: nat, result: Reply): System<Memory.State>
    requires p < |s.procs|
  {
    var r := s.procs[p].request;
    System(s.closed, if r.Complete? && result.Err? then s.marks - {MarkOf(r)} else s.marks,
           s.procs[p := Process(r, Returned(result))], s.adapter, s.history)
  }

  ghost function CallAt(lib: Library, m: Memory.State, p: nat, a: Access): Step<Memory.State> {
    Call(p, a, ReplyTo(lib, m, a), Perform(lib, m, a))
  }

  lemma OneCall(cfg: Config, lib: Library, s: System<Memory.State>, p: nat, request: Request, a: Access)
    requires IsRunning(s, p, request) && Invariants.Belongs(request, a)
    ensures var call := CallAt(lib, s.adapter, p, a);
            var t := Next(s, call);
            && Enabled(cfg, lib, InMemory(lib), s, call)
            && match Outcome(request, a, ReplyTo(lib, s.adapter, a))
               case None => t == s.(adapter := Perform(lib, s.adapter, a), history := t.history)
               case Some(result) =>
                 Enabled(cfg, lib, InMemory(lib), t, Finish(p))
                 && Next(t, Finish(p)) == Done(s, p, result).(adapter := Perform(lib, s.adapter, a), history := t.history)
  {
    hide Perform, ReplyTo, Invariants.Belongs, Outcome;
  }

  lemma GivingUp(cfg: Config, lib: Library, s: System<Memory.State>, p: nat, request: Request, err: GoError)
    requires IsRunning(s, p, request)
    ensures var t := Next(s, GiveUp(p, err));
            && Enabled(cfg, lib, InMemory(lib), s, GiveUp(p, err))
            && Enabled(cfg, lib, InMemory(lib), t, Finish(p)) && Next(t, Finish(p)) == Done(s, p, Err(err))
  {
  }

  // The end of an operation, whose last step is given, from the system reached by steps.
  lemma Ending(cfg: Config, lib: Library, s: System<Memory.State>, steps: seq<Step<Memory.State>>, p: nat,
      last: Step<Memory.State>)
    requires IsRun(cfg, lib, InMemory(lib), s, steps) && Enabled(cfg, lib, InMemory(lib), Reached(s, steps), last)
    requires last.Call? || last.GiveUp?
    requires Enabled(cfg, lib, InMemory(lib), Next(Reached(s, steps), last), Finish(p))
    ensures IsRun(cfg, lib, InMemory(lib), s, steps + [last] + [Finish(p)])
    ensures Reached(s, steps + [last] + [Finish(p)]) == Next(Next(Reached(s, steps), last), Finish(p))
  {
    hide IsRun, Reached, Next, InMemory;
    Extend(cfg, lib, InMemory(lib), s, steps, last);
    Extend(cfg, lib, InMemory(lib), s, steps + [last], Finish(p));
  }

  // The i-th call of the closure settles nothing.
  ghost predicate Unsettled<R>(lib: Library, request: Request, fn: Spec.Closure<R>, view: View<R>, c: Spec.Captured<R>, i: nat)
    requires i >= 1
  {
    OutcomeAt(lib, request, view, i, Retry.After(fn, c, 1, i - 1)).None?
  }

  // k calls in a row that settle nothing.
  lemma {:induction false} UnsettledCalls<R(!new)>(cfg: Config, lib: Library, s: System<Memory.State>, p: nat, request: Request,
                                                   fn: Spec.Closure<R>, view: View<R>, body: Body, c: Spec.Captured<R>, k: nat)
    returns (steps: seq<Step<Memory.State>>)
    requires IsRunning(s, p, request) && c.mem == s.adapter && Invariants.LeftOver(c.body, body) && Performs(lib,
        request, fn, view, body)
    requires forall i :: 1 <= i <= k ==> Unsettled(lib, request, fn, view, c, i)
    ensures IsRun(cfg, lib, InMemory(lib), s, steps)
    ensures var t, after := Reached(s, steps), Retry.After(fn, c, 1, k);
            t == s.(adapter := after.mem, history := t.history) && Invariants.LeftOver(after.body, body)
    decreases k
  {
    hide IsRun, Reached, Perform, ReplyTo, Enabled, Next, InMemory, Outcome, Invariants.Belongs, Invariants.LeftOver;
    steps := [];
    if k == 0 {
      NoSteps(cfg, lib, InMemory(lib), s);
    } else {
      hide Retry.After;
      steps := UnsettledCalls(cfg, lib, s, p, request, fn, view, body, c, k - 1);
      var before := Retry.After(fn, c, 1, k - 1);
      Retry.AfterLast(fn, c, 1, k);
      assert PerformsAt(lib, request, fn, view, body, k, before);
      assert Unsettled(lib, request, fn, view, c, k);
      OneCall(cfg, lib, Reached(s, steps), p, request, view.access(k, before));
      Extend(cfg, lib, InMemory(lib), s, steps, CallAt(lib, before.mem, p, view.access(k, before)));
      steps := steps + [CallAt(lib, before.mem, p, view.access(k, before))];
    }
  }

  // A retryable failure settles nothing.
  lemma RetriedIsUnsettled<R(!new)>(lib: Library, request: Request, fn: Spec.Closure<R>, view: View<R>, body: Body,
      c: Spec.Captured<R>, k: nat)
    requires Faithful(lib, request, fn, view, body) && Invariants.LeftOver(c.body, body)
    requires forall i :: 1 <= i <= k ==> Retry.RetryableFailure(Retry.CallError(fn, c, i))
    ensures forall i :: 1 <= i <= k ==> Unsettled(lib, request, fn, view, c, i)
  {
    hide Outcome, ReplyTo, Retry.RetryableFailure, Invariants.LeftOver;
    forall i | 1 <= i <= k ensures Unsettled(lib, request, fn, view, c, i) {
      BodyLeft(lib, request, fn, view, body, c, i - 1);
      assert Retry.RetryableFailure(Retry.CallError(fn, c, i));
      assert AnswersAt(lib, request, fn, view, i, Retry.After(fn, c, 1, i - 1));
    }
  }

  lemma {:induction false} BodyLeft<R(!new)>(lib: Library, request: Request, fn: Spec.Closure<R>, view: View<R>, body: Body,
                                             c: Spec.Captured<R>, k: nat)
    requires Performs(lib, request, fn, view, body) && Invariants.LeftOver(c.body, body)
    ensures Invariants.LeftOver(Retry.After(fn, c, 1, k).body, body)
    decreases k
  {
    if k > 0 {
      hide Perform, Invariants.Belongs;
      BodyLeft(lib, request, fn, view, body, c, k - 1);
      Retry.AfterLast(fn, c, 1, k);
      assert PerformsAt(lib, request, fn, view, body, k, Retry.After(fn, c, 1, k - 1));
    }
  }

  /** A run of an operation through breaker and retry, and its return, is a run of the system. */
  lemma RunIsRun<R(!new)>(cfg: Config, lib: Library, s: System<Memory.State>, p: nat, request: Request,
      breakers: map<string, Breaker.State>,
                          op: string, env: Spec.Env, look: nat, fn: Spec.Closure<R>, view: View<R>, c: Spec.Captured<R>)
    returns (steps: seq<Step<Memory.State>>)
    requires IsRunning(s, p, request) && c.mem == s.adapter && Faithful(lib, request, fn, view, c.body)
    ensures IsRun(cfg, lib, InMemory(lib), s, steps)
    ensures var t, r := Reached(s, steps), Spec.RunOp(cfg, breakers, op, env, look, fn, c);
            t == Done(s, p, view.answer(r.captured.out, r.err)).(adapter := r.captured.mem, history := t.history)
  {
    hide IsRun, Reached, Perform, ReplyTo, Enabled, Next, InMemory, Outcome, Spec.RunOp, Invariants.Belongs;
    var r := Spec.RunOp(cfg, breakers, op, env, look, fn, c);
    var n := RunShape(cfg, breakers, op, env, look, fn, c);
    hide Retry.After;
    if n >= 1 && r.err == Retry.CallError(fn, c, n) {
      steps := SettledEnd(cfg, lib, s, p, request, fn, view, c, n);
    } else {
      RetriedIsUnsettled(lib, request, fn, view, c.body, c, n);
      steps := UnsettledCalls(cfg, lib, s, p, request, fn, view, c.body, c, n);
      GivingUp(cfg, lib, Reached(s, steps), p, request, r.err.value);
      Ending(cfg, lib, s, steps, p, GiveUp(p, r.err.value));
      steps := steps + [GiveUp(p, r.err.value)] + [Finish(p)];
    }
  }

  // The run ends with the result of its n-th call.
  lemma SettledEnd<R(!new)>(cfg: Config, lib: Library, s: System<Memory.State>, p: nat, request: Request, fn: Spec.Closure<R>,
                            view: View<R>, c: Spec.Captured<R>, n: nat)
    returns (steps: seq<Step<Memory.State>>)
    requires IsRunning(s, p, request) && c.mem == s.adapter && Faithful(lib, request, fn, view, c.body) && n >= 1
    requires forall i :: 1 <= i < n ==> Retry.RetryableFailure(Retry.CallError(fn, c, i))
    ensures IsRun(cfg, lib, InMemory(lib), s, steps)
    ensures var t, after := Reached(s, steps), Retry.After(fn, c, 1, n);
            t == Done(s, p, view.answer(after.out, Retry.CallError(fn, c, n))).(adapter := after.mem, history := t.history)
  {
    hide IsRun, Reached, Perform, ReplyTo, Enabled, Next, InMemory, Outcome, Invariants.Belongs, Retry.After,
        Invariants.LeftOver;
    assert Invariants.LeftOver(c.body, c.body) by { assert c.body[0..] == c.body; NothingUsed(c.body); }
    RetriedIsUnsettled(lib, request, fn, view, c.body, c, n - 1);
    steps := UnsettledCalls(cfg, lib, s, p, request, fn, view, c.body, c, n - 1);
    var before := Retry.After(fn, c, 1, n - 1);
    Retry.AfterLast(fn, c, 1, n);
    assert PerformsAt(lib, request, fn, view, c.body, n, before) && AnswersAt(lib, request, fn, view, n, before);
    var a := view.access(n, before);
    OneCall(cfg, lib, Reached(s, steps), p, request, a);
    if OutcomeAt(lib, request, view, n, before).Some? {
      Ending(cfg, lib, s, steps, p, CallAt(lib, before.mem, p, a));
      steps := steps + [CallAt(lib, before.mem, p, a)] + [Finish(p)];
    } else {
      var e := Retry.CallError(fn, c, n).value;
      Extend(cfg, lib, InMemory(lib), s, steps, CallAt(lib, before.mem, p, a));
      steps := steps + [CallAt(lib, before.mem, p, a)];
      GivingUp(cfg, lib, Reached(s, steps), p, request, e);
      Ending(cfg, lib, s, steps, p, GiveUp(p, e));
      steps := steps + [GiveUp(p, e)] + [Finish(p)];
    }
  }

  lemma NothingUsed(body: Body)
    ensures Invariants.LeftOver(body, body)
  {
  }

  // ------------------------------------------------------------------ each operation

  // What an operation with an ObjectInfo returns.
  function InfoReply(out: Option<ObjectInfo>, e: Option<GoError>): Reply {
    if e.Some? then Err(e.value) else if out.Some? then Ok(InfoAnswer(out.value)) else Ok(NoAnswer)
  }

  function PutView(key: string, opts: PutOptions, env: Spec.Env): View<ObjectInfo> {
    View((i: nat, c: Spec.Captured<ObjectInfo>) => PutAccess(key, c.body, opts, env.clock(i)), InfoReply)
  }

  function GetView(key: string): View<(seq<byte>, ObjectInfo)> {
    View((i: nat, c: Spec.Captured<(seq<byte>, ObjectInfo)>) => GetAccess(key),
         (out: Option<(seq<byte>, ObjectInfo)>, e: Option<GoError>) =>
           if e.Some? then Err(e.value) else if out.Some? then Ok(BodyAnswer(out.value.0, out.value.1)) else Ok(NoAnswer))
  }

  function HeadView(key: string): View<ObjectInfo> {
    View((i: nat, c: Spec.Captured<ObjectInfo>) => HeadAccess(key), InfoReply)
  }

  // A missing object is an answer.
  function ExistsView(key: string): View<ObjectInfo> {
    View((i: nat, c: Spec.Captured<ObjectInfo>) => HeadAccess(key),
         (out: Option<ObjectInfo>, e: Option<GoError>) =>
           if e.None? then Ok(PresenceAnswer(true))
           else if Spec.IsNotFound(e.value) then Ok(PresenceAnswer(false))
           else Err(e.value))
  }

  // A missing object is forgiven unless strict.
  function DeleteView(key: string, strict: bool): View<()> {
    View((i: nat, c: Spec.Captured<()>) => DeleteAccess(key, strict),
         (out: Option<()>, e: Option<GoError>) => if e.Some? && !(Spec.IsNotFound(e.value)
             && !strict) then Err(e.value) else Ok(NoAnswer))
  }

  function CopyView(source: string, target: string, opts: CopyOptions, env: Spec.Env): View<ObjectInfo> {
    View((i: nat, c: Spec.Captured<ObjectInfo>) => CopyAccess(source, target, opts, env.clock(i)), InfoReply)
  }

  function ListView(prefix: string, maxKeys: int, token: string): View<ListPage> {
    View((i: nat, c: Spec.Captured<ListPage>) => ListAccess(prefix, PageSize(maxKeys), token),
         (out: Option<ListPage>, e: Option<GoError>) =>
           if e.Some? then Err(e.value) else if out.Some? then Ok(PageAnswer(out.value)) else Ok(NoAnswer))
  }

  function InitiateView(key: string, opts: PutOptions, env: Spec.Env): View<string> {
    View((i: nat, c: Spec.Captured<string>) => InitiateAccess(key, opts, env.clock(i)),
         (out: Option<string>, e: Option<GoError>) =>
           if e.Some? then Err(e.value) else if out.Some? then Ok(IdAnswer(out.value)) else Ok(NoAnswer))
  }

  // The part is checked before it is handed out.
  function PartView(id: string, number: int): View<PartETag> {
    View((i: nat, c: Spec.Captured<PartETag>) => PartAccess(id, number, c.body),
         (out: Option<PartETag>, e: Option<GoError>) =>
           if e.Some? then Err(e.value) else if out.Some? then CheckedPart(number, Ok(PartAnswer(out.value))) else Ok(NoAnswer))
  }

  function PartsView(id: string): View<seq<PartETag>> {
    View((i: nat, c: Spec.Captured<seq<PartETag>>) => PartsAccess(id),
         (out: Option<seq<PartETag>>, e: Option<GoError>) =>
           if e.Some? then Err(e.value) else if out.Some? then Ok(PartsAnswer(out.value)) else Ok(NoAnswer))
  }

  function CompleteView(id: string, parts: seq<PartETag>, env: Spec.Env): View<ObjectInfo> {
    View((i: nat, c: Spec.Captured<ObjectInfo>) => CompleteAccess(id, parts, env.clock(i)), InfoReply)
  }

  // A missing upload is forgiven.
  function AbortView(id: string): View<()> {
    View((i: nat, c: Spec.Captured<()>) => AbortAccess(id),
         (out: Option<()>, e: Option<GoError>) => if e.Some? && !Spec.IsNotFound(e.value) then Err(e.value) else Ok(NoAnswer))
  }

  lemma PutAttempt(lib: Library, key: string, body: Body, opts: PutOptions, env: Spec.Env, i: nat, c: Spec.Captured<ObjectInfo>)
    requires Invariants.LeftOver(c.body, body)
    ensures PerformsAt(lib, Invariants.Put(key, body, opts), Spec.PutCall(lib, key, opts, env), PutView(key, opts, env), body, i, c)
    ensures AnswersAt(lib, Invariants.Put(key, body, opts), Spec.PutCall(lib, key, opts, env), PutView(key, opts, env), i, c)
  {
    hide ComputeChecksum, ObjectETag, PartETagText, MultipartETag, UploadIdText, PageOf, OrderedParts, TotalSize;
    var fn := Spec.PutCall(lib, key, opts, env);
    var (m, b, r) := PutObject(lib.digests, c.mem, key, c.body, opts, env.clock(i));
    assert fn(i, c) == Spec.Assign(m, b, r);
  }

  lemma PutFaithful(lib: Library, key: string, body: Body, opts: PutOptions, env: Spec.Env)
    ensures Faithful(lib, Invariants.Put(key, body, opts), Spec.PutCall(lib, key, opts, env), PutView(key, opts, env), body)
  {
    hide PerformsAt, AnswersAt, Spec.PutCall;
    forall i: nat, c: Spec.Captured<ObjectInfo> | Invariants.LeftOver(c.body, body)
      ensures PerformsAt(lib, Invariants.Put(key, body, opts), Spec.PutCall(lib, key, opts, env), PutView(key, opts, env), body, i, c)
      ensures AnswersAt(lib, Invariants.Put(key, body, opts), Spec.PutCall(lib, key, opts, env), PutView(key, opts, env), i, c)
    {
      PutAttempt(lib, key, body, opts, env, i, c);
    }
  }

  lemma GetAttempt(lib: Library, key: string, verify: bool, i: nat, c: Spec.Captured<(seq<byte>, ObjectInfo)>)
    requires Invariants.LeftOver(c.body, [])
    ensures PerformsAt(lib, Invariants.Get(key, verify), Spec.GetCall(key), GetView(key), [], i, c)
    ensures AnswersAt(lib, Invariants.Get(key, verify), Spec.GetCall(key), GetView(key), i, c)
  {
    hide ComputeChecksum, ObjectETag, PartETagText, MultipartETag, UploadIdText, PageOf, OrderedParts, TotalSize;
    var fn := Spec.GetCall(key);
    assert fn(i, c) == Spec.Assign(c.mem, c.body, GetObject(c.mem, key));
  }

  lemma GetFaithful(lib: Library, key: string, verify: bool)
    ensures Faithful(lib, Invariants.Get(key, verify), Spec.GetCall(key), GetView(key), [])
  {
    hide PerformsAt, AnswersAt, Spec.GetCall;
    forall i: nat, c: Spec.Captured<(seq<byte>, ObjectInfo)> | Invariants.LeftOver(c.body, [])
      ensures PerformsAt(lib, Invariants.Get(key, verify), Spec.GetCall(key), GetView(key), [], i, c)
      ensures AnswersAt(lib, Invariants.Get(key, verify), Spec.GetCall(key), GetView(key), i, c)
    {
      GetAttempt(lib, key, verify, i, c);
    }
  }

  lemma HeadAttempt(lib: Library, key: string, i: nat, c: Spec.Captured<ObjectInfo>)
    requires Invariants.LeftOver(c.body, [])
    ensures PerformsAt(lib, Invariants.Head(key), Spec.HeadCall(key), HeadView(key), [], i, c)
    ensures AnswersAt(lib, Invariants.Head(key), Spec.HeadCall(key), HeadView(key), i, c)
  {
    hide ComputeChecksum, ObjectETag, PartETagText, MultipartETag, UploadIdText, PageOf, OrderedParts, TotalSize;
    var fn := Spec.HeadCall(key);
    assert fn(i, c) == Spec.Assign(c.mem, c.body, HeadObject(c.mem, key));
  }

  lemma HeadFaithful(lib: Library, key: string)
    ensures Faithful(lib, Invariants.Head(key), Spec.HeadCall(key), HeadView(key), [])
  {
    hide PerformsAt, AnswersAt, Spec.HeadCall;
    forall i: nat, c: Spec.Captured<ObjectInfo> | Invariants.LeftOver(c.body, [])
      ensures PerformsAt(lib, Invariants.Head(key), Spec.HeadCall(key), HeadView(key), [], i, c)
      ensures AnswersAt(lib, Invariants.Head(key), Spec.HeadCall(key), HeadView(key), i, c)
    {
      HeadAttempt(lib, key, i, c);
    }
  }

  lemma ExistsAttempt(lib: Library, key: string, i: nat, c: Spec.Captured<ObjectInfo>)
    requires Invariants.LeftOver(c.body, [])
    ensures PerformsAt(lib, Invariants.Exists(key), Spec.HeadCall(key), ExistsView(key), [], i, c)
    ensures AnswersAt(lib, Invariants.Exists(key), Spec.HeadCall(key), ExistsView(key), i, c)
  {
    hide ComputeChecksum, ObjectETag, PartETagText, MultipartETag, UploadIdText, PageOf, OrderedParts, TotalSize;
    var fn := Spec.HeadCall(key);
    assert fn(i, c) == Spec.Assign(c.mem, c.body, HeadObject(c.mem, key));
  }

  lemma ExistsFaithful(lib: Library, key: string)
    ensures Faithful(lib, Invariants.Exists(key), Spec.HeadCall(key), ExistsView(key), [])
  {
    hide PerformsAt, AnswersAt, Spec.HeadCall;
    forall i: nat, c: Spec.Captured<ObjectInfo> | Invariants.LeftOver(c.body, [])
      ensures PerformsAt(lib, Invariants.Exists(key), Spec.HeadCall(key), ExistsView(key), [], i, c)
      ensures AnswersAt(lib, Invariants.Exists(key), Spec.HeadCall(key), ExistsView(key), i, c)
    {
      ExistsAttempt(lib, key, i, c);
    }
  }

  lemma DeleteAttempt(lib: Library, key: string, strict: bool, i: nat, c: Spec.Captured<()>)
    requires Invariants.LeftOver(c.body, [])
    ensures PerformsAt(lib, Invariants.Delete(key, strict), Spec.DeleteCall(key, strict), DeleteView(key, strict), [], i, c)
    ensures AnswersAt(lib, Invariants.Delete(key, strict), Spec.DeleteCall(key, strict), DeleteView(key, strict), i, c)
  {
    hide ComputeChecksum, ObjectETag, PartETagText, MultipartETag, UploadIdText, PageOf, OrderedParts, TotalSize;
    var fn := Spec.DeleteCall(key, strict);
    var (m, e) := DeleteObject(c.mem, key, strict);
    assert fn(i, c) == (Spec.Captured(m, c.body, None), e);
  }

  lemma DeleteFaithful(lib: Library, key: string, strict: bool)
    ensures Faithful(lib, Invariants.Delete(key, strict), Spec.DeleteCall(key, strict), DeleteView(key, strict), [])
  {
    hide PerformsAt, AnswersAt, Spec.DeleteCall;
    forall i: nat, c: Spec.Captured<()> | Invariants.LeftOver(c.body, [])
      ensures PerformsAt(lib, Invariants.Delete(key, strict), Spec.DeleteCall(key, strict), DeleteView(key, strict), [], i, c)
      ensures AnswersAt(lib, Invariants.Delete(key, strict), Spec.DeleteCall(key, strict), DeleteView(key, strict), i, c)
    {
      DeleteAttempt(lib, key, strict, i, c);
    }
  }

  lemma CopyAttempt(lib: Library, source: string, target: string, opts: CopyOptions, env: Spec.Env, i: nat, c: Spec.Captured<ObjectInfo>)
    requires Invariants.LeftOver(c.body, [])
    ensures PerformsAt(lib, Invariants.Copy(source, target, opts), Spec.CopyCall(lib, source, target, opts, env), CopyView(source, target, opts, env), [], i, c)
    ensures AnswersAt(lib, Invariants.Copy(source, target, opts), Spec.CopyCall(lib, source, target, opts, env), CopyView(source, target, opts, env), i, c)
  {
    hide ComputeChecksum, ObjectETag, PartETagText, MultipartETag, UploadIdText, PageOf, OrderedParts, TotalSize;
    var fn := Spec.CopyCall(lib, source, target, opts, env);
    var (m, r) := CopyObject(lib.digests, c.mem, source, target, opts, env.clock(i));
    assert fn(i, c) == Spec.Assign(m, c.body, r);
  }

  lemma CopyFaithful(lib: Library, source: string, target: string, opts: CopyOptions, env: Spec.Env)
    ensures Faithful(lib, Invariants.Copy(source, target, opts), Spec.CopyCall(lib, source, target, opts, env),
        CopyView(source, target, opts, env), [])
  {
    hide PerformsAt, AnswersAt, Spec.CopyCall;
    forall i: nat, c: Spec.Captured<ObjectInfo> | Invariants.LeftOver(c.body, [])
      ensures PerformsAt(lib, Invariants.Copy(source, target, opts), Spec.CopyCall(lib, source, target, opts, env), CopyView(source, target, opts, env), [], i, c)
      ensures AnswersAt(lib, Invariants.Copy(source, target, opts), Spec.CopyCall(lib, source, target, opts, env), CopyView(source, target, opts, env), i, c)
    {
      CopyAttempt(lib, source, target, opts, env, i, c);
    }
  }

  lemma ListAttempt(lib: Library, prefix: string, maxKeys: int, token: string, i: nat, c: Spec.Captured<ListPage>)
    requires Invariants.LeftOver(c.body, [])
    ensures PerformsAt(lib, Invariants.List(prefix, maxKeys, token), Spec.ListCall(prefix, PageSize(maxKeys), token), ListView(prefix, maxKeys, token), [], i, c)
    ensures AnswersAt(lib, Invariants.List(prefix, maxKeys, token), Spec.ListCall(prefix, PageSize(maxKeys), token), ListView(prefix, maxKeys, token), i, c)
  {
    hide ComputeChecksum, ObjectETag, PartETagText, MultipartETag, UploadIdText, PageOf, OrderedParts, TotalSize;
    var fn := Spec.ListCall(prefix, PageSize(maxKeys), token);
    assert fn(i, c) == Spec.Assign(c.mem, c.body, ListObjects(c.mem, prefix, PageSize(maxKeys), token));
  }

  lemma ListFaithful(lib: Library, prefix: string, maxKeys: int, token: string)
    ensures Faithful(lib, Invariants.List(prefix, maxKeys, token), Spec.ListCall(prefix, PageSize(maxKeys), token),
        ListView(prefix, maxKeys, token), [])
  {
    hide PerformsAt, AnswersAt, Spec.ListCall;
    forall i: nat, c: Spec.Captured<ListPage> | Invariants.LeftOver(c.body, [])
      ensures PerformsAt(lib, Invariants.List(prefix, maxKeys, token), Spec.ListCall(prefix, PageSize(maxKeys), token), ListView(prefix, maxKeys, token), [], i, c)
      ensures AnswersAt(lib, Invariants.List(prefix, maxKeys, token), Spec.ListCall(prefix, PageSize(maxKeys), token), ListView(prefix, maxKeys, token), i, c)
    {
      ListAttempt(lib, prefix, maxKeys, token, i, c);
    }
  }

  lemma InitiateAttempt(lib: Library, key: string, opts: PutOptions, env: Spec.Env, i: nat, c: Spec.Captured<string>)
    requires Invariants.LeftOver(c.body, [])
    ensures PerformsAt(lib, Invariants.Initiate(key, opts), Spec.InitiateCall(key, opts, env), InitiateView(key, opts, env), [], i, c)
    ensures AnswersAt(lib, Invariants.Initiate(key, opts), Spec.InitiateCall(key, opts, env), InitiateView(key, opts, env), i, c)
  {
    hide ComputeChecksum, ObjectETag, PartETagText, MultipartETag, UploadIdText, PageOf, OrderedParts, TotalSize;
    var fn := Spec.InitiateCall(key, opts, env);
    var (m, r) := InitiateMultipart(c.mem, key, opts, env.clock(i));
    assert fn(i, c) == Spec.Assign(m, c.body, r);
  }

  lemma InitiateFaithful(lib: Library, key: string, opts: PutOptions, env: Spec.Env)
    ensures Faithful(lib, Invariants.Initiate(key, opts), Spec.InitiateCall(key, opts, env), InitiateView(key, opts, env), [])
  {
    hide PerformsAt, AnswersAt, Spec.InitiateCall;
    forall i: nat, c: Spec.Captured<string> | Invariants.LeftOver(c.body, [])
      ensures PerformsAt(lib, Invariants.Initiate(key, opts), Spec.InitiateCall(key, opts, env), InitiateView(key, opts, env), [], i, c)
      ensures AnswersAt(lib, Invariants.Initiate(key, opts), Spec.InitiateCall(key, opts, env), InitiateView(key, opts, env), i, c)
    {
      InitiateAttempt(lib, key, opts, env, i, c);
    }
  }

  lemma PartPerformed(lib: Library, id: string, number: int, body: Body, i: nat, c: Spec.Captured<PartETag>)
    requires Invariants.LeftOver(c.body, body)
    ensures PerformsAt(lib, Invariants.UploadPart(id, number, body), Spec.UploadPartCall(lib, id, number),
        PartView(id, number), body, i, c)
  {
    hide PartETagText;
    var (m, b, r) := Memory.UploadPart(lib.digests, c.mem, id, number, c.body);
    assert Spec.UploadPartCall(lib, id, number)(i, c) == Spec.Assign(m, b, r);
  }

  lemma PartAnswered(lib: Library, id: string, number: int, body: Body, i: nat, c: Spec.Captured<PartETag>)
    ensures AnswersAt(lib, Invariants.UploadPart(id, number, body), Spec.UploadPartCall(lib, id, number),
        PartView(id, number), i, c)
  {
    hide ComputeChecksum, Perform;
    var (m, b, r) := Memory.UploadPart(lib.digests, c.mem, id, number, c.body);
    assert Spec.UploadPartCall(lib, id, number)(i, c) == Spec.Assign(m, b, r);
  }

  lemma PartAttempt(lib: Library, id: string, number: int, body: Body, i: nat, c: Spec.Captured<PartETag>)
    requires Invariants.LeftOver(c.body, body)
    ensures PerformsAt(lib, Invariants.UploadPart(id, number, body), Spec.UploadPartCall(lib, id, number), PartView(id, number), body, i, c)
    ensures AnswersAt(lib, Invariants.UploadPart(id, number, body), Spec.UploadPartCall(lib, id, number), PartView(id, number), i, c)
  {
    hide PerformsAt, AnswersAt, Spec.UploadPartCall;
    var fn := Spec.UploadPartCall(lib, id, number);
    PartPerformed(lib, id, number, body, i, c);
    PartAnswered(lib, id, number, body, i, c);
  }

  lemma PartFaithful(lib: Library, id: string, number: int, body: Body)
    ensures Faithful(lib, Invariants.UploadPart(id, number, body), Spec.UploadPartCall(lib, id, number), PartView(id,
        number), body)
  {
    hide PerformsAt, AnswersAt, Spec.UploadPartCall;
    forall i: nat, c: Spec.Captured<PartETag> | Invariants.LeftOver(c.body, body)
      ensures PerformsAt(lib, Invariants.UploadPart(id, number, body), Spec.UploadPartCall(lib, id, number), PartView(id, number), body, i, c)
      ensures AnswersAt(lib, Invariants.UploadPart(id, number, body), Spec.UploadPartCall(lib, id, number), PartView(id, number), i, c)
    {
      PartAttempt(lib, id, number, body, i, c);
    }
  }

  lemma PartsAttempt(lib: Library, id: string, i: nat, c: Spec.Captured<seq<PartETag>>)
    requires Invariants.LeftOver(c.body, [])
    ensures PerformsAt(lib, Invariants.ListParts(id), Spec.ListPartsCall(id), PartsView(id), [], i, c)
    ensures AnswersAt(lib, Invariants.ListParts(id), Spec.ListPartsCall(id), PartsView(id), i, c)
  {
    hide ComputeChecksum, ObjectETag, PartETagText, MultipartETag, UploadIdText, PageOf, OrderedParts, TotalSize;
    var fn := Spec.ListPartsCall(id);
    assert fn(i, c) == Spec.Assign(c.mem, c.body, Memory.ListParts(c.mem, id));
  }

  lemma PartsFaithful(lib: Library, id: string)
    ensures Faithful(lib, Invariants.ListParts(id), Spec.ListPartsCall(id), PartsView(id), [])
  {
    hide PerformsAt, AnswersAt, Spec.ListPartsCall;
    forall i: nat, c: Spec.Captured<seq<PartETag>> | Invariants.LeftOver(c.body, [])
      ensures PerformsAt(lib, Invariants.ListParts(id), Spec.ListPartsCall(id), PartsView(id), [], i, c)
      ensures AnswersAt(lib, Invariants.ListParts(id), Spec.ListPartsCall(id), PartsView(id), i, c)
    {
      PartsAttempt(lib, id, i, c);
    }
  }

  lemma CompleteAttempt(lib: Library, session: nat, id: string, parts: seq<PartETag>, env: Spec.Env, i: nat, c: Spec.Captured<ObjectInfo>)
    requires Invariants.LeftOver(c.body, [])
    ensures PerformsAt(lib, Invariants.Complete(session, id, parts), Spec.CompleteCall(lib, id, parts, env), CompleteView(id, parts, env), [], i, c)
    ensures AnswersAt(lib, Invariants.Complete(session, id, parts), Spec.CompleteCall(lib, id, parts, env), CompleteView(id, parts, env), i, c)
  {
    hide ComputeChecksum, ObjectETag, PartETagText, MultipartETag, UploadIdText, PageOf, OrderedParts, TotalSize;
    var fn := Spec.CompleteCall(lib, id, parts, env);
    var (m, r) := CompleteMultipart(lib.digests, c.mem, id, parts, env.clock(i));
    assert fn(i, c) == Spec.Assign(m, c.body, r);
  }

  lemma CompleteFaithful(lib: Library, session: nat, id: string, parts: seq<PartETag>, env: Spec.Env)
    ensures Faithful(lib, Invariants.Complete(session, id, parts), Spec.CompleteCall(lib, id, parts, env),
        CompleteView(id, parts, env), [])
  {
    hide PerformsAt, AnswersAt, Spec.CompleteCall;
    forall i: nat, c: Spec.Captured<ObjectInfo> | Invariants.LeftOver(c.body, [])
      ensures PerformsAt(lib, Invariants.Complete(session, id, parts), Spec.CompleteCall(lib, id, parts, env), CompleteView(id, parts, env), [], i, c)
      ensures AnswersAt(lib, Invariants.Complete(session, id, parts), Spec.CompleteCall(lib, id, parts, env), CompleteView(id, parts, env), i, c)
    {
      CompleteAttempt(lib, session, id, parts, env, i, c);
    }
  }

  lemma AbortAttempt(lib: Library, session: nat, id: string, i: nat, c: Spec.Captured<()>)
    requires Invariants.LeftOver(c.body, [])
    ensures PerformsAt(lib, Invariants.Abort(session, id), Spec.AbortCall(id), AbortView(id), [], i, c)
    ensures AnswersAt(lib, Invariants.Abort(session, id), Spec.AbortCall(id), AbortView(id), i, c)
  {
    hide ComputeChecksum, ObjectETag, PartETagText, MultipartETag, UploadIdText, PageOf, OrderedParts, TotalSize;
    var fn := Spec.AbortCall(id);
    assert fn(i, c) == (Spec.Captured(AbortMultipart(c.mem, id), c.body, None), None);
  }

  lemma AbortFaithful(lib: Library, session: nat, id: string)
    ensures Faithful(lib, Invariants.Abort(session, id), Spec.AbortCall(id), AbortView(id), [])
  {
    hide PerformsAt, AnswersAt, Spec.AbortCall;
    forall i: nat, c: Spec.Captured<()> | Invariants.LeftOver(c.body, [])
      ensures PerformsAt(lib, Invariants.Abort(session, id), Spec.AbortCall(id), AbortView(id), [], i, c)
      ensures AnswersAt(lib, Invariants.Abort(session, id), Spec.AbortCall(id), AbortView(id), i, c)
    {
      AbortAttempt(lib, session, id, i, c);
    }
  }

  // ------------------------------------------------------------------ from start to end

  // What an operation finds wrong with its context or its arguments, in that order.
  ghost function EntryError(cfg: Config, lib: Library, request: Request, env: Spec.Env): Option<GoError> {
    Spec.First(Spec.ContextError(env.ctx), Invariants.CheckError(cfg, lib, request))
  }

  // The steps before the adapter is called, and the system after them.
  ghost function Opening(cfg: Config, lib: Library, s: System<Memory.State>, request: Request, env: Spec.Env)
    : (seq<Step<Memory.State>>, System<Memory.State>)
    requires !request.Close?
  {
    var p := |s.procs|;
    var begin := [Start(request)];
    var started := Next(s, Start(request));
    if s.closed then (begin, started)
    else
      var e := EntryError(cfg, lib, request, env);
      if e.Some? then (begin + [Refuse(p, e.value)], Next(started, Refuse(p, e.value)))
      else (begin + [Pass(p)], Next(started, Pass(p)))
  }

  lemma OpeningIsRun(cfg: Config, lib: Library, s: System<Memory.State>, request: Request, env: Spec.Env)
    requires !request.Close?
    ensures var (steps, t) := Opening(cfg, lib, s, request, env);
            IsRun(cfg, lib, InMemory(lib), s, steps) && Reached(s, steps) == t
  {
    hide Invariants.CheckError, Spec.ContextError, IsRun, Reached;
    var p := |s.procs|;
    var none: seq<Step<Memory.State>> := [];
    NoSteps(cfg, lib, InMemory(lib), s);
    Extend(cfg, lib, InMemory(lib), s, none, Start(request));
    assert none + [Start(request)] == [Start(request)];
    if !s.closed {
      var e := EntryError(cfg, lib, request, env);
      assert e.Some? ==> Invariants.CheckError(cfg, lib, request) == e || IsContextError(e.value);
      Extend(cfg, lib, InMemory(lib), s, [Start(request)], if e.Some? then Refuse(p, e.value) else Pass(p));
    }
  }

  // The system after an operation that finds the given early error, or else has the given result and leaves
  // the given adapter; the history is left open.
  ghost function Whole(s: System<Memory.State>, request: Request, early: Option<GoError>, result: Reply, mem: Memory.State,
                       history: seq<Event>): System<Memory.State>
  {
    if s.closed then Answering(s, request, Err(ErrClosed)).(history := history)
    else if early.Some? then Answering(s, request, Err(early.value)).(history := history)
    else if request.Complete? && MarkOf(request) in s.marks then Answering(s, request,
        Err(Spec.ALREADY_DONE)).(history := history)
    else
      var marks := if !Guarded(request) || (request.Complete? && result.Err?) then s.marks else s.marks + {MarkOf(request)};
      Answering(s, request, result).(marks := marks, adapter := mem, history := history)
  }

  // One more process, which has returned.
  ghost function Answering(s: System<Memory.State>, request: Request, result: Reply): System<Memory.State> {
    s.(procs := s.procs + [Process(request, Returned(result))])
  }

  lemma OpenedIsWhole(cfg: Config, lib: Library, s: System<Memory.State>, request: Request, env: Spec.Env,
      result: Reply, mem: Memory.State,
                      history: seq<Event>)
    requires !request.Close?
    ensures var t, p := Opening(cfg, lib, s, request, env).1, |s.procs|;
            && (InPhase(t, p, Running) ==>
                  t.procs[p].request == request && t.adapter == s.adapter
                  && Done(t, p, result).(adapter := mem, history := history) == Whole(s, request, EntryError(cfg,
                      lib, request, env), result, mem, history))
            && (!InPhase(t, p, Running) ==> t == Whole(s, request, EntryError(cfg, lib, request, env), result, mem, t.history))
  {
    hide EntryError;
    var t, p := Opening(cfg, lib, s, request, env).1, |s.procs|;
    if InPhase(t, p, Running) {
      assert t.procs[p := Process(request, Returned(result))] == s.procs + [Process(request, Returned(result))];
      if Guarded(request) && MarkOf(request) !in s.marks { assert s.marks + {MarkOf(request)} - {MarkOf(request)} == s.marks; }
    } else if !s.closed {
      assert t.procs == s.procs + [t.procs[p]];
    }
  }

  lemma WholeIsRun<R(!new)>(cfg: Config, lib: Library, s: System<Memory.State>, request: Request,
      breakers: map<string, Breaker.State>,
                            op: string, env: Spec.Env, fn: Spec.Closure<R>, view: View<R>, c: Spec.Captured<R>)
    returns (steps: seq<Step<Memory.State>>)
    requires !request.Close? && c.mem == s.adapter && Faithful(lib, request, fn, view, c.body)
    ensures IsRun(cfg, lib, InMemory(lib), s, steps)
    ensures var r, u := Spec.RunOp(cfg, breakers, op, env, 0, fn, c), Reached(s, steps);
            u == Whole(s, request, EntryError(cfg, lib, request, env), view.answer(r.captured.out, r.err),
                r.captured.mem, u.history)
  {
    hide IsRun, Reached, Spec.RunOp, EntryError, InMemory, Faithful, Invariants.LeftOver, Opening, Whole, Done;
    var p, r := |s.procs|, Spec.RunOp(cfg, breakers, op, env, 0, fn, c);
    OpeningIsRun(cfg, lib, s, request, env);
    var t := Opening(cfg, lib, s, request, env).1;
    steps := Opening(cfg, lib, s, request, env).0;
    OpenedIsWhole(cfg, lib, s, request, env, Ok(NoAnswer), s.adapter, []);
    if InPhase(t, p, Running) {
      var more := RunIsRun(cfg, lib, t, p, request, breakers, op, env, 0, fn, view, c);
      Concatenated(cfg, lib, InMemory(lib), s, steps, more);
      steps := steps + more;
    }
    OpenedIsWhole(cfg, lib, s, request, env, view.answer(r.captured.out, r.err), r.captured.mem, Reached(s, steps).history);
  }

  // The system is in the state of the store and its sessions.
  ghost predicate Mirrors(s: System<Memory.State>, w: Invariants.World) {
    && s.adapter == w.store.mem && s.closed == w.store.closed
    && forall session: nat, id: string :: (session, id) in s.marks <==> id in Invariants.Guard(w, session)
  }

  function InfoResult(r: Result<Option<ObjectInfo>, GoError>): Reply {
    if r.Err? then Err(r.error) else InfoReply(r.value, None)
  }

  // What the caller of an operation gets.
  function AnswerOf(cfg: Config, lib: Library, w: Invariants.World, cmd: Request, env: Spec.Env): Reply {
    match cmd
    case Put(key, body, opts) => InfoResult(Spec.Put(cfg, lib, w.store, key, body, opts, env).2)
    case Get(key, verify) =>
      (match Spec.Get(cfg, lib, w.store, key, verify, env).1
       case Ok(Some(reader)) => Ok(BodyAnswer(reader.content, reader.info))
       case Ok(None) => Ok(NoAnswer)
       case Err(e) => Err(e))
    case Head(key) => InfoResult(Spec.Head(cfg, lib, w.store, key, env).1)
    case Exists(key) =>
      (match Spec.Exists(cfg, lib, w.store, key, env).1 case Ok(present) => Ok(PresenceAnswer(present)) case Err(e) => Err(e))
    case Delete(key, strict) => ErrorReply(Spec.Delete(cfg, lib, w.store, key, strict, env).1)
    case Copy(source, target, opts) => InfoResult(Spec.Copy(cfg, lib, w.store, source, target, opts, env).1)
    case List(prefix, maxKeys, token) =>
      (match Spec.List(cfg, w.store, prefix, maxKeys, token, env).1
       case Ok(Some(page)) => Ok(PageAnswer(page))
       case Ok(None) => Ok(NoAnswer)
       case Err(e) => Err(e))
    case Initiate(key, opts) =>
      (match Spec.Initiate(cfg, lib, w.store, key, opts, env).1
       case Ok(Some(id)) => Ok(IdAnswer(id))
       case Ok(None) => Ok(NoAnswer)
       case Err(e) => Err(e))
    case UploadPart(id, number, body) =>
      (match Spec.UploadPart(cfg, lib, w.store, id, number, body, env).2
       case Ok(Some(part)) => Ok(PartAnswer(part))
       case Ok(None) => Ok(NoAnswer)
       case Err(e) => Err(e))
    case ListParts(id) =>
      (match Spec.ListParts(cfg, w.store, id, env).1
       case Ok(Some(parts)) => Ok(PartsAnswer(parts))
       case Ok(None) => Ok(NoAnswer)
       case Err(e) => Err(e))
    case Complete(session, id, parts) =>
      InfoResult(Spec.Complete(cfg, lib, w.store, Invariants.Guard(w, session), id, parts, env).2)
    case Abort(session, id) => ErrorReply(Spec.Abort(cfg, w.store, Invariants.Guard(w, session), id, env).2)
    case Close => Ok(NoAnswer)
  }

  /** The system has done what the operation does to the store, and its caller has the same answer. */
  ghost predicate Agrees(cfg: Config, lib: Library, s: System<Memory.State>, u: System<Memory.State>,
      w: Invariants.World, cmd: Request,
                         env: Spec.Env) {
    && Mirrors(u, Invariants.Step(cfg, lib, w, cmd, env))
    && u.procs == s.procs + [Process(cmd, Returned(AnswerOf(cfg, lib, w, cmd, env)))]
  }

  // What stops an operation before its run is not about a missing object.
  lemma EntryIsNotMissing(lib: Library, key: string, env: Spec.Env)
    ensures !Spec.IsNotFound(ErrClosed)
    ensures Spec.ContextError(env.ctx).Some? ==> !Spec.IsNotFound(Spec.ContextError(env.ctx).value)
    ensures Spec.KeyError(lib, key).Some? ==> !Spec.IsNotFound(Spec.KeyError(lib, key).value)
  {
    NewKeyExact(lib, key);
  }

  // Abort's call never fails.
  lemma AbortNeverMissing(cfg: Config, breakers: map<string, Breaker.State>, id: string, env: Spec.Env, c: Spec.Captured<()>)
    ensures var r := Spec.RunOp(cfg, breakers, "multipart_abort", env, 0, Spec.AbortCall(id), c);
            r.err.Some? ==> !Spec.IsNotFound(r.err.value)
  {
    hide Spec.RunOp;
    var n := RunShape(cfg, breakers, "multipart_abort", env, 0, Spec.AbortCall(id), c);
    if n >= 1 { assert Retry.CallError(Spec.AbortCall(id), c, n).None?; }
  }

  lemma PutIsRun(cfg: Config, lib: Library, s: System<Memory.State>, w: Invariants.World, key: string, body: Body,
      opts: PutOptions, env: Spec.Env)
    returns (steps: seq<Step<Memory.State>>)
    requires Mirrors(s, w)
    ensures IsRun(cfg, lib, InMemory(lib), s, steps) && Agrees(cfg, lib, s, Reached(s, steps), w, Invariants.Put(key,
        body, opts), env)
  {
    hide IsRun, Reached, Spec.RunOp, Spec.ContextError, InMemory, Faithful, Next, Enabled, ReplyTo, Perform, PageOf,
        Spec.PutError;
    PutFaithful(lib, key, body, opts, env);
    steps := WholeIsRun(cfg, lib, s, Invariants.Put(key, body, opts), w.store.breakers, "put", env, Spec.PutCall(lib,
        key, opts, env), PutView(key, opts, env), Spec.Captured(s.adapter, body, None));
  }

  lemma GetIsRun(cfg: Config, lib: Library, s: System<Memory.State>, w: Invariants.World, key: string, verify: bool,
      env: Spec.Env)
    returns (steps: seq<Step<Memory.State>>)
    requires Mirrors(s, w)
    ensures IsRun(cfg, lib, InMemory(lib), s, steps) && Agrees(cfg, lib, s, Reached(s, steps), w, Invariants.Get(key,
        verify), env)
  {
    hide IsRun, Reached, Spec.RunOp, Spec.ContextError, InMemory, Faithful, Next, Enabled, ReplyTo, Perform, PageOf,
        Spec.KeyError;
    GetFaithful(lib, key, verify);
    steps := WholeIsRun(cfg, lib, s, Invariants.Get(key, verify), w.store.breakers, "get", env, Spec.GetCall(key),
        GetView(key), Spec.Captured(s.adapter, [], None));
  }

  lemma HeadIsRun(cfg: Config, lib: Library, s: System<Memory.State>, w: Invariants.World, key: string, env: Spec.Env)
    returns (steps: seq<Step<Memory.State>>)
    requires Mirrors(s, w)
    ensures IsRun(cfg, lib, InMemory(lib), s, steps) && Agrees(cfg, lib, s, Reached(s, steps), w, Invariants.Head(key), env)
  {
    hide IsRun, Reached, Spec.RunOp, Spec.ContextError, InMemory, Faithful, Next, Enabled, ReplyTo, Perform, PageOf,
        Spec.KeyError;
    HeadFaithful(lib, key);
    steps := WholeIsRun(cfg, lib, s, Invariants.Head(key), w.store.breakers, "head", env, Spec.HeadCall(key),
        HeadView(key), Spec.Captured(s.adapter, [], None));
  }

  lemma ExistsIsRun(cfg: Config, lib: Library, s: System<Memory.State>, w: Invariants.World, key: string, env: Spec.Env)
    returns (steps: seq<Step<Memory.State>>)
    requires Mirrors(s, w)
    ensures IsRun(cfg, lib, InMemory(lib), s, steps) && Agrees(cfg, lib, s, Reached(s, steps), w, Invariants.Exists(key), env)
  {
    hide IsRun, Reached, Spec.RunOp, Spec.ContextError, InMemory, Faithful, Next, Enabled, ReplyTo, Perform, PageOf;
    ExistsFaithful(lib, key);
    EntryIsNotMissing(lib, key, env);
    steps := WholeIsRun(cfg, lib, s, Invariants.Exists(key), w.store.breakers, "head", env, Spec.HeadCall(key),
        ExistsView(key), Spec.Captured(s.adapter, [], None));
  }

  lemma CopyIsRun(cfg: Config, lib: Library, s: System<Memory.State>, w: Invariants.World, source: string,
      target: string, opts: CopyOptions, env: Spec.Env)
    returns (steps: seq<Step<Memory.State>>)
    requires Mirrors(s, w)
    ensures IsRun(cfg, lib, InMemory(lib), s, steps) && Agrees(cfg, lib, s, Reached(s, steps), w,
        Invariants.Copy(source, target, opts), env)
  {
    hide IsRun, Reached, Spec.RunOp, Spec.ContextError, InMemory, Faithful, Next, Enabled, ReplyTo, Perform, PageOf,
        Spec.CopyError;
    CopyFaithful(lib, source, target, opts, env);
    steps := WholeIsRun(cfg, lib, s, Invariants.Copy(source, target, opts), w.store.breakers, "copy", env,
        Spec.CopyCall(lib, source, target, opts, env), CopyView(source, target, opts, env), Spec.Captured(s.adapter, [], None));
  }

  lemma ListIsRun(cfg: Config, lib: Library, s: System<Memory.State>, w: Invariants.World, prefix: string,
      maxKeys: int, token: string, env: Spec.Env)
    returns (steps: seq<Step<Memory.State>>)
    requires Mirrors(s, w)
    ensures IsRun(cfg, lib, InMemory(lib), s, steps) && Agrees(cfg, lib, s, Reached(s, steps), w,
        Invariants.List(prefix, maxKeys, token), env)
  {
    hide IsRun, Reached, Spec.RunOp, Spec.ContextError, InMemory, Faithful, Next, Enabled, ReplyTo, Perform, PageOf;
    ListFaithful(lib, prefix, maxKeys, token);
    steps := WholeIsRun(cfg, lib, s, Invariants.List(prefix, maxKeys, token), w.store.breakers, "list", env, Spec.ListCall(prefix, PageSize(maxKeys), token), ListView(prefix, maxKeys, token), Spec.Captured(s.adapter, [], None));
  }

  lemma InitiateIsRun(cfg: Config, lib: Library, s: System<Memory.State>, w: Invariants.World, key: string,
      opts: PutOptions, env: Spec.Env)
    returns (steps: seq<Step<Memory.State>>)
    requires Mirrors(s, w)
    ensures IsRun(cfg, lib, InMemory(lib), s, steps) && Agrees(cfg, lib, s, Reached(s, steps), w,
        Invariants.Initiate(key, opts), env)
  {
    hide IsRun, Reached, Spec.RunOp, Spec.ContextError, InMemory, Faithful, Next, Enabled, ReplyTo, Perform, PageOf,
        Spec.InitiateError;
    InitiateFaithful(lib, key, opts, env);
    steps := WholeIsRun(cfg, lib, s, Invariants.Initiate(key, opts), w.store.breakers, "multipart_initiate", env, Spec.InitiateCall(key, opts, env), InitiateView(key, opts, env), Spec.Captured(s.adapter, [], None));
  }

  lemma PartIsRun(cfg: Config, lib: Library, s: System<Memory.State>, w: Invariants.World, id: string, number: int,
      body: Body, env: Spec.Env)
    returns (steps: seq<Step<Memory.State>>)
    requires Mirrors(s, w)
    ensures IsRun(cfg, lib, InMemory(lib), s, steps) && Agrees(cfg, lib, s, Reached(s, steps), w,
        Invariants.UploadPart(id, number, body), env)
  {
    hide IsRun, Reached, Spec.RunOp, Spec.ContextError, InMemory, Faithful, Next, Enabled, ReplyTo, Perform, PageOf,
        Spec.PartNumberError;
    PartFaithful(lib, id, number, body);
    steps := WholeIsRun(cfg, lib, s, Invariants.UploadPart(id, number, body), w.store.breakers, "multipart_upload_part", env, Spec.UploadPartCall(lib, id, number), PartView(id, number), Spec.Captured(s.adapter, body, None));
  }

  lemma PartsIsRun(cfg: Config, lib: Library, s: System<Memory.State>, w: Invariants.World, id: string, env: Spec.Env)
    returns (steps: seq<Step<Memory.State>>)
    requires Mirrors(s, w)
    ensures IsRun(cfg, lib, InMemory(lib), s, steps) && Agrees(cfg, lib, s, Reached(s, steps), w, Invariants.ListParts(id), env)
  {
    hide IsRun, Reached, Spec.RunOp, Spec.ContextError, InMemory, Faithful, Next, Enabled, ReplyTo, Perform, PageOf;
    PartsFaithful(lib, id);
    steps := WholeIsRun(cfg, lib, s, Invariants.ListParts(id), w.store.breakers, "multipart_list_parts", env, Spec.ListPartsCall(id), PartsView(id), Spec.Captured(s.adapter, [], None));
  }

  lemma CompleteIsRun(cfg: Config, lib: Library, s: System<Memory.State>, w: Invariants.World, session: nat,
      id: string, parts: seq<PartETag>, env: Spec.Env)
    returns (steps: seq<Step<Memory.State>>)
    requires Mirrors(s, w)
    ensures IsRun(cfg, lib, InMemory(lib), s, steps) && Agrees(cfg, lib, s, Reached(s, steps), w,
        Invariants.Complete(session, id, parts), env)
  {
    hide IsRun, Reached, Spec.RunOp, Spec.ContextError, InMemory, Faithful, Next, Enabled, ReplyTo, Perform, PageOf,
        Parts.PartsError;
    CompleteFaithful(lib, session, id, parts, env);
    steps := WholeIsRun(cfg, lib, s, Invariants.Complete(session, id, parts), w.store.breakers, "multipart_complete", env, Spec.CompleteCall(lib, id, parts, env), CompleteView(id, parts, env), Spec.Captured(s.adapter, [], None));
  }

  lemma AbortIsRun(cfg: Config, lib: Library, s: System<Memory.State>, w: Invariants.World, session: nat, id: string,
      env: Spec.Env)
    returns (steps: seq<Step<Memory.State>>)
    requires Mirrors(s, w)
    ensures IsRun(cfg, lib, InMemory(lib), s, steps) && Agrees(cfg, lib, s, Reached(s, steps), w,
        Invariants.Abort(session, id), env)
  {
    hide IsRun, Reached, Spec.RunOp, Spec.ContextError, InMemory, Faithful, Next, Enabled, ReplyTo, Perform, PageOf;
    AbortFaithful(lib, session, id);
    AbortNeverMissing(cfg, w.store.breakers, id, env, Spec.Captured(s.adapter, [], None));
    steps := WholeIsRun(cfg, lib, s, Invariants.Abort(session, id), w.store.breakers, "multipart_abort", env, Spec.AbortCall(id), AbortView(id), Spec.Captured(s.adapter, [], None));
  }
  // ------------------------------------------------------------------ Delete and Close

  // The closure of the Head before a delete, as an access of the delete. It settles nothing.
  lemma PreflightPerforms(lib: Library, key: string, strict: bool)
    ensures Performs(lib, Invariants.Delete(key, strict), Spec.HeadCall(key), HeadView(key), [])
    ensures forall i: nat, c: Spec.Captured<ObjectInfo> :: OutcomeAt(lib, Invariants.Delete(key, strict),
        HeadView(key), i, c).None?
  {
    var fn := Spec.HeadCall(key);
    forall i: nat, c: Spec.Captured<ObjectInfo> | Invariants.LeftOver(c.body, [])
      ensures PerformsAt(lib, Invariants.Delete(key, strict), fn, HeadView(key), [], i, c)
    {
      assert fn(i, c) == Spec.Assign(c.mem, c.body, HeadObject(c.mem, key));
    }
  }

  // The run of that Head: the delete is still running, and nothing stored has changed.
  lemma PreflightIsRun(cfg: Config, lib: Library, s: System<Memory.State>, p: nat, key: string, strict: bool,
                       breakers: map<string, Breaker.State>, env: Spec.Env)
    returns (steps: seq<Step<Memory.State>>)
    requires IsRunning(s, p, Invariants.Delete(key, strict))
    ensures IsRun(cfg, lib, InMemory(lib), s, steps)
    ensures var r := Spec.RunOp(cfg, breakers, "head", env, 0, Spec.HeadCall(key), Spec.Captured(s.adapter, [], None));
            Reached(s, steps) == s.(adapter := r.captured.mem, history := Reached(s, steps).history)
  {
    hide IsRun, Reached, Spec.RunOp, InMemory, Next, Enabled, Spec.HeadCall, Retry.After, Performs;
    var c: Spec.Captured<ObjectInfo> := Spec.Captured(s.adapter, [], None);
    PreflightPerforms(lib, key, strict);
    NothingUsed([]);
    var n := RunShape(cfg, breakers, "head", env, 0, Spec.HeadCall(key), c);
    assert forall i :: 1 <= i <= n ==> Unsettled(lib, Invariants.Delete(key, strict), Spec.HeadCall(key), HeadView(key), c, i);
    steps := UnsettledCalls(cfg, lib, s, p, Invariants.Delete(key, strict), Spec.HeadCall(key), HeadView(key), [], c, n);
  }

  // What a Delete does once its checks have passed.
  lemma DeletingIsRun(cfg: Config, lib: Library, s: System<Memory.State>, p: nat, st: Spec.State, key: string,
      strict: bool, env: Spec.Env)
    returns (steps: seq<Step<Memory.State>>)
    requires IsRunning(s, p, Invariants.Delete(key, strict)) && st.mem == s.adapter && !st.closed
    requires EntryError(cfg, lib, Invariants.Delete(key, strict), env).None?
    ensures IsRun(cfg, lib, InMemory(lib), s, steps)
    ensures var (after, err) := Spec.Delete(cfg, lib, st, key, strict, env);
            Reached(s, steps) == Done(s, p, ErrorReply(err)).(adapter := after.mem, history := Reached(s, steps).history)
  {
    hide IsRun, Reached, Spec.RunOp, InMemory, Next, Enabled, Faithful, Spec.KeyError, Spec.ContextError,
        Spec.Refusal, Spec.SecondLook;
    var request := Invariants.Delete(key, strict);
    DeleteFaithful(lib, key, strict);
    if strict || cfg.retention.Enabled() {
      var head := PreflightIsRun(cfg, lib, s, p, key, strict, st.breakers, env);
      var t := Reached(s, head);
      var (checked, refused) := Spec.Preflight(cfg, st, key, strict, env);
      if refused.Some? {
        GivingUp(cfg, lib, t, p, request, refused.value);
        Ending(cfg, lib, s, head, p, GiveUp(p, refused.value));
        steps := head + [GiveUp(p, refused.value)] + [Finish(p)];
      } else {
        var more := RunIsRun(cfg, lib, t, p, request, checked.breakers, "delete", env, Spec.SecondLook(cfg),
            Spec.DeleteCall(key, strict),
                             DeleteView(key, strict), Spec.Captured(checked.mem, [], None));
        Concatenated(cfg, lib, InMemory(lib), s, head, more);
        steps := head + more;
      }
    } else {
      steps := RunIsRun(cfg, lib, s, p, request, st.breakers, "delete", env, 0, Spec.DeleteCall(key, strict),
          DeleteView(key, strict),
                        Spec.Captured(st.mem, [], None));
    }
  }

  lemma DeleteIsRun(cfg: Config, lib: Library, s: System<Memory.State>, w: Invariants.World, key: string,
      strict: bool, env: Spec.Env)
    returns (steps: seq<Step<Memory.State>>)
    requires Mirrors(s, w)
    ensures IsRun(cfg, lib, InMemory(lib), s, steps) && Agrees(cfg, lib, s, Reached(s, steps), w,
        Invariants.Delete(key, strict), env)
  {
    hide IsRun, Reached, InMemory, Next, Enabled, Spec.KeyError, Spec.ContextError, Spec.Preflight,
        Spec.DeleteStored, Opening, Done;
    var request, p := Invariants.Delete(key, strict), |s.procs|;
    OpeningIsRun(cfg, lib, s, request, env);
    var t := Opening(cfg, lib, s, request, env).1;
    steps := Opening(cfg, lib, s, request, env).0;
    var (after, err) := Spec.Delete(cfg, lib, w.store, key, strict, env);
    OpenedIsWhole(cfg, lib, s, request, env, ErrorReply(err), after.mem, []);
    if InPhase(t, p, Running) {
      RunningIsOpen(cfg, lib, s, request, env);
      var more := DeletingIsRun(cfg, lib, t, p, w.store, key, strict, env);
      Concatenated(cfg, lib, InMemory(lib), s, steps, more);
      steps := steps + more;
    }
    OpenedIsWhole(cfg, lib, s, request, env, ErrorReply(err), after.mem, Reached(s, steps).history);
    DeleteKeepsFlag(cfg, lib, w.store, key, strict, env);
  }

  lemma RunningIsOpen(cfg: Config, lib: Library, s: System<Memory.State>, request: Request, env: Spec.Env)
    requires !request.Close? && InPhase(Opening(cfg, lib, s, request, env).1, |s.procs|, Running)
    ensures !s.closed && EntryError(cfg, lib, request, env).None?
  {
    hide EntryError;
  }

  lemma DeleteKeepsFlag(cfg: Config, lib: Library, st: Spec.State, key: string, strict: bool, env: Spec.Env)
    ensures Spec.Delete(cfg, lib, st, key, strict, env).0.closed == st.closed
  {
    hide Spec.RunOp, Spec.Refusal, Spec.KeyError, Spec.ContextError;
  }

  lemma CloseIsRun(cfg: Config, lib: Library, s: System<Memory.State>, w: Invariants.World, env: Spec.Env)
    returns (steps: seq<Step<Memory.State>>)
    requires Mirrors(s, w)
    ensures IsRun(cfg, lib, InMemory(lib), s, steps) && Agrees(cfg, lib, s, Reached(s, steps), w, Invariants.Close, env)
  {
    hide IsRun, Reached, Invariants.CheckError, Spec.KeyError, Spec.ContextError, Spec.RunOp, Spec.PutError, Spec.CopyError;
    var none: seq<Step<Memory.State>> := [];
    var p := |s.procs|;
    NoSteps(cfg, lib, InMemory(lib), s);
    Extend(cfg, lib, InMemory(lib), s, none, Start(Invariants.Close));
    steps := none + [Start(Invariants.Close)];
    if !s.closed {
      var call := CallAt(lib, s.adapter, p, CloseAccess);
      Extend(cfg, lib, InMemory(lib), s, steps, call);
      Extend(cfg, lib, InMemory(lib), s, steps + [call], Finish(p));
      steps := steps + [call] + [Finish(p)];
    }
  }

  // ------------------------------------------------------------------ any sequence of operations

  /** Each operation of the store, undisturbed, is a run of the interleaving system: same adapter, same marks,
      same answer to its caller. */
  lemma OperationIsRun(cfg: Config, lib: Library, s: System<Memory.State>, w: Invariants.World, cmd: Request, env: Spec.Env)
    returns (steps: seq<Step<Memory.State>>)
    requires Mirrors(s, w)
    ensures IsRun(cfg, lib, InMemory(lib), s, steps) && Agrees(cfg, lib, s, Reached(s, steps), w, cmd, env)
  {
    hide *;
    match cmd
    case Put(key, body, opts) => steps := PutIsRun(cfg, lib, s, w, key, body, opts, env);
    case Get(key, verify) => steps := GetIsRun(cfg, lib, s, w, key, verify, env);
    case Head(key) => steps := HeadIsRun(cfg, lib, s, w, key, env);
    case Exists(key) => steps := ExistsIsRun(cfg, lib, s, w, key, env);
    case Delete(key, strict) => steps := DeleteIsRun(cfg, lib, s, w, key, strict, env);
    case Copy(source, target, opts) => steps := CopyIsRun(cfg, lib, s, w, source, target, opts, env);
    case List(prefix, maxKeys, token) => steps := ListIsRun(cfg, lib, s, w, prefix, maxKeys, token, env);
    case Initiate(key, opts) => steps := InitiateIsRun(cfg, lib, s, w, key, opts, env);
    case UploadPart(id, number, body) => steps := PartIsRun(cfg, lib, s, w, id, number, body, env);
    case ListParts(id) => steps := PartsIsRun(cfg, lib, s, w, id, env);
    case Complete(session, id, parts) => steps := CompleteIsRun(cfg, lib, s, w, session, id, parts, env);
    case Abort(session, id) => steps := AbortIsRun(cfg, lib, s, w, session, id, env);
    case Close => steps := CloseIsRun(cfg, lib, s, w, env);
  }

  // The answers of a sequence of operations.
  function Answers(cfg: Config, lib: Library, w: Invariants.World, events: seq<Invariants.Event>): seq<Process> {
    if events == [] then []
    else
      var front, last := events[..|events| - 1], events[|events| - 1];
      Answers(cfg, lib, w, front)
      + [Process(last.cmd, Returned(AnswerOf(cfg, lib, Invariants.Execute(cfg, lib, w, front), last.cmd, last.env)))]
  }

  /** So every sequential run of a new store is a run of the interleaving system, answer by answer, and all that
      is proved of that system holds of it. */
  lemma {:induction false} EventsAreRun(cfg: Config, lib: Library,
      events: seq<Invariants.Event>) returns (steps: seq<Step<Memory.State>>)
    ensures IsRun(cfg, lib, InMemory(lib), New(EMPTY), steps)
    ensures Mirrors(Reached(New(EMPTY), steps), Invariants.Execute(cfg, lib, Invariants.START, events))
    ensures Reached(New(EMPTY), steps).procs == Answers(cfg, lib, Invariants.START, events)
    decreases |events|
  {
    hide AnswerOf, Invariants.Step, IsRun, Reached, InMemory;
    if events == [] {
      NoSteps(cfg, lib, InMemory(lib), New(EMPTY));
      steps := [];
    } else {
      hide Mirrors;
      var front, last := events[..|events| - 1], events[|events| - 1];
      steps := EventsAreRun(cfg, lib, front);
      var w := Invariants.Execute(cfg, lib, Invariants.START, front);
      var more := OperationIsRun(cfg, lib, Reached(New(EMPTY), steps), w, last.cmd, last.env);
      Concatenated(cfg, lib, InMemory(lib), New(EMPTY), steps, more);
      steps := steps + more;
    }
  }
}
