/** One breaker for each operation, over the in-memory adapter: only the two operations that read a
    body can ever open theirs. */
module Isolation {
  import opened Wrappers
  import opened Errors
  import opened Keys
  import opened Config
  import opened Accesses
  import opened Memory
  import opened Retry
  import Breaker
  import Spec = StoreSpec
  import opened Invariants

  const READING_OPERATIONS := {"put", "multipart_upload_part"}

  ghost predicate Unshaken(b: Breaker.State) {
    b.mode == Breaker.Mode.Closed && b.failures == 0
  }

  /** Every breaker but those of the two reading operations is as it was created. */
  ghost predicate Quiet(breakers: map<string, Breaker.State>) {
    forall op :: op in breakers && op !in READING_OPERATIONS ==> Unshaken(breakers[op])
  }

  /** fn never fails in a way that counts. */
  ghost predicate NeverCounts<R(!new)>(fn: Spec.Closure<R>) {
    forall i: nat, c: Spec.Captured<R> :: fn(i, c).1.Some? ==> !IsRetryable(fn(i, c).1.value)
  }

  lemma UncountedError<R(!new)>(p: Retry.Policy, ctx: Context, look: nat, op: string, fn: Spec.Closure<R>, c: Spec.Captured<R>)
    requires p.Valid() && NeverCounts(fn)
    ensures var r := WithRetrySpec(p, ctx, look, op, fn, c);
            r.err.Some? ==> !IsRetryable(r.err.value)
  {
    RetryLaw(p, ctx, look, op, fn, c);
    var r := WithRetrySpec(p, ctx, look, op, fn, c);
    if r.err.Some? && !CancelledBy(op, r.err) {
      var n := |r.results|;
      assert r.err == fn(1 + (n - 1), After(fn, c, 1, n - 1)).1;
    }
  }

  lemma QuietRun<R(!new)>(cfg: Config, breakers: map<string, Breaker.State>, op: string, env: Spec.Env, look: nat,
                          fn: Spec.Closure<R>, c: Spec.Captured<R>)
    requires Quiet(breakers) && (op in READING_OPERATIONS || NeverCounts(fn))
    ensures Quiet(Spec.RunOp(cfg, breakers, op, env, look, fn, c).breakers)
  {
    if op !in READING_OPERATIONS {
      UncountedError(FromConfig(cfg.retry), env.ctx, look, op, fn, c);
    }
  }

  lemma ReadsNeverCount(key: string, strict: bool, prefix: string, max: int, token: string, id: string)
    ensures NeverCounts(Spec.GetCall(key)) && NeverCounts(Spec.HeadCall(key)) && NeverCounts(Spec.DeleteCall(key, strict))
    ensures NeverCounts(Spec.ListCall(prefix, max, token)) && NeverCounts(Spec.ListPartsCall(id))
    ensures NeverCounts(Spec.AbortCall(id))
  {
  }

  lemma CopyNeverCounts(lib: Library, source: string, target: string, opts: CopyOptions, env: Spec.Env)
    ensures NeverCounts(Spec.CopyCall(lib, source, target, opts, env))
  {
    var fn := Spec.CopyCall(lib, source, target, opts, env);
    forall i: nat, c: Spec.Captured<ObjectInfo> | fn(i, c).1.Some? ensures !IsRetryable(fn(i, c).1.value) {
      var (m, r) := CopyObject(lib.digests, c.mem, source, target, opts, env.clock(i));
      assert fn(i, c) == Spec.Assign(m, c.body, r);
    }
  }

  lemma InitiateNeverCounts(key: string, opts: PutOptions, env: Spec.Env)
    ensures NeverCounts(Spec.InitiateCall(key, opts, env))
  {
    var fn := Spec.InitiateCall(key, opts, env);
    forall i: nat, c: Spec.Captured<string> | fn(i, c).1.Some? ensures !IsRetryable(fn(i, c).1.value) {
      var (m, r) := InitiateMultipart(c.mem, key, opts, env.clock(i));
      assert fn(i, c) == Spec.Assign(m, c.body, r);
    }
  }

  lemma CompleteNeverCounts(lib: Library, id: string, parts: seq<PartETag>, env: Spec.Env)
    ensures NeverCounts(Spec.CompleteCall(lib, id, parts, env))
  {
    var fn := Spec.CompleteCall(lib, id, parts, env);
    forall i: nat, c: Spec.Captured<ObjectInfo> | fn(i, c).1.Some? ensures !IsRetryable(fn(i, c).1.value) {
      var (m, r) := CompleteMultipart(lib.digests, c.mem, id, parts, env.clock(i));
      assert fn(i, c) == Spec.Assign(m, c.body, r);
    }
  }

  lemma QuietDelete(cfg: Config, lib: Library, st: Spec.State, key: string, strict: bool, env: Spec.Env)
    requires Quiet(st.breakers)
    ensures Quiet(Spec.Delete(cfg, lib, st, key, strict, env).0.breakers)
  {
    ReadsNeverCount(key, strict, "", 0, "", "");
    QuietRun(cfg, st.breakers, "head", env, 0, Spec.HeadCall(key), Spec.Captured(st.mem, [], None));
    var checked := Spec.Preflight(cfg, st, key, strict, env).0;
    QuietRun(cfg, checked.breakers, "delete", env, Spec.SecondLook(cfg), Spec.DeleteCall(key, strict), Spec.Captured(checked.mem, [], None));
    QuietRun(cfg, st.breakers, "delete", env, 0, Spec.DeleteCall(key, strict), Spec.Captured(st.mem, [], None));
  }

  lemma QuietRead(cfg: Config, lib: Library, w: World, cmd: Command, env: Spec.Env)
    requires Quiet(w.store.breakers) && (cmd.Get? || cmd.Head? || cmd.Exists? || cmd.List? || cmd.ListParts?)
    ensures Quiet(Step(cfg, lib, w, cmd, env).store.breakers)
  {
    match cmd
    case Get(key, verify) => QuietGet(cfg, lib, w.store, key, verify, env);
    case Head(key) => QuietHead(cfg, lib, w.store, key, env);
    case Exists(key) => QuietHead(cfg, lib, w.store, key, env);
    case List(prefix, maxKeys, token) => QuietList(cfg, w.store, prefix, maxKeys, token, env);
    case ListParts(id) => QuietListParts(cfg, w.store, id, env);
  }

  lemma QuietGet(cfg: Config, lib: Library, st: Spec.State, key: string, verify: bool, env: Spec.Env)
    requires Quiet(st.breakers)
    ensures Quiet(Spec.Get(cfg, lib, st, key, verify, env).0.breakers)
  {
    ReadsNeverCount(key, false, "", 0, "", "");
    QuietRun(cfg, st.breakers, "get", env, 0, Spec.GetCall(key), Spec.Captured(st.mem, [], None));
  }

  lemma QuietList(cfg: Config, st: Spec.State, prefix: string, maxKeys: int, token: string, env: Spec.Env)
    requires Quiet(st.breakers)
    ensures Quiet(Spec.List(cfg, st, prefix, maxKeys, token, env).0.breakers)
  {
    ReadsNeverCount("", false, prefix, PageSize(maxKeys), token, "");
    QuietRun(cfg, st.breakers, "list", env, 0, Spec.ListCall(prefix, PageSize(maxKeys), token), Spec.Captured(st.mem, [], None));
  }

  lemma QuietListParts(cfg: Config, st: Spec.State, id: string, env: Spec.Env)
    requires Quiet(st.breakers)
    ensures Quiet(Spec.ListParts(cfg, st, id, env).0.breakers)
  {
    ReadsNeverCount("", false, "", 0, "", id);
    QuietRun(cfg, st.breakers, "multipart_list_parts", env, 0, Spec.ListPartsCall(id), Spec.Captured(st.mem, [], None));
  }

  lemma QuietHead(cfg: Config, lib: Library, st: Spec.State, key: string, env: Spec.Env)
    requires Quiet(st.breakers)
    ensures Quiet(Spec.Head(cfg, lib, st, key, env).0.breakers)
  {
    ReadsNeverCount(key, false, "", 0, "", "");
    QuietRun(cfg, st.breakers, "head", env, 0, Spec.HeadCall(key), Spec.Captured(st.mem, [], None));
  }

  lemma QuietWrite(cfg: Config, lib: Library, w: World, cmd: Command, env: Spec.Env)
    requires Quiet(w.store.breakers)
    requires cmd.Put? || cmd.Copy? || cmd.Initiate? || cmd.UploadPart? || cmd.Complete? || cmd.Abort?
    ensures Quiet(Step(cfg, lib, w, cmd, env).store.breakers)
  {
    match cmd
    case Put(key, body, opts) => QuietPut(cfg, lib, w.store, key, body, opts, env);
    case Copy(source, target, opts) => QuietCopy(cfg, lib, w.store, source, target, opts, env);
    case Initiate(key, opts) => QuietInitiate(cfg, lib, w.store, key, opts, env);
    case UploadPart(id, number, body) => QuietUploadPart(cfg, lib, w.store, id, number, body, env);
    case Complete(session, id, parts) => QuietComplete(cfg, lib, w.store, Guard(w, session), id, parts, env);
    case Abort(session, id) => QuietAbort(cfg, w.store, Guard(w, session), id, env);
  }

  lemma QuietPut(cfg: Config, lib: Library, st: Spec.State, key: string, body: Body, opts: PutOptions, env: Spec.Env)
    requires Quiet(st.breakers)
    ensures Quiet(Spec.Put(cfg, lib, st, key, body, opts, env).0.breakers)
  {
    QuietRun(cfg, st.breakers, "put", env, 0, Spec.PutCall(lib, key, opts, env), Spec.Captured(st.mem, body, None));
  }

  lemma QuietCopy(cfg: Config, lib: Library, st: Spec.State, source: string, target: string, opts: CopyOptions, env: Spec.Env)
    requires Quiet(st.breakers)
    ensures Quiet(Spec.Copy(cfg, lib, st, source, target, opts, env).0.breakers)
  {
    CopyNeverCounts(lib, source, target, opts, env);
    QuietRun(cfg, st.breakers, "copy", env, 0, Spec.CopyCall(lib, source, target, opts, env), Spec.Captured(st.mem, [], None));
  }

  lemma QuietInitiate(cfg: Config, lib: Library, st: Spec.State, key: string, opts: PutOptions, env: Spec.Env)
    requires Quiet(st.breakers)
    ensures Quiet(Spec.Initiate(cfg, lib, st, key, opts, env).0.breakers)
  {
    InitiateNeverCounts(key, opts, env);
    QuietRun(cfg, st.breakers, "multipart_initiate", env, 0, Spec.InitiateCall(key, opts, env), Spec.Captured(st.mem, [], None));
  }

  lemma QuietUploadPart(cfg: Config, lib: Library, st: Spec.State, id: string, number: int, body: Body, env: Spec.Env)
    requires Quiet(st.breakers)
    ensures Quiet(Spec.UploadPart(cfg, lib, st, id, number, body, env).0.breakers)
  {
    QuietRun(cfg, st.breakers, "multipart_upload_part", env, 0, Spec.UploadPartCall(lib, id, number), Spec.Captured(st.mem, body, None));
  }

  lemma QuietComplete(cfg: Config, lib: Library, st: Spec.State, done: set<string>, id: string, parts: seq<PartETag>, env: Spec.Env)
    requires Quiet(st.breakers)
    ensures Quiet(Spec.Complete(cfg, lib, st, done, id, parts, env).0.breakers)
  {
    CompleteNeverCounts(lib, id, parts, env);
    QuietRun(cfg, st.breakers, "multipart_complete", env, 0, Spec.CompleteCall(lib, id, parts, env), Spec.Captured(st.mem, [], None));
  }

  lemma QuietAbort(cfg: Config, st: Spec.State, done: set<string>, id: string, env: Spec.Env)
    requires Quiet(st.breakers)
    ensures Quiet(Spec.Abort(cfg, st, done, id, env).0.breakers)
  {
    ReadsNeverCount("", false, "", 0, "", id);
    QuietRun(cfg, st.breakers, "multipart_abort", env, 0, Spec.AbortCall(id), Spec.Captured(st.mem, [], None));
  }

  lemma {:induction false} QuietRuns(cfg: Config, lib: Library, events: seq<Event>)
    ensures Quiet(Execute(cfg, lib, START, events).store.breakers)
    decreases |events|
  {
    if events != [] {
      var front, last := events[..|events| - 1], events[|events| - 1];
      QuietRuns(cfg, lib, front);
      var w := Execute(cfg, lib, START, front);
      match last.cmd
      case Delete(key, strict) => QuietDelete(cfg, lib, w.store, key, strict, last.env);
      case Close =>
      case Put(_, _, _) => QuietWrite(cfg, lib, w, last.cmd, last.env);
      case Copy(_, _, _) => QuietWrite(cfg, lib, w, last.cmd, last.env);
      case Initiate(_, _) => QuietWrite(cfg, lib, w, last.cmd, last.env);
      case UploadPart(_, _, _) => QuietWrite(cfg, lib, w, last.cmd, last.env);
      case Complete(_, _, _) => QuietWrite(cfg, lib, w, last.cmd, last.env);
      case Abort(_, _) => QuietWrite(cfg, lib, w, last.cmd, last.env);
      case _ => QuietRead(cfg, lib, w, last.cmd, last.env);
    }
  }

  /** After any run over the in-memory adapter, whatever contexts, clocks and failing readers it met,
      no operation but put and multipart_upload_part can be refused by its breaker. */
  lemma OnlyReadersCanTrip(cfg: Config, lib: Library, events: seq<Event>, op: string, now: int)
    requires op !in READING_OPERATIONS
    ensures Breaker.Admits(Spec.BreakerFor(cfg, Execute(cfg, lib, START, events).store.breakers, op), now)
  {
    QuietRuns(cfg, lib, events);
  }

  // ------------------------------------------------------------------ every interleaving

  // One step on the breaker of an operation: an admission, or the end of a call of do. Calls of do interleave
  // freely, and each attempt of a call finds the adapter as all other operations have left it.
  datatype Move =
    | Admission(at: int)
    | Ending(policy: Retry.Policy, ctx: Context, accesses: nat -> Access, found: nat -> State, at: int)

  function AttemptOn(lib: Library, accesses: nat -> Access, found: nat -> State): Attempt<()> {
    (i: nat, u: ()) => (u, var r := ReplyTo(lib, found(i), accesses(i)); if r.Err? then Some(r.error) else None)
  }

  function Moved(lib: Library, op: string, b: Breaker.State, move: Move): Breaker.State
    requires move.Ending? ==> move.policy.Valid()
  {
    match move
    case Admission(at) => Breaker.AfterAllow(b, at)
    case Ending(policy, ctx, accesses, found, at) =>
      Breaker.Record(b, WithRetrySpec(policy, ctx, 0, op, AttemptOn(lib, accesses, found), ()).err, at)
  }

  // The moves are those of an operation that reads no body.
  ghost predicate ReadsNothing(moves: seq<Move>) {
    forall k :: 0 <= k < |moves| && moves[k].Ending? ==>
      moves[k].policy.Valid() && forall i: nat :: !moves[k].accesses(i).PutAccess? && !moves[k].accesses(i).PartAccess?
  }

  function AfterMoves(lib: Library, op: string, b: Breaker.State, moves: seq<Move>): Breaker.State
    requires forall k :: 0 <= k < |moves| && moves[k].Ending? ==> moves[k].policy.Valid()
  {
    if moves == [] then b
    else Moved(lib, op, AfterMoves(lib, op, b, moves[..|moves| - 1]), moves[|moves| - 1])
  }

  lemma UncountedReply(lib: Library, m: State, a: Access)
    requires !a.PutAccess? && !a.PartAccess?
    ensures ReplyTo(lib, m, a).Err? ==> !IsRetryable(ReplyTo(lib, m, a).error)
  {
  }

  lemma UncountedEnding(lib: Library, op: string, move: Move)
    requires move.Ending? && move.policy.Valid()
    requires forall i: nat :: !move.accesses(i).PutAccess? && !move.accesses(i).PartAccess?
    ensures var err := WithRetrySpec(move.policy, move.ctx, 0, op, AttemptOn(lib, move.accesses, move.found), ()).err;
            err.Some? ==> !IsRetryable(err.value)
  {
    hide ReplyTo;
    var fn := AttemptOn(lib, move.accesses, move.found);
    RetryLaw(move.policy, move.ctx, 0, op, fn, ());
    var r := WithRetrySpec(move.policy, move.ctx, 0, op, fn, ());
    if r.err.Some? && !CancelledBy(op, r.err) {
      var n := |r.results|;
      assert r.err == fn(1 + (n - 1), After(fn, (), 1, n - 1)).1;
      UncountedReply(lib, move.found(n), move.accesses(n));
    }
  }

  /** In every interleaving of any operations over the in-memory adapter, the breaker of an operation that reads
      no body never counts a failure, never opens and refuses no call. */
  lemma {:induction false} InterleavedQuiet(lib: Library, op: string, threshold: int, cooldown: int, moves: seq<Move>)
    requires ReadsNothing(moves)
    ensures var b := AfterMoves(lib, op, Breaker.New(threshold, cooldown), moves);
            Unshaken(b) && forall now: int :: Breaker.Admits(b, now)
    decreases |moves|
  {
    if moves != [] {
      var n := |moves| - 1;
      InterleavedQuiet(lib, op, threshold, cooldown, moves[..n]);
      if moves[n].Ending? { UncountedEnding(lib, op, moves[n]); }
    }
  }

  /** The exception is real: one upload whose reader fails at every attempt counts against put. */
  lemma FailingReaderCounts(cfg: Config, lib: Library, st: Spec.State, key: string, body: Body, opts: PutOptions, env: Spec.Env)
    requires !st.closed && !st.mem.closed && Spec.PutError(cfg, lib, key, opts).None? && NeverCancelled(env.ctx)
    requires "put" !in st.breakers && |body| >= FromConfig(cfg.retry).maxAttempts
    requires forall i :: 0 <= i < |body| ==> body[i].failure.Some?
    ensures var after := Spec.Put(cfg, lib, st, key, body, opts, env).0;
            "put" in after.breakers && after.breakers["put"].failures == 1 && after.mem == st.mem
  {
    var p, fn, c := FromConfig(cfg.retry), Spec.PutCall(lib, key, opts, env), Spec.Captured(st.mem, body, None);
    FailsThrough(p, env.ctx, fn, c, lib, key, opts, env, 1);
  }

  lemma {:induction false} FailsThrough(p: Retry.Policy, ctx: Context, fn: Spec.Closure<ObjectInfo>, c: Spec.Captured<ObjectInfo>,
                                        lib: Library, key: string, opts: PutOptions, env: Spec.Env, attempt: nat)
    requires 1 <= attempt <= p.maxAttempts && NeverCancelled(ctx) && fn == Spec.PutCall(lib, key, opts, env)
    requires !c.mem.closed && |c.body| >= p.maxAttempts - attempt + 1
    requires forall i :: 0 <= i < |c.body| ==> c.body[i].failure.Some?
    ensures var r := Retry.Run(p, ctx, 0, "put", fn, c, attempt);
            r.state.mem == c.mem && r.err.Some? && IsRetryable(r.err.value)
    decreases p.maxAttempts - attempt
  {
    assert c.body != [] && ReadAll(c.body) == (c.body[0], c.body[1..]);
    var (m, b, r) := PutObject(lib.digests, c.mem, key, c.body, opts, env.clock(attempt));
    assert fn(attempt, c) == Spec.Assign(m, b, r);
    var c1 := Spec.Captured(c.mem, c.body[1..], None);
    assert fn(attempt, c).0 == c1;
    if attempt < p.maxAttempts {
      FailsThrough(p, ctx, fn, c1, lib, key, opts, env, attempt + 1);
    }
  }
}
