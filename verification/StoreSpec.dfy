/** The operations of pkg/ossx/blobstore.go and pkg/ossx/multipart.go over the in-memory adapter, as
    functions on values. The classes in Store.dfy implement them. */
module StoreSpec {
  import opened Wrappers
  import opened Errors
  import opened Digests
  import opened Keys
  import opened Policy
  import opened Config
  import opened Memory
  import opened Retry
  import opened Parts
  import Breaker

  datatype State = State(mem: Memory.State, breakers: map<string, Breaker.State>, closed: bool)

  const FRESH := State.State(EMPTY, map[], false)

  // What one call observes from outside: its context, and the clock at each of its readings.
  datatype Env = Env(ctx: Context, clock: nat -> int)

  const CONTEXT_CANCELED := Foreign("context canceled", [])
  const DEADLINE_EXCEEDED := Foreign("context deadline exceeded", [])

  // ctxErrCheck
  function ContextError(ctx: Context): Option<GoError> {
    var e := ctx(0);
    if e.None? then None
    else if e.value == CONTEXT_CANCELED then Some(WrapError(Canceled, "", "operation cancelled", e))
    else if e.value == DEADLINE_EXCEEDED then Some(WrapError(Timeout, "", "operation deadline exceeded", e))
    else Some(WrapError(Canceled, "", "context error", e))
  }

  // checkClosed, then ctxErrCheck: the entry of every operation.
  function Entry(closed: bool, ctx: Context): Option<GoError> {
    if closed then Some(ErrClosed) else ContextError(ctx)
  }

  // ------------------------------------------------------------------ run

  // The variables that an operation's closure captures: the adapter, the body, and the result.
  datatype Captured<+R> = Captured(mem: Memory.State, body: Body, out: Option<R>)

  type Closure<!R> = Attempt<Captured<R>>

  function Assign<R>(mem: Memory.State, body: Body, r: Result<R, GoError>): (Captured<R>, Option<GoError>) {
    match r
    case Ok(v) => (Captured(mem, body, Some(v)), None)
    case Err(e) => (Captured(mem, body, None), Some(e))
  }

  datatype RunResult<+R> = RunResult(breakers: map<string, Breaker.State>, captured: Captured<R>, err: Option<GoError>)

  function BreakerFor(cfg: Config, breakers: map<string, Breaker.State>, op: string): Breaker.State {
    if op in breakers then breakers[op] else Breaker.New(cfg.retry.circuitThreshold, cfg.retry.circuitCooldown)
  }

  // The breaker's do of one run. Context looks and clock readings are numbered from look.
  function DoWith<R>(cfg: Config, b: Breaker.State, op: string, env: Env, look: nat, fn: Closure<R>, c: Captured<R>)
    : Breaker.DoRun<Captured<R>>
  {
    var p := FromConfig(cfg.retry);
    Breaker.DoSpec(b, p, env.ctx, look, op, fn, c, env.clock(look), env.clock(look + p.maxAttempts + 1))
  }

  // Store.run
  function RunOp<R>(cfg: Config, breakers: map<string, Breaker.State>, op: string, env: Env, look: nat,
                    fn: Closure<R>, c: Captured<R>): RunResult<R>
  {
    var r := DoWith(cfg, BreakerFor(cfg, breakers, op), op, env, look, fn, c);
    RunResult(breakers[op := r.breaker], r.state, r.err)
  }

  // Where the readings of a second run within one operation start.
  function SecondLook(cfg: Config): nat {
    2 * FromConfig(cfg.retry).maxAttempts + 2
  }

  // ------------------------------------------------------------------ objects

  function PutCall(lib: Library, key: string, opts: PutOptions, env: Env): Closure<ObjectInfo> {
    (i: nat, c: Captured<ObjectInfo>) =>
      var (m, b, r) := PutObject(lib.digests, c.mem, key, c.body, opts, env.clock(i)); Assign(m, b, r)
  }

  function GetCall(key: string): Closure<(seq<byte>, ObjectInfo)> {
    (i: nat, c: Captured<(seq<byte>, ObjectInfo)>) => Assign(c.mem, c.body, GetObject(c.mem, key))
  }

  function HeadCall(key: string): Closure<ObjectInfo> {
    (i: nat, c: Captured<ObjectInfo>) => Assign(c.mem, c.body, HeadObject(c.mem, key))
  }

  function DeleteCall(key: string, strict: bool): Closure<()> {
    (i: nat, c: Captured<()>) => var (m, e) := DeleteObject(c.mem, key, strict); (Captured(m, c.body, None), e)
  }

  function CopyCall(lib: Library, source: string, target: string, opts: CopyOptions, env: Env): Closure<ObjectInfo> {
    (i: nat, c: Captured<ObjectInfo>) =>
      var (m, r) := CopyObject(lib.digests, c.mem, source, target, opts, env.clock(i)); Assign(m, c.body, r)
  }

  function ListCall(prefix: string, max: int, token: string): Closure<ListPage> {
    (i: nat, c: Captured<ListPage>) => Assign(c.mem, c.body, ListObjects(c.mem, prefix, max, token))
  }

  // validateChecksumAlgo
  function ChecksumAlgoError(alg: Algorithm, allowed: seq<Algorithm>): Option<GoError> {
    if allowed == [] then
      if Supported(alg) then None else Some(NewError(ErrorKind.Config, "checksum", "unsupported algorithm"))
    else if alg in allowed then None
    else Some(NewError(ErrorKind.Config, "checksum", "algorithm not in policy"))
  }

  function KeyError(lib: Library, key: string): Option<GoError> {
    var r := NewKey(lib, key);
    if r.Err? then Some(r.error) else None
  }

  function First(a: Option<GoError>, b: Option<GoError>): Option<GoError> {
    if a.Some? then a else b
  }

  // Everything Put checks before it calls the adapter.
  function PutError(cfg: Config, lib: Library, key: string, opts: PutOptions): Option<GoError> {
    First(KeyError(lib, key),
    First(ValidateMetadata(opts.metadata),
    First(if opts.algorithm == NoAlgorithm then None else ChecksumAlgoError(opts.algorithm, cfg.algorithms),
          KeyPolicyError(cfg.permission, key))))
  }

  // The result that an operation returns: the captured value, or the error of run.
  function Returned<R>(r: RunResult<R>): Result<Option<R>, GoError> {
    if r.err.Some? then Err(r.err.value) else Ok(r.captured.out)
  }

  function After<R>(st: State, r: RunResult<R>): State {
    State.State(r.captured.mem, r.breakers, st.closed)
  }

  function Put(cfg: Config, lib: Library, st: State, key: string, body: Body, opts: PutOptions, env: Env)
    : (State, Body, Result<Option<ObjectInfo>, GoError>)
  {
    var e := First(Entry(st.closed, env.ctx), PutError(cfg, lib, key, opts));
    if e.Some? then (st, body, Err(e.value))
    else
      var r := RunOp(cfg, st.breakers, "put", env, 0, PutCall(lib, key, opts, env), Captured(st.mem, body, None));
      (After(st, r), r.captured.body, Returned(r))
  }

  // The reader that Get returns: its content and info, and whether it was wrapped by the verifier.
  datatype Reader = Reader(content: seq<byte>, info: ObjectInfo, verifying: bool)

  // The reader over what the adapter returned, wrapped by the verifier when asked for and possible.
  function ReaderOf(r: RunResult<(seq<byte>, ObjectInfo)>, verify: bool): Result<Option<Reader>, GoError> {
    if r.err.Some? then Err(r.err.value)
    else if r.captured.out.None? then Ok(None)
    else
      var (content, info) := r.captured.out.value;
      Ok(Some(Reader(content, info, verify && Supported(info.checksumAlgo) && info.checksumHex != "")))
  }

  function Get(cfg: Config, lib: Library, st: State, key: string, verify: bool, env: Env)
    : (State, Result<Option<Reader>, GoError>)
  {
    var e := First(Entry(st.closed, env.ctx), KeyError(lib, key));
    if e.Some? then (st, Err(e.value))
    else
      var r := RunOp(cfg, st.breakers, "get", env, 0, GetCall(key), Captured(st.mem, [], None));
      (After(st, r), ReaderOf(r, verify))
  }

  function Head(cfg: Config, lib: Library, st: State, key: string, env: Env)
    : (State, Result<Option<ObjectInfo>, GoError>)
  {
    var e := First(Entry(st.closed, env.ctx), KeyError(lib, key));
    if e.Some? then (st, Err(e.value))
    else
      var r := RunOp(cfg, st.breakers, "head", env, 0, HeadCall(key), Captured(st.mem, [], None));
      (After(st, r), Returned(r))
  }

  predicate IsNotFound(e: GoError) {
    FindTyped(e).Some? && FindTyped(e).value.kind == NotFound
  }

  function Exists(cfg: Config, lib: Library, st: State, key: string, env: Env): (State, Result<bool, GoError>) {
    var (after, r) := Head(cfg, lib, st, key, env);
    (after, if r.Ok? then Ok(true) else if IsNotFound(r.error) then Ok(false) else Err(r.error))
  }

  // The last part of Delete: the adapter call, with a missing object forgiven unless strict.
  function DeleteStored(cfg: Config, st: State, key: string, strict: bool, env: Env, look: nat)
    : (State, Option<GoError>)
  {
    var r := RunOp(cfg, st.breakers, "delete", env, look, DeleteCall(key, strict), Captured(st.mem, [], None));
    (After(st, r), if r.err.Some? && IsNotFound(r.err.value) && !strict then None else r.err)
  }

  // The Head and retention gate before it: a failing Head stops only a strict delete.
  function Refusal(cfg: Config, h: RunResult<ObjectInfo>, strict: bool, now: int): Option<GoError> {
    if h.err.Some? then (if strict then h.err else None)
    else if cfg.retention.Enabled() && h.captured.out.Some? then
      RetentionError(cfg.retention, h.captured.out.value.createdAt, now)
    else None
  }

  function Preflight(cfg: Config, st: State, key: string, strict: bool, env: Env): (State, Option<GoError>) {
    var h := RunOp(cfg, st.breakers, "head", env, 0, HeadCall(key), Captured(st.mem, [], None));
    (After(st, h), Refusal(cfg, h, strict, env.clock(SecondLook(cfg) - 1)))
  }

  function Delete(cfg: Config, lib: Library, st: State, key: string, strict: bool, env: Env): (State, Option<GoError>) {
    var e := First(Entry(st.closed, env.ctx), KeyError(lib, key));
    if e.Some? then (st, e)
    else if strict || cfg.retention.Enabled() then
      var (checked, refused) := Preflight(cfg, st, key, strict, env);
      if refused.Some? then (checked, refused)
      else DeleteStored(cfg, checked, key, strict, env, SecondLook(cfg))
    else DeleteStored(cfg, st, key, strict, env, 0)
  }

  function CopyError(cfg: Config, lib: Library, source: string, target: string): Option<GoError> {
    First(KeyError(lib, source), First(KeyError(lib, target), KeyPolicyError(cfg.permission, target)))
  }

  function Copy(cfg: Config, lib: Library, st: State, source: string, target: string, opts: CopyOptions, env: Env)
    : (State, Result<Option<ObjectInfo>, GoError>)
  {
    var e := First(Entry(st.closed, env.ctx), CopyError(cfg, lib, source, target));
    if e.Some? then (st, Err(e.value))
    else
      var r := RunOp(cfg, st.breakers, "copy", env, 0, CopyCall(lib, source, target, opts, env), Captured(st.mem, [], None));
      (After(st, r), Returned(r))
  }

  function List(cfg: Config, st: State, prefix: string, maxKeys: int, token: string, env: Env)
    : (State, Result<Option<ListPage>, GoError>)
  {
    var e := Entry(st.closed, env.ctx);
    if e.Some? then (st, Err(e.value))
    else
      var r := RunOp(cfg, st.breakers, "list", env, 0, ListCall(prefix, PageSize(maxKeys), token), Captured(st.mem, [], None));
      (After(st, r), Returned(r))
  }

  function Close(st: State): State {
    if st.closed then st else st.(closed := true, mem := Memory.Close(st.mem))
  }

  // ------------------------------------------------------------------ multipart sessions

  function InitiateCall(key: string, opts: PutOptions, env: Env): Closure<string> {
    (i: nat, c: Captured<string>) =>
      var (m, r) := InitiateMultipart(c.mem, key, opts, env.clock(i)); Assign(m, c.body, r)
  }

  function UploadPartCall(lib: Library, id: string, number: int): Closure<PartETag> {
    (i: nat, c: Captured<PartETag>) =>
      var (m, b, r) := Memory.UploadPart(lib.digests, c.mem, id, number, c.body); Assign(m, b, r)
  }

  function ListPartsCall(id: string): Closure<seq<PartETag>> {
    (i: nat, c: Captured<seq<PartETag>>) => Assign(c.mem, c.body, Memory.ListParts(c.mem, id))
  }

  function CompleteCall(lib: Library, id: string, parts: seq<PartETag>, env: Env): Closure<ObjectInfo> {
    (i: nat, c: Captured<ObjectInfo>) =>
      var (m, r) := CompleteMultipart(lib.digests, c.mem, id, parts, env.clock(i)); Assign(m, c.body, r)
  }

  function AbortCall(id: string): Closure<()> {
    (i: nat, c: Captured<()>) => (Captured(AbortMultipart(c.mem, id), c.body, None), None)
  }

  function InitiateError(cfg: Config, lib: Library, key: string, opts: PutOptions): Option<GoError> {
    First(KeyError(lib, key), First(ValidateMetadata(opts.metadata), KeyPolicyError(cfg.permission, key)))
  }

  function Initiate(cfg: Config, lib: Library, st: State, key: string, opts: PutOptions, env: Env)
    : (State, Result<Option<string>, GoError>)
  {
    var e := First(Entry(st.closed, env.ctx), InitiateError(cfg, lib, key, opts));
    if e.Some? then (st, Err(e.value))
    else
      var r := RunOp(cfg, st.breakers, "multipart_initiate", env, 0, InitiateCall(key, opts, env), Captured(st.mem, [], None));
      (After(st, r), Returned(r))
  }

  function PartNumberError(cfg: Config, number: int): Option<GoError> {
    if number < 1 then Some(NewError(Validation, "UploadPart", "part number must be >= 1"))
    else if cfg.maxParts > 0 && number > cfg.maxParts then
      Some(NewError(Validation, "UploadPart", "part number exceeds MaxParts"))
    else None
  }

  const NUMBER_MISMATCH := NewError(Validation, "UploadPart", "part number mismatch")
  const EMPTY_ETAG := NewError(Validation, "UploadPart", "empty ETag returned")

  function UploadPart(cfg: Config, lib: Library, st: State, id: string, number: int, body: Body, env: Env)
    : (State, Body, Result<Option<PartETag>, GoError>)
  {
    var e := First(Entry(st.closed, env.ctx), PartNumberError(cfg, number));
    if e.Some? then (st, body, Err(e.value))
    else
      var r := RunOp(cfg, st.breakers, "multipart_upload_part", env, 0, UploadPartCall(lib, id, number), Captured(st.mem, body, None));
      (After(st, r), r.captured.body,
       match Returned(r)
       case Ok(Some(part)) =>
         if part.partNumber != number then Err(NUMBER_MISMATCH)
         else if part.etag == "" then Err(EMPTY_ETAG)
         else Ok(Some(part))
       case other => other)
  }

  function ListParts(cfg: Config, st: State, id: string, env: Env): (State, Result<Option<seq<PartETag>>, GoError>) {
    var e := Entry(st.closed, env.ctx);
    if e.Some? then (st, Err(e.value))
    else
      var r := RunOp(cfg, st.breakers, "multipart_list_parts", env, 0, ListPartsCall(id), Captured(st.mem, [], None));
      (After(st, r), Returned(r))
  }

  const ALREADY_DONE := NewError(Conflict, "Complete", "upload already completed or aborted")

  // After the mark: the mark stays if and only if the adapter call succeeds.
  function CompleteMarked(cfg: Config, lib: Library, st: State, done: set<string>, id: string, parts: seq<PartETag>, env: Env)
    : (State, set<string>, Result<Option<ObjectInfo>, GoError>)
  {
    var r := RunOp(cfg, st.breakers, "multipart_complete", env, 0, CompleteCall(lib, id, parts, env), Captured(st.mem, [], None));
    (After(st, r), if r.err.Some? then done - {id} else done, Returned(r))
  }

  // done is the session's guard set.
  function Complete(cfg: Config, lib: Library, st: State, done: set<string>, id: string, parts: seq<PartETag>, env: Env)
    : (State, set<string>, Result<Option<ObjectInfo>, GoError>)
  {
    var e := First(Entry(st.closed, env.ctx), PartsError(parts, cfg.maxParts));
    if e.Some? then (st, done, Err(e.value))
    else if id in done then (st, done, Err(ALREADY_DONE))
    else CompleteMarked(cfg, lib, st, done + {id}, id, parts, env)
  }

  function Abort(cfg: Config, st: State, done: set<string>, id: string, env: Env): (State, set<string>, Option<GoError>) {
    var e := Entry(st.closed, env.ctx);
    if e.Some? then (st, done, e)
    else
      var r := RunOp(cfg, st.breakers, "multipart_abort", env, 0, AbortCall(id), Captured(st.mem, [], None));
      (After(st, r), done + {id}, r.err)
  }
}
