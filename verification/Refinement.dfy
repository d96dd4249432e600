/** The store over the in-memory adapter behaves as a map from keys to objects, and what happens at the
    edge of that claim: readers that fail, contexts that are cancelled. */
module Refinement {
  import opened Wrappers
  import opened Errors
  import opened Digests
  import opened Keys
  import opened Policy
  import opened Config
  import opened Memory
  import opened Retry
  import Breaker
  import Spec = StoreSpec
  import opened Isolation
  import opened Refusals
  import Invariants

  // ------------------------------------------------------------------ the reference map

  // An object as its callers think of it.
  datatype Item = Item(body: seq<byte>, contentType: string, metadata: Meta, tags: Meta, algorithm: Algorithm, createdAt: int)

  type Table = map<string, Item>

  datatype Request =
    | Put(key: string, data: seq<byte>, opts: PutOptions)
    | Get(key: string, verify: bool)
    | Head(key: string)
    | Exists(key: string)
    | Copy(source: string, target: string, copyOpts: CopyOptions)
    | Delete(key: string, strict: bool)

  datatype Reply =
    | Described(info: ObjectInfo)
    | Opened(reader: Spec.Reader)
    | Answer(present: bool)
    | Done
    | Failed(error: GoError)

  function Describe(d: Digests, key: string, item: Item): ObjectInfo {
    Info(key, |item.body|, item.contentType, item.metadata, item.tags, item.algorithm,
         ComputeChecksum(d, item.algorithm, item.body), ObjectETag(d, item.body), Some(item.createdAt))
  }

  // Retention keeps an object for its first MaxDays days.
  predicate Protected(cfg: Config, item: Item, now: int) {
    cfg.retention.Enabled() && cfg.retention.maxDays > 0 && now - item.createdAt < cfg.retention.maxDays * DAY
  }

  function CopiedItem(item: Item, opts: CopyOptions, now: int): Item {
    item.(contentType := if opts.contentType == "" then item.contentType else opts.contentType,
          metadata := if opts.metadata.None? then item.metadata else opts.metadata,
          createdAt := now)
  }

  function NewItem(data: seq<byte>, opts: PutOptions, now: int): Item {
    Item(data, opts.contentType, opts.metadata, opts.tags, opts.algorithm, now)
  }

  /** Put stores, Get and Head describe what is stored, Copy stores what the source has with the
      overrides, Delete removes unless retention protects the object. Bad arguments are refused, and a
      forbidden key to a write. Nothing else changes. */
  ghost function Reference(cfg: Config, lib: Library, t: Table, req: Request, now: int): (Table, Reply) {
    var d := lib.digests;
    match req
    case Put(key, data, opts) =>
      var e := PutRefusal(cfg, lib, key, opts);
      var item := NewItem(data, opts, now);
      if e.Some? then (t, Failed(e.value)) else (t[key := item], Described(Describe(d, key, item)))
    case Get(key, verify) =>
      var e := KeyRefusal(lib, key);
      (t, if e.Some? then Failed(e.value)
          else if key !in t then Failed(ErrNotFound)
          else Opened(Spec.Reader(t[key].body, Describe(d, key, t[key]), verify && t[key].algorithm != NoAlgorithm)))
    case Head(key) =>
      var e := KeyRefusal(lib, key);
      (t, if e.Some? then Failed(e.value)
          else if key !in t then Failed(ErrNotFound) else Described(Describe(d, key, t[key])))
    case Exists(key) =>
      var e := KeyRefusal(lib, key);
      (t, if e.Some? then Failed(e.value) else Answer(key in t))
    case Copy(source, target, opts) =>
      var e := CopyRefusal(cfg, lib, source, target);
      if e.Some? then (t, Failed(e.value))
      else if source !in t then (t, Failed(ErrNotFound))
      else
        var item := CopiedItem(t[source], opts, now);
        (t[target := item], Described(Describe(d, target, item)))
    case Delete(key, strict) =>
      var e := KeyRefusal(lib, key);
      if e.Some? then (t, Failed(e.value))
      else if key !in t then (t, if strict then Failed(ErrNotFound) else Done)
      else if Protected(cfg, t[key], now) then (t, Failed(TOO_YOUNG))
      else (t - {key}, Done)
  }

  // ------------------------------------------------------------------ the store

  function Describes(r: Result<Option<ObjectInfo>, GoError>): Reply {
    if r.Err? then Failed(r.error) else if r.value.Some? then Described(r.value.value) else Done
  }

  function Actual(cfg: Config, lib: Library, st: Spec.State, req: Request, env: Spec.Env): (Spec.State, Reply) {
    match req
    case Put(key, data, opts) =>
      var r := Spec.Put(cfg, lib, st, key, [Episode(data, None)], opts, env); (r.0, Describes(r.2))
    case Get(key, verify) =>
      var r := Spec.Get(cfg, lib, st, key, verify, env);
      (r.0, if r.1.Err? then Failed(r.1.error) else if r.1.value.Some? then Opened(r.1.value.value) else Done)
    case Head(key) => var r := Spec.Head(cfg, lib, st, key, env); (r.0, Describes(r.1))
    case Exists(key) =>
      var r := Spec.Exists(cfg, lib, st, key, env); (r.0, if r.1.Err? then Failed(r.1.error) else Answer(r.1.value))
    case Copy(source, target, opts) =>
      var r := Spec.Copy(cfg, lib, st, source, target, opts, env); (r.0, Describes(r.1))
    case Delete(key, strict) =>
      var r := Spec.Delete(cfg, lib, st, key, strict, env); (r.0, if r.1.Some? then Failed(r.1.value) else Done)
  }

  // The clock reading that a request depends on: of the adapter call, or of Delete's retention gate.
  function ReadingOf(cfg: Config, req: Request, env: Spec.Env): int {
    if req.Delete? then env.clock(Spec.SecondLook(cfg) - 1) else env.clock(1)
  }

  // ------------------------------------------------------------------ one request

  function Stored(d: Digests, item: Item): Object {
    Object(item.body, item.contentType, item.metadata, item.tags, ObjectETag(d, item.body),
           ComputeChecksum(d, item.algorithm, item.body), item.createdAt)
  }

  ghost predicate Usable(cfg: Config) {
    Sound(cfg) && (cfg.retention.Enabled() ==> cfg.retention.maxDays <= LONGEST_RETENTION_DAYS)
  }

  ghost predicate Undisturbed(breakers: map<string, Breaker.State>) {
    forall op :: op in breakers ==> Unshaken(breakers[op])
  }

  ghost predicate KnownAlgorithm(alg: Algorithm) {
    alg == NoAlgorithm || Supported(alg)
  }

  /** The adapter holds exactly the items of t, with derived tags and checksums. */
  ghost predicate Holds(lib: Library, m: State, t: Table) {
    && !m.closed && m.objects.Keys == t.Keys
    && forall k :: k in t ==> m.objects[k] == Stored(lib.digests, t[k]) && KnownAlgorithm(t[k].algorithm)
  }

  ghost predicate Represents(lib: Library, st: Spec.State, t: Table) {
    !st.closed && Undisturbed(st.breakers) && Holds(lib, st.mem, t)
  }

  // ------------------------------------------------------------------ the adapter's effect on the items

  lemma InfoOfStored(d: Digests, key: string, item: Item)
    requires KnownAlgorithm(item.algorithm)
    ensures InfoOf(key, Stored(d, item)) == Describe(d, key, item)
    ensures ComputeChecksum(d, item.algorithm, item.body) == "" <==> item.algorithm == NoAlgorithm
  {
    InferInvertsCompute(d, item.algorithm, item.body);
  }

  lemma PutEffect(lib: Library, m: State, t: Table, key: string, data: seq<byte>, opts: PutOptions, now: int)
    requires Holds(lib, m, t) && KnownAlgorithm(opts.algorithm)
    ensures var r := PutObject(lib.digests, m, key, [Episode(data, None)], opts, now);
            Holds(lib, r.0, t[key := NewItem(data, opts, now)])
            && r.2 == Ok(Describe(lib.digests, key, NewItem(data, opts, now)))
  {
    var item := NewItem(data, opts, now);
    InfoOfStored(lib.digests, key, item);
    assert NewObject(lib.digests, data, opts, now) == Stored(lib.digests, item);
  }

  lemma GetEffect(lib: Library, m: State, t: Table, key: string)
    requires Holds(lib, m, t)
    ensures GetObject(m, key) == if key in t then Ok((t[key].body, Describe(lib.digests, key, t[key]))) else Err(ErrNotFound)
    ensures HeadObject(m, key) == if key in t then Ok(Describe(lib.digests, key, t[key])) else Err(ErrNotFound)
  {
    if key in t { InfoOfStored(lib.digests, key, t[key]); }
  }

  lemma CopiedIsStored(d: Digests, item: Item, opts: CopyOptions, now: int)
    ensures CopiedObject(d, Stored(d, item), opts, now) == Stored(d, CopiedItem(item, opts, now))
  {
    hide ComputeChecksum, ObjectETag;
  }

  lemma CopyEffect(lib: Library, m: State, t: Table, source: string, target: string, opts: CopyOptions, now: int)
    requires Holds(lib, m, t)
    ensures var r := CopyObject(lib.digests, m, source, target, opts, now);
            if source in t
            then Holds(lib, r.0, t[target := CopiedItem(t[source], opts, now)])
                 && r.1 == Ok(Describe(lib.digests, target, CopiedItem(t[source], opts, now)))
            else r == (m, Err(ErrNotFound))
  {
    hide Stored, CopiedObject, Describe, InfoOf;
    if source in t {
      InfoOfStored(lib.digests, target, CopiedItem(t[source], opts, now));
      CopiedIsStored(lib.digests, t[source], opts, now);
    }
  }

  lemma DeleteEffect(lib: Library, m: State, t: Table, key: string, strict: bool)
    requires Holds(lib, m, t)
    ensures var r := DeleteObject(m, key, strict);
            Holds(lib, r.0, t - {key}) && r.1 == if key !in t && strict then Some(ErrNotFound) else None
  {
    assert key !in t ==> t - {key} == t;
  }

  // ------------------------------------------------------------------ one run

  /** With the breaker closed and the context live, an operation whose first call does not fail
      retryably is that one call. */
  lemma SingleCall<R>(cfg: Config, breakers: map<string, Breaker.State>, op: string, env: Spec.Env, look: nat,
                      fn: Spec.Closure<R>, c: Spec.Captured<R>)
    requires Undisturbed(breakers) && NeverCancelled(env.ctx)
    requires fn(1, c).1.Some? ==> !RetryableFailure(fn(1, c).1) && !IsRetryable(fn(1, c).1.value)
    ensures var r := Spec.RunOp(cfg, breakers, op, env, look, fn, c);
            Undisturbed(r.breakers) && r.captured == fn(1, c).0 && r.err == fn(1, c).1
  {
  }

  // The outcome of an operation on state st: its new state and what it returns.
  ghost predicate Outcome<R>(lib: Library, st: Spec.State, r: Spec.RunResult<R>, t: Table, result: Result<R, GoError>) {
    && Represents(lib, Spec.After(st, r), t)
    && Spec.Returned(r) == if result.Ok? then Ok(Some(result.value)) else Err(result.error)
  }

  lemma PutRun(cfg: Config, lib: Library, st: Spec.State, t: Table, key: string, data: seq<byte>, opts: PutOptions, env: Spec.Env)
    requires NeverCancelled(env.ctx) && Represents(lib, st, t) && KnownAlgorithm(opts.algorithm)
    ensures var item := NewItem(data, opts, env.clock(1));
            Outcome(lib, st, Spec.RunOp(cfg, st.breakers, "put", env, 0, Spec.PutCall(lib, key, opts, env),
                                        Spec.Captured(st.mem, [Episode(data, None)], None)),
                    t[key := item], Ok(Describe(lib.digests, key, item)))
  {
    var fn, body, now := Spec.PutCall(lib, key, opts, env), [Episode(data, None)], env.clock(1);
    var c := Spec.Captured(st.mem, body, None);
    PutEffect(lib, st.mem, t, key, data, opts, now);
    var (m, b, r) := PutObject(lib.digests, st.mem, key, body, opts, now);
    assert fn(1, c) == Spec.Assign(m, b, r);
    SingleCall(cfg, st.breakers, "put", env, 0, fn, c);
  }

  lemma GetRun(cfg: Config, lib: Library, st: Spec.State, t: Table, key: string, env: Spec.Env)
    requires NeverCancelled(env.ctx) && Represents(lib, st, t)
    ensures Outcome(lib, st, Spec.RunOp(cfg, st.breakers, "get", env, 0, Spec.GetCall(key), Spec.Captured(st.mem, [], None)), t,
                    if key in t then Ok((t[key].body, Describe(lib.digests, key, t[key]))) else Err(ErrNotFound))
  {
    var fn := Spec.GetCall(key);
    var c := Spec.Captured(st.mem, [], None);
    GetEffect(lib, st.mem, t, key);
    assert fn(1, c) == Spec.Assign(st.mem, [], GetObject(st.mem, key));
    SingleCall(cfg, st.breakers, "get", env, 0, fn, c);
  }

  lemma HeadRun(cfg: Config, lib: Library, st: Spec.State, t: Table, key: string, env: Spec.Env)
    requires NeverCancelled(env.ctx) && Represents(lib, st, t)
    ensures Outcome(lib, st, Spec.RunOp(cfg, st.breakers, "head", env, 0, Spec.HeadCall(key), Spec.Captured(st.mem, [], None)), t,
                    if key in t then Ok(Describe(lib.digests, key, t[key])) else Err(ErrNotFound))
  {
    var fn := Spec.HeadCall(key);
    var c := Spec.Captured(st.mem, [], None);
    GetEffect(lib, st.mem, t, key);
    assert fn(1, c) == Spec.Assign(st.mem, [], HeadObject(st.mem, key));
    SingleCall(cfg, st.breakers, "head", env, 0, fn, c);
  }

  lemma CopyRun(cfg: Config, lib: Library, st: Spec.State, t: Table, source: string, target: string, opts: CopyOptions, env: Spec.Env)
    requires NeverCancelled(env.ctx) && Represents(lib, st, t)
    ensures var r := Spec.RunOp(cfg, st.breakers, "copy", env, 0, Spec.CopyCall(lib, source, target, opts, env), Spec.Captured(st.mem, [], None));
            if source in t
            then Outcome(lib, st, r, t[target := CopiedItem(t[source], opts, env.clock(1))],
                         Ok(Describe(lib.digests, target, CopiedItem(t[source], opts, env.clock(1)))))
            else Outcome(lib, st, r, t, Err(ErrNotFound))
  {
    var fn, now := Spec.CopyCall(lib, source, target, opts, env), env.clock(1);
    var c := Spec.Captured(st.mem, [], None);
    CopyEffect(lib, st.mem, t, source, target, opts, now);
    var (m, r) := CopyObject(lib.digests, st.mem, source, target, opts, now);
    assert fn(1, c) == Spec.Assign(m, [], r);
    SingleCall(cfg, st.breakers, "copy", env, 0, fn, c);
  }

  lemma DeleteStoredRun(cfg: Config, lib: Library, st: Spec.State, t: Table, key: string, strict: bool, env: Spec.Env, look: nat)
    requires NeverCancelled(env.ctx) && Represents(lib, st, t)
    ensures var r := Spec.DeleteStored(cfg, st, key, strict, env, look);
            Represents(lib, r.0, t - {key}) && r.1 == if key !in t && strict then Some(ErrNotFound) else None
  {
    var fn := Spec.DeleteCall(key, strict);
    var c := Spec.Captured(st.mem, [], None);
    DeleteEffect(lib, st.mem, t, key, strict);
    var (m, e) := DeleteObject(st.mem, key, strict);
    assert fn(1, c) == (Spec.Captured(m, [], None), e);
    SingleCall(cfg, st.breakers, "delete", env, look, fn, c);
  }

  lemma PreflightRun(cfg: Config, lib: Library, st: Spec.State, t: Table, key: string, strict: bool, env: Spec.Env)
    requires Usable(cfg) && NeverCancelled(env.ctx) && Represents(lib, st, t)
    ensures var r := Spec.Preflight(cfg, st, key, strict, env);
            && Represents(lib, r.0, t)
            && r.1 == if key !in t then (if strict then Some(ErrNotFound) else None)
                      else if Protected(cfg, t[key], env.clock(Spec.SecondLook(cfg) - 1)) then Some(TOO_YOUNG) else None
  {
    hide Spec.RunOp, Holds;
    HeadRun(cfg, lib, st, t, key, env);
    var h := Spec.RunOp(cfg, st.breakers, "head", env, 0, Spec.HeadCall(key), Spec.Captured(st.mem, [], None));
    RefusalAgrees(cfg, lib, st, t, key, h, strict, env.clock(Spec.SecondLook(cfg) - 1));
  }

  lemma RefusalAgrees(cfg: Config, lib: Library, st: Spec.State, t: Table, key: string, h: Spec.RunResult<ObjectInfo>,
                      strict: bool, now: int)
    requires Usable(cfg)
    requires Outcome(lib, st, h, t, if key in t then Ok(Describe(lib.digests, key, t[key])) else Err(ErrNotFound))
    ensures Spec.Refusal(cfg, h, strict, now)
            == if key !in t then (if strict then Some(ErrNotFound) else None)
               else if Protected(cfg, t[key], now) then Some(TOO_YOUNG) else None
  {
    if key in t { RetentionAgrees(cfg, t[key], now); }
  }

  lemma RetentionAgrees(cfg: Config, item: Item, now: int)
    requires Usable(cfg)
    ensures RetentionError(cfg.retention, Some(item.createdAt), now) == if Protected(cfg, item, now) then Some(TOO_YOUNG) else None
  {
    if cfg.retention.Enabled() && cfg.retention.maxDays >= 1 {
      WithinRange(cfg.retention);
    }
  }

  // ------------------------------------------------------------------ one request

  ghost predicate Matches(cfg: Config, lib: Library, st: Spec.State, t: Table, req: Request, env: Spec.Env) {
    var reference := Reference(cfg, lib, t, req, ReadingOf(cfg, req, env));
    var actual := Actual(cfg, lib, st, req, env);
    actual.1 == reference.1 && Represents(lib, actual.0, reference.0)
  }

  lemma AcceptedAlgorithm(cfg: Config, lib: Library, key: string, opts: PutOptions)
    requires Usable(cfg) && Spec.PutError(cfg, lib, key, opts).None?
    ensures KnownAlgorithm(opts.algorithm)
  {
  }

  lemma PutMatches(cfg: Config, lib: Library, st: Spec.State, t: Table, key: string, data: seq<byte>, opts: PutOptions, env: Spec.Env)
    requires Usable(cfg) && NeverCancelled(env.ctx) && Represents(lib, st, t)
    ensures Matches(cfg, lib, st, t, Put(key, data, opts), env)
  {
    hide Spec.RunOp, Holds, Spec.PutError, PutRefusal;
    PutRefusalExact(cfg, lib, key, opts);
    if Spec.PutError(cfg, lib, key, opts).None? {
      AcceptedAlgorithm(cfg, lib, key, opts);
      PutRun(cfg, lib, st, t, key, data, opts, env);
    }
  }

  lemma GetMatches(cfg: Config, lib: Library, st: Spec.State, t: Table, key: string, verify: bool, env: Spec.Env)
    requires Usable(cfg) && NeverCancelled(env.ctx) && Represents(lib, st, t)
    ensures Matches(cfg, lib, st, t, Get(key, verify), env)
  {
    hide Spec.RunOp, Holds, Spec.KeyError, KeyRefusal;
    KeyRefusalExact(lib, key);
    GetRun(cfg, lib, st, t, key, env);
    var r := Spec.RunOp(cfg, st.breakers, "get", env, 0, Spec.GetCall(key), Spec.Captured(st.mem, [], None));
    ReaderAgrees(lib, st, t, key, r, verify);
  }

  lemma ReaderAgrees(lib: Library, st: Spec.State, t: Table, key: string, r: Spec.RunResult<(seq<byte>, ObjectInfo)>, verify: bool)
    requires Holds(lib, st.mem, t)
    requires Outcome(lib, st, r, t, if key in t then Ok((t[key].body, Describe(lib.digests, key, t[key]))) else Err(ErrNotFound))
    ensures Spec.ReaderOf(r, verify)
            == if key in t
               then Ok(Some(Spec.Reader(t[key].body, Describe(lib.digests, key, t[key]), verify && t[key].algorithm != NoAlgorithm)))
               else Err(ErrNotFound)
  {
    if key in t { InfoOfStored(lib.digests, key, t[key]); }
  }

  lemma HeadMatches(cfg: Config, lib: Library, st: Spec.State, t: Table, key: string, env: Spec.Env)
    requires Usable(cfg) && NeverCancelled(env.ctx) && Represents(lib, st, t)
    ensures Matches(cfg, lib, st, t, Head(key), env)
  {
    hide Spec.RunOp, Holds, Spec.KeyError, KeyRefusal;
    KeyRefusalExact(lib, key);
    HeadRun(cfg, lib, st, t, key, env);
  }

  // Exists reports a malformed key as an error, not as absent.
  lemma ExistsMatches(cfg: Config, lib: Library, st: Spec.State, t: Table, key: string, env: Spec.Env)
    requires Usable(cfg) && NeverCancelled(env.ctx) && Represents(lib, st, t)
    ensures Matches(cfg, lib, st, t, Exists(key), env)
  {
    hide Spec.RunOp, Holds, Spec.KeyError, KeyProblem, WellFormed;
    HeadMatches(cfg, lib, st, t, key, env);
    KeyRefusalExact(lib, key);
    KeyAtFault(lib, key);
  }

  lemma CopyMatches(cfg: Config, lib: Library, st: Spec.State, t: Table, source: string, target: string, opts: CopyOptions, env: Spec.Env)
    requires Usable(cfg) && NeverCancelled(env.ctx) && Represents(lib, st, t)
    ensures Matches(cfg, lib, st, t, Copy(source, target, opts), env)
  {
    hide Spec.RunOp, Holds, Spec.CopyError, CopyRefusal;
    CopyRefusalExact(cfg, lib, source, target);
    CopyRun(cfg, lib, st, t, source, target, opts, env);
  }

  lemma DeleteMatches(cfg: Config, lib: Library, st: Spec.State, t: Table, key: string, strict: bool, env: Spec.Env)
    requires Usable(cfg) && NeverCancelled(env.ctx) && Represents(lib, st, t)
    ensures Matches(cfg, lib, st, t, Delete(key, strict), env)
  {
    hide Spec.RunOp, Holds, Spec.Preflight, Spec.DeleteStored, Spec.KeyError, KeyRefusal;
    KeyRefusalExact(lib, key);
    if Spec.KeyError(lib, key).None? {
      assert key !in t ==> t - {key} == t;
      if strict || cfg.retention.Enabled() {
        PreflightRun(cfg, lib, st, t, key, strict, env);
        DeleteStoredRun(cfg, lib, Spec.Preflight(cfg, st, key, strict, env).0, t, key, strict, env, Spec.SecondLook(cfg));
      } else {
        DeleteStoredRun(cfg, lib, st, t, key, strict, env, 0);
      }
    }
  }

  // ------------------------------------------------------------------ every run

  datatype Turn = Turn(req: Request, env: Spec.Env)

  ghost function ReferenceRun(cfg: Config, lib: Library, t: Table, turns: seq<Turn>): (Table, seq<Reply>)
    decreases |turns|
  {
    if turns == [] then (t, [])
    else
      var req := turns[0].req;
      var (t1, reply) := Reference(cfg, lib, t, req, ReadingOf(cfg, req, turns[0].env));
      var (t2, replies) := ReferenceRun(cfg, lib, t1, turns[1..]);
      (t2, [reply] + replies)
  }

  function ActualRun(cfg: Config, lib: Library, st: Spec.State, turns: seq<Turn>): (Spec.State, seq<Reply>)
    decreases |turns|
  {
    if turns == [] then (st, [])
    else
      var (st1, reply) := Actual(cfg, lib, st, turns[0].req, turns[0].env);
      var (st2, replies) := ActualRun(cfg, lib, st1, turns[1..]);
      (st2, [reply] + replies)
  }

  lemma RequestMatches(cfg: Config, lib: Library, st: Spec.State, t: Table, req: Request, env: Spec.Env)
    requires Usable(cfg) && NeverCancelled(env.ctx) && Represents(lib, st, t)
    ensures Matches(cfg, lib, st, t, req, env)
  {
    hide *;
    match req
    case Put(key, data, opts) => PutMatches(cfg, lib, st, t, key, data, opts, env);
    case Get(key, verify) => GetMatches(cfg, lib, st, t, key, verify, env);
    case Head(key) => HeadMatches(cfg, lib, st, t, key, env);
    case Exists(key) => ExistsMatches(cfg, lib, st, t, key, env);
    case Copy(source, target, opts) => CopyMatches(cfg, lib, st, t, source, target, opts, env);
    case Delete(key, strict) => DeleteMatches(cfg, lib, st, t, key, strict, env);
  }

  lemma {:induction false} RunMatches(cfg: Config, lib: Library, st: Spec.State, t: Table, turns: seq<Turn>)
    requires Usable(cfg) && Represents(lib, st, t)
    requires forall i :: 0 <= i < |turns| ==> NeverCancelled(turns[i].env.ctx)
    ensures ActualRun(cfg, lib, st, turns).1 == ReferenceRun(cfg, lib, t, turns).1
    ensures Represents(lib, ActualRun(cfg, lib, st, turns).0, ReferenceRun(cfg, lib, t, turns).0)
    decreases |turns|
  {
    hide Actual, Reference, Represents, NeverCancelled, Usable;
    if turns != [] {
      var req, env := turns[0].req, turns[0].env;
      RequestMatches(cfg, lib, st, t, req, env);
      RunMatches(cfg, lib, Actual(cfg, lib, st, req, env).0, Reference(cfg, lib, t, req, ReadingOf(cfg, req, env)).0, turns[1..]);
    }
  }

  /** Every sequence of puts, gets, heads, exists, copies (also onto the source itself) and deletes on
      a new store over a fresh adapter, with live contexts and readers that do not fail, gives the
      replies of the reference map and leaves its contents. */
  lemma StoreRefinesMap(cfg: Config, lib: Library, turns: seq<Turn>)
    requires Usable(cfg)
    requires forall i :: 0 <= i < |turns| ==> NeverCancelled(turns[i].env.ctx)
    ensures ActualRun(cfg, lib, Spec.FRESH, turns).1 == ReferenceRun(cfg, lib, map[], turns).1
    ensures Represents(lib, ActualRun(cfg, lib, Spec.FRESH, turns).0, ReferenceRun(cfg, lib, map[], turns).0)
  {
    RunMatches(cfg, lib, Spec.FRESH, map[], turns);
  }

  // ------------------------------------------------------------------ readers that fail

  // All bytes that the first k reads of a body deliver.
  function Delivered(body: Body, k: nat): seq<byte>
    requires k <= |body|
  {
    if k == 0 then [] else Delivered(body, k - 1) + body[k - 1].data
  }

  lemma PutAttempt(lib: Library, key: string, opts: PutOptions, env: Spec.Env, m: State, body: Body, out: Option<ObjectInfo>, attempt: nat)
    requires !m.closed && body != []
    ensures var (c, e) := Spec.PutCall(lib, key, opts, env)(attempt, Spec.Captured(m, body, out));
            if body[0].failure.Some?
            then c == Spec.Captured(m, body[1..], None) && e.Some? && ClassifyError(e.value) == Retryable
            else c.mem == m.(objects := m.objects[key := NewObject(lib.digests, body[0].data, opts, env.clock(attempt))])
                 && c.body == body[1..] && c.out.Some? && e.None?
  {
    hide NewObject, InfoOf;
    var (m1, b, r) := PutObject(lib.digests, m, key, body, opts, env.clock(attempt));
    assert Spec.PutCall(lib, key, opts, env)(attempt, Spec.Captured(m, body, out)) == Spec.Assign(m1, b, r);
  }

  lemma {:induction false} PutAttempts(p: Retry.Policy, ctx: Context, lib: Library, key: string, opts: PutOptions, env: Spec.Env,
                                       m: State, body: Body, out: Option<ObjectInfo>, attempt: nat, failures: nat)
    requires 1 <= attempt && attempt + failures <= p.maxAttempts && NeverCancelled(ctx) && !m.closed
    requires failures < |body| && body[failures].failure.None?
    requires forall i :: 0 <= i < failures ==> body[i].failure.Some?
    ensures var r := Retry.Run(p, ctx, 0, "put", Spec.PutCall(lib, key, opts, env), Spec.Captured(m, body, out), attempt);
            && r.err.None? && r.state.out.Some? && r.state.body == body[failures + 1..]
            && r.state.mem == m.(objects := m.objects[key := NewObject(lib.digests, body[failures].data, opts, env.clock(attempt + failures))])
    decreases failures
  {
    hide NewObject, InfoOf, PutObject, Spec.PutCall, ClassifyError, Retry.Run;
    PutAttempt(lib, key, opts, env, m, body, out, attempt);
    Retry.RunStep(p, ctx, 0, "put", Spec.PutCall(lib, key, opts, env), Spec.Captured(m, body, out), attempt);
    if failures > 0 {
      PutAttempts(p, ctx, lib, key, opts, env, m, body[1..], None, attempt + 1, failures - 1);
      assert body[1..][failures - 1] == body[failures] && body[1..][failures..] == body[failures + 1..];
    }
  }

  /** Put retries with the same reader and does not rewind it: after any number of failed reads
      within MaxAttempts it succeeds and stores only what the last read delivered. */
  lemma PutStoresTheRest(cfg: Config, lib: Library, st: Spec.State, key: string, body: Body, opts: PutOptions, env: Spec.Env, failures: nat)
    requires !st.closed && !st.mem.closed && NeverCancelled(env.ctx) && Spec.PutError(cfg, lib, key, opts).None?
    requires Breaker.Admits(Spec.BreakerFor(cfg, st.breakers, "put"), env.clock(0))
    requires failures < FromConfig(cfg.retry).maxAttempts && failures < |body| && body[failures].failure.None?
    requires forall i :: 0 <= i < failures ==> body[i].failure.Some?
    ensures var (after, rest, result) := Spec.Put(cfg, lib, st, key, body, opts, env);
            && result.Ok? && rest == body[failures + 1..]
            && key in after.mem.objects && after.mem.objects[key].body == body[failures].data
  {
    PutAttempts(FromConfig(cfg.retry), env.ctx, lib, key, opts, env, st.mem, body, None, 1, failures);
  }

  lemma {:induction false} DeliveredLength(body: Body, k: nat)
    requires k <= |body|
    ensures Delivered(body, k) == [] <==> forall i :: 0 <= i < k ==> body[i].data == []
    decreases k
  {
    if k > 0 { DeliveredLength(body, k - 1); }
  }

  /** So the stored object is everything the reader delivered if and only if no failed read had
      delivered a byte. */
  lemma PutCompleteIff(cfg: Config, lib: Library, st: Spec.State, key: string, body: Body, opts: PutOptions, env: Spec.Env, failures: nat)
    requires !st.closed && !st.mem.closed && NeverCancelled(env.ctx) && Spec.PutError(cfg, lib, key, opts).None?
    requires Breaker.Admits(Spec.BreakerFor(cfg, st.breakers, "put"), env.clock(0))
    requires failures < FromConfig(cfg.retry).maxAttempts && failures < |body| && body[failures].failure.None?
    requires forall i :: 0 <= i < failures ==> body[i].failure.Some?
    ensures var after := Spec.Put(cfg, lib, st, key, body, opts, env).0;
            key in after.mem.objects
            && (after.mem.objects[key].body == Delivered(body, failures + 1)
                <==> forall i :: 0 <= i < failures ==> body[i].data == [])
  {
    PutStoresTheRest(cfg, lib, st, key, body, opts, env, failures);
    DeliveredLength(body, failures);
    var front, last := Delivered(body, failures), body[failures].data;
    assert Delivered(body, failures + 1) == front + last;
    assert front == [] ==> front + last == last;
    assert front + last == last ==> |front| == 0;
  }

  // ------------------------------------------------------------------ contexts that are cancelled

  /** A run that its context cancels before the first attempt leaves the adapter alone. */
  lemma CancelledRun<R>(cfg: Config, breakers: map<string, Breaker.State>, op: string, env: Spec.Env, look: nat,
                        fn: Spec.Closure<R>, c: Spec.Captured<R>)
    requires env.ctx(look + 2).Some?
    ensures Spec.RunOp(cfg, breakers, op, env, look, fn, c).captured == c
    ensures Spec.RunOp(cfg, breakers, op, env, look, fn, c).err.Some?
  {
  }

  lemma {:induction false} HeadFinds(p: Retry.Policy, ctx: Context, m: State, key: string, out: Option<ObjectInfo>, attempt: nat)
    requires 1 <= attempt <= p.maxAttempts && !m.closed && key in m.objects
    ensures var r := Retry.Run(p, ctx, 0, "head", Spec.HeadCall(key), Spec.Captured(m, [], out), attempt);
            r.state.mem == m && (if r.err.None? then r.state.out == Some(InfoOf(key, m.objects[key])) else ctx(2 * attempt).Some?)
  {
    var fn, c := Spec.HeadCall(key), Spec.Captured(m, [], out);
    assert fn(attempt, c) == Spec.Assign(m, [], HeadObject(m, key));
  }

  lemma YoungIsKept(cfg: Config, lib: Library, st: Spec.State, key: string, strict: bool, env: Spec.Env)
    requires cfg.retention.Enabled() && 1 <= cfg.retention.maxDays <= LONGEST_RETENTION_DAYS
    requires Monotone(env.ctx) && !st.mem.closed && key in st.mem.objects
    requires Breaker.Admits(Spec.BreakerFor(cfg, st.breakers, "head"), env.clock(0))
    requires env.clock(Spec.SecondLook(cfg) - 1) - st.mem.objects[key].createdAt < cfg.retention.maxDays * DAY
    ensures Spec.Delete(cfg, lib, st, key, strict, env).0.mem == st.mem
    ensures NeverCancelled(env.ctx) && !st.closed && ValidKey(lib, key) ==>
              Spec.Delete(cfg, lib, st, key, strict, env).1 == Some(TOO_YOUNG)
  {
    var p := FromConfig(cfg.retry);
    HeadFinds(p, env.ctx, st.mem, key, None, 1);
    WithinRange(cfg.retention);
    var (checked, refused) := Spec.Preflight(cfg, st, key, strict, env);
    assert checked.mem == st.mem;
    if refused.None? {
      assert env.ctx(2).Some?;
      assert env.ctx(Spec.SecondLook(cfg) + 2).Some?;
      CancelledRun(cfg, checked.breakers, "delete", env, Spec.SecondLook(cfg), Spec.DeleteCall(key, strict), Spec.Captured(checked.mem, [], None));
    }
  }

  // A closed adapter holds nothing.
  lemma ClosedIsEmpty(cfg: Config, lib: Library, events: seq<Invariants.Event>)
    ensures var m := Invariants.Execute(cfg, lib, Invariants.START, events).store.mem;
            m.closed ==> m.objects == map[] && m.uploads == map[]
  {
    var inv := (m: State) => m.closed ==> m.objects == map[] && m.uploads == map[];
    Invariants.RunsKeep(cfg, lib, events, inv);
  }

  /** With retention on and MaxDays in range, no delete after any run, strict or not, removes an object
      that is younger than MaxDays days at the policy check, whenever its context is cancelled; with a
      live context it is refused. */
  lemma DeleteSparesTheYoung(cfg: Config, lib: Library, events: seq<Invariants.Event>, key: string, strict: bool, env: Spec.Env)
    requires cfg.retention.Enabled() && 1 <= cfg.retention.maxDays <= LONGEST_RETENTION_DAYS && Monotone(env.ctx)
    requires key in Invariants.Execute(cfg, lib, Invariants.START, events).store.mem.objects
    requires env.clock(Spec.SecondLook(cfg) - 1)
             - Invariants.Execute(cfg, lib, Invariants.START, events).store.mem.objects[key].createdAt < cfg.retention.maxDays * DAY
    ensures var st := Invariants.Execute(cfg, lib, Invariants.START, events).store;
            && Spec.Delete(cfg, lib, st, key, strict, env).0.mem == st.mem
            && (NeverCancelled(env.ctx) && !st.closed && ValidKey(lib, key) ==>
                  Spec.Delete(cfg, lib, st, key, strict, env).1 == Some(TOO_YOUNG))
  {
    hide Spec.Delete, Spec.SecondLook;
    var st := Invariants.Execute(cfg, lib, Invariants.START, events).store;
    ClosedIsEmpty(cfg, lib, events);
    OnlyReadersCanTrip(cfg, lib, events, "head", env.clock(0));
    YoungIsKept(cfg, lib, st, key, strict, env);
  }
}
