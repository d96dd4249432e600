/** The Store of pkg/ossx/blobstore.go: a closed flag, the adapter, and one breaker object for each
    operation name. Each method's effect is the function of the same name in StoreSpec. */
module Store {
  import opened Wrappers
  import opened Errors
  import opened Keys
  import opened Policy
  import opened Config
  import opened Memory
  import opened Retry
  import opened Parts
  import Breaker
  import Spec = StoreSpec

  /** The breakers map of a store, guarded by its bMu: one breaker object for each operation name. */
  class BreakerTable {
    const cfg: Config
    var breakers: map<string, Breaker.CircuitBreaker>
    // The values of the breakers, by operation.
    ghost var view: map<string, Breaker.State>

    ghost function Objects(): set<object>
      reads this`breakers
    {
      set op | op in breakers :: breakers[op]
    }

    /** No two operations share a breaker. */
    ghost predicate Valid()
      reads this, Objects()
    {
      && (forall a, b :: a in breakers && b in breakers && a != b ==> breakers[a] != breakers[b])
      && view.Keys == breakers.Keys
      && (forall op :: op in breakers ==> view[op] == breakers[op].Value())
    }

    /** Breakers stay the objects they are; only new ones appear. */
    twostate predicate Stable()
      reads this`breakers
    {
      && (forall op :: op in old(breakers) ==> op in breakers && breakers[op] == old(breakers[op]))
      && (forall op :: op in breakers && op !in old(breakers) ==> fresh(breakers[op]))
    }

    constructor (cfg: Config)
      ensures Valid() && view == map[] && breakers == map[] && this.cfg == cfg
    {
      this.cfg := cfg;
      breakers, view := map[], map[];
    }

    method BreakerFor(op: string) returns (cb: Breaker.CircuitBreaker)
      requires Valid()
      modifies this
      ensures Valid() && Stable()
      ensures op in breakers && breakers[op] == cb
      ensures op in old(breakers) ==> breakers == old(breakers)
      ensures view == old(view)[op := Spec.BreakerFor(cfg, old(view), op)]
    {
      if op in breakers {
        cb := breakers[op];
      } else {
        cb := new Breaker.CircuitBreaker(cfg.retry.circuitThreshold, cfg.retry.circuitCooldown);
        breakers := breakers[op := cb];
        view := view[op := cb.Value()];
      }
    }

    /** Store.run: an operation runs behind its own breaker and changes no other. */
    method Run<R>(op: string, env: Spec.Env, look: nat, fn: Spec.Closure<R>, c: Spec.Captured<R>)
      returns (captured: Spec.Captured<R>, err: Option<GoError>)
      requires Valid()
      modifies this, Objects()
      ensures Valid() && Stable()
      ensures var r := Spec.DoWith(cfg, Spec.BreakerFor(cfg, old(view), op), op, env, look, fn, c);
              captured == r.state && err == r.err && view == old(view)[op := r.breaker]
    {
      ghost var before := view;
      var cb := BreakerFor(op);
      ghost var r := Spec.DoWith(cfg, Spec.BreakerFor(cfg, before, op), op, env, look, fn, c);
      captured, err := DoWith(cb, op, env, look, fn, c);
      Overwritten(before, op, Spec.BreakerFor(cfg, before, op), r.breaker);
    }

    static lemma Overwritten<T>(m: map<string, T>, k: string, x: T, y: T)
      ensures m[k := x][k := y] == m[k := y]
    {
    }

    method DoWith<R>(cb: Breaker.CircuitBreaker, op: string, env: Spec.Env, look: nat, fn: Spec.Closure<R>, c: Spec.Captured<R>)
      returns (captured: Spec.Captured<R>, err: Option<GoError>)
      requires Valid() && op in breakers && breakers[op] == cb
      modifies this`view, cb
      ensures Valid()
      ensures var r := Spec.DoWith(cfg, old(view)[op], op, env, look, fn, c);
              captured == r.state && err == r.err && view == old(view)[op := r.breaker]
    {
      hide Breaker.DoSpec, FromConfig;
      var p := FromConfig(cfg.retry);
      captured, err := cb.Do(p, env.ctx, look, op, fn, c, env.clock(look), env.clock(look + p.maxAttempts + 1));
      view := view[op := cb.Value()];
    }
  }

  class Store {
    const cfg: Config
    const lib: Library
    const table: BreakerTable
    var mem: Memory.State
    var closed: bool

    ghost predicate Valid()
      reads table, table.Objects()
    {
      table.Valid() && table.cfg == cfg
    }

    ghost function Value(): Spec.State
      reads this, table
    {
      Spec.State.State(mem, table.view, closed)
    }

    // NewBlobStore, after the configuration was accepted.
    constructor (cfg: Config, lib: Library)
      ensures Valid() && Value() == Spec.FRESH
      ensures this.cfg == cfg && this.lib == lib && fresh(table) && table.Objects() == {}
    {
      this.cfg, this.lib := cfg, lib;
      table := new BreakerTable(cfg);
      mem, closed := EMPTY, false;
    }

    method Run<R>(op: string, env: Spec.Env, look: nat, fn: Spec.Closure<R>, c: Spec.Captured<R>)
      returns (captured: Spec.Captured<R>, err: Option<GoError>)
      requires Valid()
      modifies table, table.Objects()
      ensures Valid() && table.Stable()
      ensures Spec.RunResult(table.view, captured, err) == Spec.RunOp(cfg, old(table.view), op, env, look, fn, c)
    {
      captured, err := table.Run(op, env, look, fn, c);
    }

    method Put(key: string, body: Body, opts: PutOptions, env: Spec.Env)
      returns (rest: Body, result: Result<Option<ObjectInfo>, GoError>)
      requires Valid()
      modifies this, table, table.Objects()
      ensures Valid() && table.Stable()
      ensures var r := Spec.Put(cfg, lib, old(Value()), key, body, opts, env); Value() == r.0 && rest == r.1 && result == r.2
    {
      rest := body;
      var err := Spec.Entry(closed, env.ctx);
      if err.Some? { return rest, Err(err.value); }
      if Spec.KeyError(lib, key).Some? { return rest, Err(Spec.KeyError(lib, key).value); }
      if ValidateMetadata(opts.metadata).Some? { return rest, Err(ValidateMetadata(opts.metadata).value); }
      if opts.algorithm != Digests.NoAlgorithm {
        err := Spec.ChecksumAlgoError(opts.algorithm, cfg.algorithms);
        if err.Some? { return rest, Err(err.value); }
      }
      err := ValidateKeyPolicy(cfg.permission, key);
      if err.Some? { return rest, Err(err.value); }
      var c: Spec.Captured<ObjectInfo>;
      c, err := Run("put", env, 0, Spec.PutCall(lib, key, opts, env), Spec.Captured(mem, body, None));
      mem, rest := c.mem, c.body;
      if err.Some? { return rest, Err(err.value); }
      return rest, Ok(c.out);
    }

    method Get(key: string, verify: bool, env: Spec.Env) returns (result: Result<Option<Spec.Reader>, GoError>)
      requires Valid()
      modifies this, table, table.Objects()
      ensures Valid() && table.Stable()
      ensures var r := Spec.Get(cfg, lib, old(Value()), key, verify, env); Value() == r.0 && result == r.1
    {
      var err := Spec.Entry(closed, env.ctx);
      if err.Some? { return Err(err.value); }
      if Spec.KeyError(lib, key).Some? { return Err(Spec.KeyError(lib, key).value); }
      var c: Spec.Captured<(seq<Digests.byte>, ObjectInfo)>;
      c, err := Run("get", env, 0, Spec.GetCall(key), Spec.Captured(mem, [], None));
      mem := c.mem;
      if err.Some? { return Err(err.value); }
      if c.out.None? { return Ok(None); }
      var info := c.out.value.1;
      var reader := Spec.Reader(c.out.value.0, info, false);
      if verify && info.checksumAlgo != Digests.NoAlgorithm && info.checksumHex != "" {
        // wrapChecksumVerifier leaves the reader alone for an algorithm without a hasher.
        reader := reader.(verifying := Digests.Supported(info.checksumAlgo));
      }
      return Ok(Some(reader));
    }

    method Head(key: string, env: Spec.Env) returns (result: Result<Option<ObjectInfo>, GoError>)
      requires Valid()
      modifies this, table, table.Objects()
      ensures Valid() && table.Stable()
      ensures var r := Spec.Head(cfg, lib, old(Value()), key, env); Value() == r.0 && result == r.1
    {
      var err := Spec.Entry(closed, env.ctx);
      if err.Some? { return Err(err.value); }
      if Spec.KeyError(lib, key).Some? { return Err(Spec.KeyError(lib, key).value); }
      var c: Spec.Captured<ObjectInfo>;
      c, err := Run("head", env, 0, Spec.HeadCall(key), Spec.Captured(mem, [], None));
      mem := c.mem;
      if err.Some? { return Err(err.value); }
      return Ok(c.out);
    }

    method Exists(key: string, env: Spec.Env) returns (result: Result<bool, GoError>)
      requires Valid()
      modifies this, table, table.Objects()
      ensures Valid() && table.Stable()
      ensures var r := Spec.Exists(cfg, lib, old(Value()), key, env); Value() == r.0 && result == r.1
    {
      var head := Head(key, env);
      if head.Ok? { return Ok(true); }
      if Spec.IsNotFound(head.error) { return Ok(false); }
      return Err(head.error);
    }

    method Delete(key: string, strict: bool, env: Spec.Env) returns (err: Option<GoError>)
      requires Valid()
      modifies this, table, table.Objects()
      ensures Valid() && table.Stable()
      ensures var r := Spec.Delete(cfg, lib, old(Value()), key, strict, env); Value() == r.0 && err == r.1
    {
      err := Spec.Entry(closed, env.ctx);
      if err.Some? { return; }
      if Spec.KeyError(lib, key).Some? { return Spec.KeyError(lib, key); }
      if strict || cfg.retention.Enabled() {
        err := Preflight(key, strict, env);
        if err.Some? { return; }
        err := DeleteStored(key, strict, env, Spec.SecondLook(cfg));
      } else {
        err := DeleteStored(key, strict, env, 0);
      }
    }

    /** The Head and retention gate of Delete. */
    method Preflight(key: string, strict: bool, env: Spec.Env) returns (err: Option<GoError>)
      requires Valid()
      modifies this, table, table.Objects()
      ensures Valid() && table.Stable()
      ensures var r := Spec.Preflight(cfg, old(Value()), key, strict, env); Value() == r.0 && err == r.1
    {
      var c: Spec.Captured<ObjectInfo>;
      c, err := Run("head", env, 0, Spec.HeadCall(key), Spec.Captured(mem, [], None));
      mem := c.mem;
      if err.Some? {
        return if strict then err else None;
      }
      if cfg.retention.Enabled() && c.out.Some? {
        err := RetentionError(cfg.retention, c.out.value.createdAt, env.clock(Spec.SecondLook(cfg) - 1));
      }
    }

    method DeleteStored(key: string, strict: bool, env: Spec.Env, look: nat) returns (err: Option<GoError>)
      requires Valid()
      modifies this, table, table.Objects()
      ensures Valid() && table.Stable()
      ensures var r := Spec.DeleteStored(cfg, old(Value()), key, strict, env, look); Value() == r.0 && err == r.1
    {
      var c: Spec.Captured<()>;
      c, err := Run("delete", env, look, Spec.DeleteCall(key, strict), Spec.Captured(mem, [], None));
      mem := c.mem;
      if err.Some? && Spec.IsNotFound(err.value) && !strict { return None; }
    }

    method Copy(source: string, target: string, opts: CopyOptions, env: Spec.Env)
      returns (result: Result<Option<ObjectInfo>, GoError>)
      requires Valid()
      modifies this, table, table.Objects()
      ensures Valid() && table.Stable()
      ensures var r := Spec.Copy(cfg, lib, old(Value()), source, target, opts, env); Value() == r.0 && result == r.1
    {
      var err := Spec.Entry(closed, env.ctx);
      if err.Some? { return Err(err.value); }
      if Spec.KeyError(lib, source).Some? { return Err(Spec.KeyError(lib, source).value); }
      if Spec.KeyError(lib, target).Some? { return Err(Spec.KeyError(lib, target).value); }
      err := ValidateKeyPolicy(cfg.permission, target);
      if err.Some? { return Err(err.value); }
      var c: Spec.Captured<ObjectInfo>;
      c, err := Run("copy", env, 0, Spec.CopyCall(lib, source, target, opts, env), Spec.Captured(mem, [], None));
      mem := c.mem;
      if err.Some? { return Err(err.value); }
      return Ok(c.out);
    }

    method List(prefix: string, maxKeys: int, token: string, env: Spec.Env)
      returns (result: Result<Option<ListPage>, GoError>)
      requires Valid()
      modifies this, table, table.Objects()
      ensures Valid() && table.Stable()
      ensures var r := Spec.List(cfg, old(Value()), prefix, maxKeys, token, env); Value() == r.0 && result == r.1
    {
      var err := Spec.Entry(closed, env.ctx);
      if err.Some? { return Err(err.value); }
      var c: Spec.Captured<ListPage>;
      c, err := Run("list", env, 0, Spec.ListCall(prefix, PageSize(maxKeys), token), Spec.Captured(mem, [], None));
      mem := c.mem;
      if err.Some? { return Err(err.value); }
      return Ok(c.out);
    }

    method Close()
      requires Valid()
      modifies this
      ensures Valid()
      ensures Value() == Spec.Close(old(Value()))
    {
      if closed { return; }
      closed := true;
      mem := Memory.Close(mem);
    }
  }

  /** One multipart session: the guard set done over a shared store. */
  class MultipartSession {
    const store: Store
    var done: map<string, bool>

    ghost predicate Valid()
      reads store.table, store.table.Objects()
    {
      store.Valid()
    }

    ghost function Done(): set<string>
      reads this
    {
      set id | id in done && done[id]
    }

    constructor (store: Store)
      requires store.Valid()
      ensures Valid() && this.store == store && Done() == {}
    {
      this.store, this.done := store, map[];
    }

    /** True for exactly one of any number of calls with the same id, until it is unmarked. */
    method MarkDone(id: string) returns (first: bool)
      modifies this
      ensures first == (id !in old(Done()))
      ensures Done() == old(Done()) + {id}
    {
      if id in done && done[id] {
        return false;
      }
      done := done[id := true];
      return true;
    }

    method Unmark(id: string)
      modifies this
      ensures Done() == old(Done()) - {id}
    {
      done := done - {id};
    }

    method Initiate(key: string, opts: PutOptions, env: Spec.Env) returns (result: Result<Option<string>, GoError>)
      requires Valid()
      modifies store, store.table, store.table.Objects()
      ensures Valid() && store.table.Stable()
      ensures var r := Spec.Initiate(store.cfg, store.lib, old(store.Value()), key, opts, env); store.Value() == r.0 && result == r.1
    {
      var err := Spec.Entry(store.closed, env.ctx);
      if err.Some? { return Err(err.value); }
      if Spec.KeyError(store.lib, key).Some? { return Err(Spec.KeyError(store.lib, key).value); }
      if ValidateMetadata(opts.metadata).Some? { return Err(ValidateMetadata(opts.metadata).value); }
      err := ValidateKeyPolicy(store.cfg.permission, key);
      if err.Some? { return Err(err.value); }
      var c: Spec.Captured<string>;
      c, err := store.Run("multipart_initiate", env, 0, Spec.InitiateCall(key, opts, env), Spec.Captured(store.mem, [], None));
      store.mem := c.mem;
      if err.Some? { return Err(err.value); }
      return Ok(c.out);
    }

    method UploadPart(id: string, number: int, body: Body, env: Spec.Env)
      returns (rest: Body, result: Result<Option<PartETag>, GoError>)
      requires Valid()
      modifies store, store.table, store.table.Objects()
      ensures Valid() && store.table.Stable()
      ensures var r := Spec.UploadPart(store.cfg, store.lib, old(store.Value()), id, number, body, env);
              store.Value() == r.0 && rest == r.1 && result == r.2
    {
      rest := body;
      var err := Spec.Entry(store.closed, env.ctx);
      if err.Some? { return rest, Err(err.value); }
      if Spec.PartNumberError(store.cfg, number).Some? { return rest, Err(Spec.PartNumberError(store.cfg, number).value); }
      var c: Spec.Captured<PartETag>;
      c, err := store.Run("multipart_upload_part", env, 0, Spec.UploadPartCall(store.lib, id, number), Spec.Captured(store.mem, body, None));
      store.mem, rest := c.mem, c.body;
      if err.Some? { return rest, Err(err.value); }
      if c.out.Some? {
        if c.out.value.partNumber != number { return rest, Err(Spec.NUMBER_MISMATCH); }
        if c.out.value.etag == "" { return rest, Err(Spec.EMPTY_ETAG); }
      }
      return rest, Ok(c.out);
    }

    method ListParts(id: string, env: Spec.Env) returns (result: Result<Option<seq<PartETag>>, GoError>)
      requires Valid()
      modifies store, store.table, store.table.Objects()
      ensures Valid() && store.table.Stable()
      ensures var r := Spec.ListParts(store.cfg, old(store.Value()), id, env); store.Value() == r.0 && result == r.1
    {
      var err := Spec.Entry(store.closed, env.ctx);
      if err.Some? { return Err(err.value); }
      var c: Spec.Captured<seq<PartETag>>;
      c, err := store.Run("multipart_list_parts", env, 0, Spec.ListPartsCall(id), Spec.Captured(store.mem, [], None));
      store.mem := c.mem;
      if err.Some? { return Err(err.value); }
      return Ok(c.out);
    }

    method Complete(id: string, parts: seq<PartETag>, env: Spec.Env) returns (result: Result<Option<ObjectInfo>, GoError>)
      requires Valid()
      modifies this, store, store.table, store.table.Objects()
      ensures Valid() && store.table.Stable()
      ensures var r := Spec.Complete(store.cfg, store.lib, old(store.Value()), old(Done()), id, parts, env);
              store.Value() == r.0 && Done() == r.1 && result == r.2
    {
      var err := Spec.Entry(store.closed, env.ctx);
      if err.Some? { return Err(err.value); }
      err := ValidateParts(parts, store.cfg.maxParts);
      if err.Some? { return Err(err.value); }
      var first := MarkDone(id);
      if !first {
        assert old(Done()) + {id} == old(Done());
        return Err(Spec.ALREADY_DONE);
      }
      result := CompleteMarked(id, parts, env);
    }

    method CompleteMarked(id: string, parts: seq<PartETag>, env: Spec.Env) returns (result: Result<Option<ObjectInfo>, GoError>)
      requires Valid()
      modifies this, store, store.table, store.table.Objects()
      ensures Valid() && store.table.Stable()
      ensures var r := Spec.CompleteMarked(store.cfg, store.lib, old(store.Value()), old(Done()), id, parts, env);
              store.Value() == r.0 && Done() == r.1 && result == r.2
    {
      var c: Spec.Captured<ObjectInfo>;
      var err;
      c, err := store.Run("multipart_complete", env, 0, Spec.CompleteCall(store.lib, id, parts, env), Spec.Captured(store.mem, [], None));
      store.mem := c.mem;
      if err.Some? {
        Unmark(id);
        return Err(err.value);
      }
      return Ok(c.out);
    }

    method Abort(id: string, env: Spec.Env) returns (err: Option<GoError>)
      requires Valid()
      modifies this, store, store.table, store.table.Objects()
      ensures Valid() && store.table.Stable()
      ensures var r := Spec.Abort(store.cfg, old(store.Value()), old(Done()), id, env);
              store.Value() == r.0 && Done() == r.1 && err == r.2
    {
      err := Spec.Entry(store.closed, env.ctx);
      if err.Some? { return; }
      var first := MarkDone(id);
      var c: Spec.Captured<()>;
      c, err := store.Run("multipart_abort", env, 0, Spec.AbortCall(id), Spec.Captured(store.mem, [], None));
      store.mem := c.mem;
    }
  }
}
