/** Each operation has breakers of its own (pkg/ossx/blobstore.go): it neither reads nor changes those of
    the others. */
module OwnBreakers {
  import opened Wrappers
  import opened Errors
  import opened Keys
  import opened Digests
  import opened Config
  import opened Memory
  import opened Accesses
  import opened Invariants
  import Breaker
  import Parts
  import Sequential
  import Spec = StoreSpec

  // The names under which an operation runs. Delete may look first, as Head does.
  function Operations(cmd: Command): set<string> {
    match cmd
    case Put(_, _, _) => {"put"}
    case Get(_, _) => {"get"}
    case Head(_) => {"head"}
    case Exists(_) => {"head"}
    case Delete(_, _) => {"head", "delete"}
    case Copy(_, _, _) => {"copy"}
    case List(_, _, _) => {"list"}
    case Initiate(_, _) => {"multipart_initiate"}
    case UploadPart(_, _, _) => {"multipart_upload_part"}
    case ListParts(_) => {"multipart_list_parts"}
    case Complete(_, _, _) => {"multipart_complete"}
    case Abort(_, _) => {"multipart_abort"}
    case Close => {}
  }

  /** The same breakers for these operations. */
  ghost predicate Agree(cfg: Config, a: map<string, Breaker.State>, b: map<string, Breaker.State>, ops: set<string>) {
    forall op :: op in ops ==> Spec.BreakerFor(cfg, a, op) == Spec.BreakerFor(cfg, b, op)
  }

  // The same breakers for all operations but these.
  ghost predicate AgreeElsewhere(cfg: Config, a: map<string, Breaker.State>, b: map<string, Breaker.State>, ops: set<string>) {
    forall op :: op !in ops ==> Spec.BreakerFor(cfg, a, op) == Spec.BreakerFor(cfg, b, op)
  }

  ghost predicate SameBut(w: World, v: World, breakers: map<string, Breaker.State>) {
    v == w.(store := w.store.(breakers := breakers))
  }

  lemma RunOwns<R>(cfg: Config, a: map<string, Breaker.State>, b: map<string, Breaker.State>, op: string, env: Spec.Env, look: nat,
                   fn: Spec.Closure<R>, c: Spec.Captured<R>)
    requires Agree(cfg, a, b, {op})
    ensures var r, q := Spec.RunOp(cfg, a, op, env, look, fn, c), Spec.RunOp(cfg, b, op, env, look, fn, c);
            q == r.(breakers := q.breakers) && Agree(cfg, r.breakers, q.breakers, {op}) && AgreeElsewhere(cfg, a, r.breakers, {op})
    ensures AgreeElsewhere(cfg, a, a, {op})
  {
    hide Spec.DoWith;
    assert op in {op};
  }

  /** What an operation does to the store and answers depends on no breaker but its own, and changes no other. */
  ghost predicate Owns(cfg: Config, lib: Library, w: World, v: World, cmd: Command, env: Spec.Env) {
    var a, b := Step(cfg, lib, w, cmd, env), Step(cfg, lib, v, cmd, env);
    && SameBut(a, b, b.store.breakers)
    && Agree(cfg, a.store.breakers, b.store.breakers, Operations(cmd))
    && Sequential.AnswerOf(cfg, lib, w, cmd, env) == Sequential.AnswerOf(cfg, lib, v, cmd, env)
    && AgreeElsewhere(cfg, w.store.breakers, a.store.breakers, Operations(cmd))
  }

  lemma ObjectOwns(cfg: Config, lib: Library, w: World, v: World, cmd: Command, env: Spec.Env)
    requires SameBut(w, v, v.store.breakers) && Agree(cfg, w.store.breakers, v.store.breakers, Operations(cmd))
    requires cmd.Put? || cmd.Copy?
    ensures Owns(cfg, lib, w, v, cmd, env)
  {
    hide Agree, AgreeElsewhere, Spec.RunOp, Spec.BreakerFor, Spec.PutError, Spec.KeyError, Spec.CopyError, Spec.InitiateError, Spec.PartNumberError,
         Spec.ContextError, Parts.PartsError, Spec.DeleteStored, Spec.Preflight, Spec.IsNotFound;
    var st, breakers := w.store, v.store.breakers;
    match cmd
    case Put(key, body, opts) =>
      RunOwns(cfg, st.breakers, breakers, "put", env, 0, Spec.PutCall(lib, key, opts, env), Spec.Captured(st.mem, body, None));
    case Copy(source, target, opts) =>
      RunOwns(cfg, st.breakers, breakers, "copy", env, 0, Spec.CopyCall(lib, source, target, opts, env), Spec.Captured(st.mem, [], None));
  }

  lemma ReadOwns(cfg: Config, lib: Library, w: World, v: World, cmd: Command, env: Spec.Env)
    requires SameBut(w, v, v.store.breakers) && Agree(cfg, w.store.breakers, v.store.breakers, Operations(cmd))
    requires cmd.Get? || cmd.List?
    ensures Owns(cfg, lib, w, v, cmd, env)
  {
    hide Agree, AgreeElsewhere, Spec.RunOp, Spec.BreakerFor, Spec.PutError, Spec.KeyError, Spec.CopyError, Spec.InitiateError, Spec.PartNumberError,
         Spec.ContextError, Supported, PageSize,
         Spec.GetCall, Spec.ListCall, Spec.Head, Spec.Exists, Spec.Put, Spec.Copy, Spec.DeleteStored, Spec.Preflight, Spec.IsNotFound;
    var st, breakers := w.store, v.store.breakers;
    match cmd
    case Get(key, verify) =>
      RunOwns(cfg, st.breakers, breakers, "get", env, 0, Spec.GetCall(key), Spec.Captured(st.mem, [], None));
    case List(prefix, maxKeys, token) =>
      RunOwns(cfg, st.breakers, breakers, "list", env, 0, Spec.ListCall(prefix, PageSize(maxKeys), token), Spec.Captured(st.mem, [], None));
  }

  lemma LookOwns(cfg: Config, lib: Library, w: World, v: World, cmd: Command, env: Spec.Env)
    requires SameBut(w, v, v.store.breakers) && Agree(cfg, w.store.breakers, v.store.breakers, Operations(cmd))
    requires cmd.Head? || cmd.Exists?
    ensures Owns(cfg, lib, w, v, cmd, env)
  {
    hide Agree, AgreeElsewhere, Spec.RunOp, Spec.BreakerFor, Spec.PutError, Spec.KeyError, Spec.CopyError, Spec.InitiateError, Spec.PartNumberError,
         Spec.ContextError, Parts.PartsError, Spec.DeleteStored, Spec.Preflight, Spec.IsNotFound;
    var st, breakers := w.store, v.store.breakers;
    match cmd
    case Head(key) =>
      RunOwns(cfg, st.breakers, breakers, "head", env, 0, Spec.HeadCall(key), Spec.Captured(st.mem, [], None));
    case Exists(key) =>
      RunOwns(cfg, st.breakers, breakers, "head", env, 0, Spec.HeadCall(key), Spec.Captured(st.mem, [], None));
  }

  lemma UploadOwns(cfg: Config, lib: Library, w: World, v: World, cmd: Command, env: Spec.Env)
    requires SameBut(w, v, v.store.breakers) && Agree(cfg, w.store.breakers, v.store.breakers, Operations(cmd))
    requires cmd.Initiate? || cmd.UploadPart? || cmd.ListParts?
    ensures Owns(cfg, lib, w, v, cmd, env)
  {
    hide Agree, AgreeElsewhere, Spec.RunOp, Spec.BreakerFor, Spec.PutError, Spec.KeyError, Spec.CopyError, Spec.InitiateError, Spec.PartNumberError,
         Spec.ContextError, Parts.PartsError, Spec.DeleteStored, Spec.Preflight, Spec.IsNotFound;
    var st, breakers := w.store, v.store.breakers;
    match cmd
    case Initiate(key, opts) =>
      RunOwns(cfg, st.breakers, breakers, "multipart_initiate", env, 0, Spec.InitiateCall(key, opts, env), Spec.Captured(st.mem, [], None));
    case UploadPart(id, number, body) =>
      RunOwns(cfg, st.breakers, breakers, "multipart_upload_part", env, 0, Spec.UploadPartCall(lib, id, number), Spec.Captured(st.mem, body, None));
    case ListParts(id) =>
      RunOwns(cfg, st.breakers, breakers, "multipart_list_parts", env, 0, Spec.ListPartsCall(id), Spec.Captured(st.mem, [], None));
  }

  lemma SettlingOwns(cfg: Config, lib: Library, w: World, v: World, cmd: Command, env: Spec.Env)
    requires SameBut(w, v, v.store.breakers) && Agree(cfg, w.store.breakers, v.store.breakers, Operations(cmd))
    requires cmd.Complete? || cmd.Abort?
    ensures Owns(cfg, lib, w, v, cmd, env)
  {
    hide Agree, AgreeElsewhere, Spec.RunOp, Spec.BreakerFor, Spec.PutError, Spec.KeyError, Spec.CopyError, Spec.InitiateError, Spec.PartNumberError,
         Spec.ContextError, Parts.PartsError, Spec.DeleteStored, Spec.Preflight, Spec.IsNotFound;
    var st, breakers := w.store, v.store.breakers;
    match cmd
    case Complete(_, id, parts) =>
      RunOwns(cfg, st.breakers, breakers, "multipart_complete", env, 0, Spec.CompleteCall(lib, id, parts, env), Spec.Captured(st.mem, [], None));
    case Abort(_, id) =>
      RunOwns(cfg, st.breakers, breakers, "multipart_abort", env, 0, Spec.AbortCall(id), Spec.Captured(st.mem, [], None));
  }

  // Two runs in a row touch the breakers of both.
  lemma BothElsewhere(cfg: Config, a: map<string, Breaker.State>, b: map<string, Breaker.State>, c: map<string, Breaker.State>, x: string, y: string)
    requires AgreeElsewhere(cfg, a, b, {x}) && AgreeElsewhere(cfg, b, c, {y})
    ensures AgreeElsewhere(cfg, a, b, {x, y}) && AgreeElsewhere(cfg, a, c, {x, y})
  {
    hide Spec.BreakerFor;
  }

  lemma StoredOwns(cfg: Config, st: Spec.State, breakers: map<string, Breaker.State>, key: string, strict: bool, env: Spec.Env, look: nat)
    requires Agree(cfg, st.breakers, breakers, {"head", "delete"})
    ensures var r, q := Spec.DeleteStored(cfg, st, key, strict, env, look), Spec.DeleteStored(cfg, st.(breakers := breakers), key, strict, env, look);
            && q == (r.0.(breakers := q.0.breakers), r.1) && Agree(cfg, r.0.breakers, q.0.breakers, {"head", "delete"})
            && AgreeElsewhere(cfg, st.breakers, r.0.breakers, {"delete"})
  {
    hide Spec.RunOp, Spec.BreakerFor, Spec.IsNotFound;
    var fn, c := Spec.DeleteCall(key, strict), Spec.Captured(st.mem, [], None);
    RunOwns(cfg, st.breakers, breakers, "delete", env, look, fn, c);
    RunOwns(cfg, breakers, st.breakers, "delete", env, look, fn, c);
  }

  lemma PreflightOwns(cfg: Config, st: Spec.State, breakers: map<string, Breaker.State>, key: string, strict: bool, env: Spec.Env)
    requires Agree(cfg, st.breakers, breakers, {"head", "delete"})
    ensures var r, q := Spec.Preflight(cfg, st, key, strict, env), Spec.Preflight(cfg, st.(breakers := breakers), key, strict, env);
            && q == (r.0.(breakers := q.0.breakers), r.1) && Agree(cfg, r.0.breakers, q.0.breakers, {"head", "delete"})
            && AgreeElsewhere(cfg, st.breakers, r.0.breakers, {"head"})
  {
    hide Spec.RunOp, Spec.BreakerFor, Spec.SecondLook;
    var fn, c := Spec.HeadCall(key), Spec.Captured(st.mem, [], None);
    RunOwns(cfg, st.breakers, breakers, "head", env, 0, fn, c);
    RunOwns(cfg, breakers, st.breakers, "head", env, 0, fn, c);
  }

  lemma DeleteOwns(cfg: Config, lib: Library, w: World, v: World, key: string, strict: bool, env: Spec.Env)
    requires SameBut(w, v, v.store.breakers) && Agree(cfg, w.store.breakers, v.store.breakers, {"head", "delete"})
    ensures Owns(cfg, lib, w, v, Delete(key, strict), env)
  {
    hide Agree, AgreeElsewhere, Spec.BreakerFor, Spec.KeyError, Spec.ContextError, Spec.SecondLook, Spec.Preflight, Spec.DeleteStored;
    var st, breakers, look := w.store, v.store.breakers, Spec.SecondLook(cfg);
    Reflexive(cfg, st.breakers);
    PreflightOwns(cfg, st, breakers, key, strict, env);
    StoredOwns(cfg, st, breakers, key, strict, env, 0);
    var r, q := Spec.Preflight(cfg, st, key, strict, env).0, Spec.Preflight(cfg, v.store, key, strict, env).0;
    StoredOwns(cfg, r, q.breakers, key, strict, env, look);
    BothElsewhere(cfg, st.breakers, st.breakers, Spec.DeleteStored(cfg, st, key, strict, env, 0).0.breakers, "head", "delete");
    BothElsewhere(cfg, st.breakers, r.breakers, Spec.DeleteStored(cfg, r, key, strict, env, look).0.breakers, "head", "delete");
  }

  lemma Reflexive(cfg: Config, a: map<string, Breaker.State>)
    ensures AgreeElsewhere(cfg, a, a, {"head"}) && AgreeElsewhere(cfg, a, a, {"head", "delete"})
  {
    hide Spec.BreakerFor;
  }

  lemma OwnBreakersOnly(cfg: Config, lib: Library, w: World, v: World, cmd: Command, env: Spec.Env)
    requires SameBut(w, v, v.store.breakers) && Agree(cfg, w.store.breakers, v.store.breakers, Operations(cmd))
    ensures Owns(cfg, lib, w, v, cmd, env)
  {
    hide Agree;
    match cmd
    case Put(_, _, _) => ObjectOwns(cfg, lib, w, v, cmd, env);
    case Copy(_, _, _) => ObjectOwns(cfg, lib, w, v, cmd, env);
    case Delete(key, strict) => DeleteOwns(cfg, lib, w, v, key, strict, env);
    case Initiate(_, _) => UploadOwns(cfg, lib, w, v, cmd, env);
    case UploadPart(_, _, _) => UploadOwns(cfg, lib, w, v, cmd, env);
    case ListParts(_) => UploadOwns(cfg, lib, w, v, cmd, env);
    case Complete(_, _, _) => SettlingOwns(cfg, lib, w, v, cmd, env);
    case Abort(_, _) => SettlingOwns(cfg, lib, w, v, cmd, env);
    case Head(_) => LookOwns(cfg, lib, w, v, cmd, env);
    case Exists(_) => LookOwns(cfg, lib, w, v, cmd, env);
    case Close =>
    case _ => ReadOwns(cfg, lib, w, v, cmd, env);
  }
}
