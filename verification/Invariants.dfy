/** What every run of operations keeps: all the ways in which the store lets callers reach the
    adapter, and two invariants of the stored state. */
module Invariants {
  import opened Wrappers
  import opened Errors
  import opened Digests
  import opened Keys
  import opened Policy
  import opened Config
  import opened Accesses
  import opened Memory
  import opened Retry
  import Breaker
  import Parts
  import Spec = StoreSpec

  // ------------------------------------------------------------------ runs

  datatype Command =
    | Put(key: string, body: Body, opts: PutOptions)
    | Get(key: string, verify: bool)
    | Head(key: string)
    | Exists(key: string)
    | Delete(key: string, strict: bool)
    | Copy(source: string, target: string, copyOpts: CopyOptions)
    | List(prefix: string, maxKeys: int, token: string)
    | Initiate(key: string, opts: PutOptions)
    | UploadPart(id: string, number: int, body: Body)
    | ListParts(id: string)
    | Complete(session: nat, id: string, parts: seq<PartETag>)
    | Abort(session: nat, id: string)
    | Close

  // The store and the guard sets of its sessions.
  datatype World = World(store: Spec.State, done: map<nat, set<string>>)

  const START := World(Spec.FRESH, map[])

  function Guard(w: World, session: nat): set<string> {
    if session in w.done then w.done[session] else {}
  }

  function Step(cfg: Config, lib: Library, w: World, cmd: Command, env: Spec.Env): World {
    match cmd
    case Put(key, body, opts) => w.(store := Spec.Put(cfg, lib, w.store, key, body, opts, env).0)
    case Get(key, verify) => w.(store := Spec.Get(cfg, lib, w.store, key, verify, env).0)
    case Head(key) => w.(store := Spec.Head(cfg, lib, w.store, key, env).0)
    case Exists(key) => w.(store := Spec.Exists(cfg, lib, w.store, key, env).0)
    case Delete(key, strict) => w.(store := Spec.Delete(cfg, lib, w.store, key, strict, env).0)
    case Copy(source, target, opts) => w.(store := Spec.Copy(cfg, lib, w.store, source, target, opts, env).0)
    case List(prefix, maxKeys, token) => w.(store := Spec.List(cfg, w.store, prefix, maxKeys, token, env).0)
    case Initiate(key, opts) => w.(store := Spec.Initiate(cfg, lib, w.store, key, opts, env).0)
    case UploadPart(id, number, body) => w.(store := Spec.UploadPart(cfg, lib, w.store, id, number, body, env).0)
    case ListParts(id) => w.(store := Spec.ListParts(cfg, w.store, id, env).0)
    case Complete(session, id, parts) =>
      var r := Spec.Complete(cfg, lib, w.store, Guard(w, session), id, parts, env);
      World(r.0, w.done[session := r.1])
    case Abort(session, id) =>
      var r := Spec.Abort(cfg, w.store, Guard(w, session), id, env);
      World(r.0, w.done[session := r.1])
    case Close => w.(store := Spec.Close(w.store))
  }

  datatype Event = Event(cmd: Command, env: Spec.Env)

  function Execute(cfg: Config, lib: Library, w: World, events: seq<Event>): World {
    if events == [] then w
    else
      var last := events[|events| - 1];
      Step(cfg, lib, Execute(cfg, lib, w, events[..|events| - 1]), last.cmd, last.env)
  }

  // ------------------------------------------------------------------ adapter accesses

  /** A key that may be written. */
  ghost predicate Writable(cfg: Config, lib: Library, key: string) {
    ValidKey(lib, key) && Permitted(cfg.permission, key)
  }

  ghost predicate Allowed(cfg: Config, lib: Library, a: Access) {
    match a
    case PutAccess(key, _, opts, _) =>
      Writable(cfg, lib, key) && (opts.algorithm == NoAlgorithm || Spec.ChecksumAlgoError(opts.algorithm, cfg.algorithms).None?)
    case CopyAccess(_, target, _, _) => Writable(cfg, lib, target)
    case InitiateAccess(key, _, _) => Writable(cfg, lib, key)
    case PartAccess(_, number, _) => 1 <= number && (cfg.maxParts > 0 ==> number <= cfg.maxParts)
    case CompleteAccess(_, parts, _) => Parts.FullOrderedSet(parts, cfg.maxParts)
    case _ => true
  }

  // What an operation finds wrong with its arguments, after the closed flag and the context.
  function CheckError(cfg: Config, lib: Library, cmd: Command): Option<GoError> {
    match cmd
    case Put(key, _, opts) => Spec.PutError(cfg, lib, key, opts)
    case Get(key, _) => Spec.KeyError(lib, key)
    case Head(key) => Spec.KeyError(lib, key)
    case Exists(key) => Spec.KeyError(lib, key)
    case Delete(key, _) => Spec.KeyError(lib, key)
    case Copy(source, target, _) => Spec.CopyError(cfg, lib, source, target)
    case Initiate(key, opts) => Spec.InitiateError(cfg, lib, key, opts)
    case UploadPart(_, number, _) => Spec.PartNumberError(cfg, number)
    case Complete(_, _, parts) => Parts.PartsError(parts, cfg.maxParts)
    case _ => None
  }

  // What failed attempts have left of a body.
  predicate LeftOver(rest: Body, body: Body) {
    |rest| <= |body| && rest == body[|body| - |rest|..]
  }

  /** The access is one that the operation makes, with the operation's own arguments. */
  predicate Belongs(cmd: Command, a: Access) {
    match cmd
    case Put(key, body, opts) => a.PutAccess? && a.key == key && a.opts == opts && LeftOver(a.body, body)
    case Get(key, _) => a == GetAccess(key)
    case Head(key) => a == HeadAccess(key)
    case Exists(key) => a == HeadAccess(key)
    case Delete(key, strict) => a == HeadAccess(key) || a == DeleteAccess(key, strict)
    case Copy(source, target, opts) => a.CopyAccess? && a.source == source && a.target == target && a.copyOpts == opts
    case List(prefix, maxKeys, token) => a == ListAccess(prefix, PageSize(maxKeys), token)
    case Initiate(key, opts) => a.InitiateAccess? && a.key == key && a.opts == opts
    case UploadPart(id, number, body) => a.PartAccess? && a.id == id && a.number == number && LeftOver(a.body, body)
    case ListParts(id) => a == PartsAccess(id)
    case Complete(_, id, parts) => a.CompleteAccess? && a.id == id && a.parts == parts
    case Abort(_, id) => a == AbortAccess(id)
    case Close => a == CloseAccess
  }

  /** An operation that passed its checks makes only allowed accesses. */
  lemma ChecksAllow(cfg: Config, lib: Library, cmd: Command, a: Access)
    requires CheckError(cfg, lib, cmd).None? && Belongs(cmd, a)
    ensures Allowed(cfg, lib, a)
  {
    if cmd.Complete? { Parts.PartsAcceptedIff(cmd.parts, cfg.maxParts); }
  }

  /** A property of the adapter's state that no allowed access breaks. */
  ghost predicate Kept(cfg: Config, lib: Library, inv: State -> bool) {
    forall m: State, a: Access :: inv(m) && Allowed(cfg, lib, a) ==> inv(Perform(lib, m, a))
  }

  ghost predicate CallKeeps<R(!new)>(fn: Spec.Closure<R>, inv: State -> bool) {
    forall i: nat, c: Spec.Captured<R> :: inv(c.mem) ==> inv(fn(i, c).0.mem)
  }

  lemma {:induction false} AfterKeeps<R(!new)>(fn: Spec.Closure<R>, c: Spec.Captured<R>, attempt: nat, k: nat,
      inv: State -> bool)
    requires CallKeeps(fn, inv) && inv(c.mem)
    ensures inv(After(fn, c, attempt, k).mem)
    decreases k
  {
    if k > 0 { AfterKeeps(fn, fn(attempt, c).0, attempt + 1, k - 1, inv); }
  }

  /** Retries and breaker included, one run of an operation keeps what each of its calls keeps. */
  lemma RunKeeps<R(!new)>(cfg: Config, breakers: map<string, Breaker.State>, op: string, env: Spec.Env, look: nat,
                          fn: Spec.Closure<R>, c: Spec.Captured<R>, inv: State -> bool)
    requires CallKeeps(fn, inv) && inv(c.mem)
    ensures inv(Spec.RunOp(cfg, breakers, op, env, look, fn, c).captured.mem)
  {
    var p := FromConfig(cfg.retry);
    RetryLaw(p, env.ctx, look, op, fn, c);
    AfterKeeps(fn, c, 1, |WithRetrySpec(p, env.ctx, look, op, fn, c).results|, inv);
  }

  lemma PutKeeps(cfg: Config, lib: Library, st: Spec.State, key: string, body: Body, opts: PutOptions, env: Spec.Env,
      inv: State -> bool)
    requires Kept(cfg, lib, inv) && inv(st.mem)
    ensures inv(Spec.Put(cfg, lib, st, key, body, opts, env).0.mem)
  {
    if Spec.First(Spec.Entry(st.closed, env.ctx), Spec.PutError(cfg, lib, key, opts)).None? {
      var fn := Spec.PutCall(lib, key, opts, env);
      forall i: nat, c: Spec.Captured<ObjectInfo> | inv(c.mem) ensures inv(fn(i, c).0.mem) {
        var a := PutAccess(key, c.body, opts, env.clock(i));
        ChecksAllow(cfg, lib, Command.Put(key, c.body, opts), a);
        assert fn(i, c).0.mem == Perform(lib, c.mem, a);
      }
      RunKeeps(cfg, st.breakers, "put", env, 0, fn, Spec.Captured(st.mem, body, None), inv);
    }
  }

  lemma HeadKeeps(cfg: Config, breakers: map<string, Breaker.State>, key: string, env: Spec.Env, m: State, inv: State -> bool)
    requires inv(m)
    ensures inv(Spec.RunOp(cfg, breakers, "head", env, 0, Spec.HeadCall(key), Spec.Captured(m, [], None)).captured.mem)
  {
    RunKeeps(cfg, breakers, "head", env, 0, Spec.HeadCall(key), Spec.Captured(m, [], None), inv);
  }

  lemma GetKeeps(cfg: Config, lib: Library, st: Spec.State, key: string, verify: bool, env: Spec.Env, inv: State -> bool)
    requires inv(st.mem)
    ensures inv(Spec.Get(cfg, lib, st, key, verify, env).0.mem)
  {
    RunKeeps(cfg, st.breakers, "get", env, 0, Spec.GetCall(key), Spec.Captured(st.mem, [], None), inv);
  }

  lemma ListKeeps(cfg: Config, st: Spec.State, prefix: string, maxKeys: int, token: string, env: Spec.Env, inv: State -> bool)
    requires inv(st.mem)
    ensures inv(Spec.List(cfg, st, prefix, maxKeys, token, env).0.mem)
  {
    RunKeeps(cfg, st.breakers, "list", env, 0, Spec.ListCall(prefix, PageSize(maxKeys), token), Spec.Captured(st.mem,
        [], None), inv);
  }

  lemma ListPartsKeeps(cfg: Config, st: Spec.State, id: string, env: Spec.Env, inv: State -> bool)
    requires inv(st.mem)
    ensures inv(Spec.ListParts(cfg, st, id, env).0.mem)
  {
    RunKeeps(cfg, st.breakers, "multipart_list_parts", env, 0, Spec.ListPartsCall(id), Spec.Captured(st.mem, [], None), inv);
  }

  lemma DeleteStoredKeeps(cfg: Config, lib: Library, st: Spec.State, key: string, strict: bool, env: Spec.Env,
      look: nat, inv: State -> bool)
    requires Kept(cfg, lib, inv) && inv(st.mem)
    ensures inv(Spec.DeleteStored(cfg, st, key, strict, env, look).0.mem)
  {
    var fn := Spec.DeleteCall(key, strict);
    forall i: nat, c: Spec.Captured<()> | inv(c.mem) ensures inv(fn(i, c).0.mem) {
      var a := DeleteAccess(key, strict);
      assert Allowed(cfg, lib, a) && fn(i, c).0.mem == Perform(lib, c.mem, a);
    }
    RunKeeps(cfg, st.breakers, "delete", env, look, fn, Spec.Captured(st.mem, [], None), inv);
  }

  lemma DeleteKeeps(cfg: Config, lib: Library, st: Spec.State, key: string, strict: bool, env: Spec.Env, inv: State -> bool)
    requires Kept(cfg, lib, inv) && inv(st.mem)
    ensures inv(Spec.Delete(cfg, lib, st, key, strict, env).0.mem)
  {
    HeadKeeps(cfg, st.breakers, key, env, st.mem, inv);
    var checked := Spec.Preflight(cfg, st, key, strict, env).0;
    DeleteStoredKeeps(cfg, lib, checked, key, strict, env, Spec.SecondLook(cfg), inv);
    DeleteStoredKeeps(cfg, lib, st, key, strict, env, 0, inv);
  }

  lemma CopyKeeps(cfg: Config, lib: Library, st: Spec.State, source: string, target: string, opts: CopyOptions,
      env: Spec.Env, inv: State -> bool)
    requires Kept(cfg, lib, inv) && inv(st.mem)
    ensures inv(Spec.Copy(cfg, lib, st, source, target, opts, env).0.mem)
  {
    if Spec.CopyError(cfg, lib, source, target).None? {
      var fn := Spec.CopyCall(lib, source, target, opts, env);
      forall i: nat, c: Spec.Captured<ObjectInfo> | inv(c.mem) ensures inv(fn(i, c).0.mem) {
        var a := CopyAccess(source, target, opts, env.clock(i));
        ChecksAllow(cfg, lib, Command.Copy(source, target, opts), a);
        assert fn(i, c).0.mem == Perform(lib, c.mem, a);
      }
      RunKeeps(cfg, st.breakers, "copy", env, 0, fn, Spec.Captured(st.mem, [], None), inv);
    }
  }

  lemma InitiateKeeps(cfg: Config, lib: Library, st: Spec.State, key: string, opts: PutOptions, env: Spec.Env,
      inv: State -> bool)
    requires Kept(cfg, lib, inv) && inv(st.mem)
    ensures inv(Spec.Initiate(cfg, lib, st, key, opts, env).0.mem)
  {
    if Spec.InitiateError(cfg, lib, key, opts).None? {
      var fn := Spec.InitiateCall(key, opts, env);
      forall i: nat, c: Spec.Captured<string> | inv(c.mem) ensures inv(fn(i, c).0.mem) {
        var a := InitiateAccess(key, opts, env.clock(i));
        ChecksAllow(cfg, lib, Command.Initiate(key, opts), a);
        assert fn(i, c).0.mem == Perform(lib, c.mem, a);
      }
      RunKeeps(cfg, st.breakers, "multipart_initiate", env, 0, fn, Spec.Captured(st.mem, [], None), inv);
    }
  }

  lemma UploadPartKeeps(cfg: Config, lib: Library, st: Spec.State, id: string, number: int, body: Body,
      env: Spec.Env, inv: State -> bool)
    requires Kept(cfg, lib, inv) && inv(st.mem)
    ensures inv(Spec.UploadPart(cfg, lib, st, id, number, body, env).0.mem)
  {
    if Spec.PartNumberError(cfg, number).None? {
      var fn := Spec.UploadPartCall(lib, id, number);
      forall i: nat, c: Spec.Captured<PartETag> | inv(c.mem) ensures inv(fn(i, c).0.mem) {
        var a := PartAccess(id, number, c.body);
        ChecksAllow(cfg, lib, Command.UploadPart(id, number, c.body), a);
        assert fn(i, c).0.mem == Perform(lib, c.mem, a);
      }
      RunKeeps(cfg, st.breakers, "multipart_upload_part", env, 0, fn, Spec.Captured(st.mem, body, None), inv);
    }
  }

  lemma CompleteKeeps(cfg: Config, lib: Library, st: Spec.State, done: set<string>, id: string, parts: seq<PartETag>,
      env: Spec.Env, inv: State -> bool)
    requires Kept(cfg, lib, inv) && inv(st.mem)
    ensures inv(Spec.Complete(cfg, lib, st, done, id, parts, env).0.mem)
  {
    if Parts.PartsError(parts, cfg.maxParts).None? {
      var fn := Spec.CompleteCall(lib, id, parts, env);
      forall i: nat, c: Spec.Captured<ObjectInfo> | inv(c.mem) ensures inv(fn(i, c).0.mem) {
        var a := CompleteAccess(id, parts, env.clock(i));
        ChecksAllow(cfg, lib, Command.Complete(0, id, parts), a);
        assert fn(i, c).0.mem == Perform(lib, c.mem, a);
      }
      RunKeeps(cfg, st.breakers, "multipart_complete", env, 0, fn, Spec.Captured(st.mem, [], None), inv);
    }
  }

  lemma AbortKeeps(cfg: Config, lib: Library, st: Spec.State, done: set<string>, id: string, env: Spec.Env, inv: State -> bool)
    requires Kept(cfg, lib, inv) && inv(st.mem)
    ensures inv(Spec.Abort(cfg, st, done, id, env).0.mem)
  {
    var fn := Spec.AbortCall(id);
    forall i: nat, c: Spec.Captured<()> | inv(c.mem) ensures inv(fn(i, c).0.mem) {
      var a := AbortAccess(id);
      assert Allowed(cfg, lib, a) && fn(i, c).0.mem == Perform(lib, c.mem, a);
    }
    RunKeeps(cfg, st.breakers, "multipart_abort", env, 0, fn, Spec.Captured(st.mem, [], None), inv);
  }

  predicate IsRead(cmd: Command) {
    cmd.Get? || cmd.Head? || cmd.Exists? || cmd.List? || cmd.ListParts? || cmd.Close?
  }

  lemma ReadStepKeeps(cfg: Config, lib: Library, w: World, cmd: Command, env: Spec.Env, inv: State -> bool)
    requires Kept(cfg, lib, inv) && inv(w.store.mem) && IsRead(cmd)
    ensures inv(Step(cfg, lib, w, cmd, env).store.mem)
  {
    match cmd
    case Get(key, verify) => GetKeeps(cfg, lib, w.store, key, verify, env, inv);
    case Head(key) => HeadKeeps(cfg, w.store.breakers, key, env, w.store.mem, inv);
    case Exists(key) => HeadKeeps(cfg, w.store.breakers, key, env, w.store.mem, inv);
    case List(prefix, maxKeys, token) => ListKeeps(cfg, w.store, prefix, maxKeys, token, env, inv);
    case ListParts(id) => ListPartsKeeps(cfg, w.store, id, env, inv);
    case Close =>
      assert Allowed(cfg, lib, CloseAccess) && Perform(lib, w.store.mem, CloseAccess) == Memory.Close(w.store.mem);
  }

  lemma WriteStepKeeps(cfg: Config, lib: Library, w: World, cmd: Command, env: Spec.Env, inv: State -> bool)
    requires Kept(cfg, lib, inv) && inv(w.store.mem) && !IsRead(cmd)
    ensures inv(Step(cfg, lib, w, cmd, env).store.mem)
  {
    match cmd
    case Put(key, body, opts) => PutKeeps(cfg, lib, w.store, key, body, opts, env, inv);
    case Delete(key, strict) => DeleteKeeps(cfg, lib, w.store, key, strict, env, inv);
    case Copy(source, target, opts) => CopyKeeps(cfg, lib, w.store, source, target, opts, env, inv);
    case Initiate(key, opts) => InitiateKeeps(cfg, lib, w.store, key, opts, env, inv);
    case UploadPart(id, number, body) => UploadPartKeeps(cfg, lib, w.store, id, number, body, env, inv);
    case Complete(session, id, parts) => CompleteKeeps(cfg, lib, w.store, Guard(w, session), id, parts, env, inv);
    case Abort(session, id) => AbortKeeps(cfg, lib, w.store, Guard(w, session), id, env, inv);
  }

  lemma {:induction false} RunsKeep(cfg: Config, lib: Library, events: seq<Event>, inv: State -> bool)
    requires Kept(cfg, lib, inv) && inv(EMPTY)
    ensures inv(Execute(cfg, lib, START, events).store.mem)
    decreases |events|
  {
    if events != [] {
      var front, last := events[..|events| - 1], events[|events| - 1];
      RunsKeep(cfg, lib, front, inv);
      var w := Execute(cfg, lib, START, front);
      if IsRead(last.cmd) {
        ReadStepKeeps(cfg, lib, w, last.cmd, last.env, inv);
      } else {
        WriteStepKeeps(cfg, lib, w, last.cmd, last.env, inv);
      }
    }
  }

  // ------------------------------------------------------------------ the gate invariant

  /** Everything stored or being uploaded passed the key rules and the permission policy, and every
      staged part has a number within bounds under which it is filed. */
  ghost predicate Gated(cfg: Config, lib: Library, m: State) {
    && (forall k :: k in m.objects ==> Writable(cfg, lib, k))
    && (forall id :: id in m.uploads ==> Writable(cfg, lib, m.uploads[id].key))
    && (forall id, n :: id in m.uploads && n in m.uploads[id].parts ==>
          1 <= n <= cfg.maxParts && m.uploads[id].parts[n].partNumber == n)
  }

  lemma GatedStep(cfg: Config, lib: Library, m: State, a: Access)
    requires Sound(cfg) && Gated(cfg, lib, m) && Allowed(cfg, lib, a)
    ensures Gated(cfg, lib, Perform(lib, m, a))
  {
  }

  /** In every state that a new store over a fresh adapter can reach. */
  lemma GateInvariant(raw: Config, lib: Library, events: seq<Event>)
    requires Construct(raw).Ok?
    ensures Gated(Construct(raw).value, lib, Execute(Construct(raw).value, lib, START, events).store.mem)
  {
    var cfg := Construct(raw).value;
    ConstructedIsSound(raw);
    forall m: State, a: Access | Gated(cfg, lib, m) && Allowed(cfg, lib, a) ensures Gated(cfg, lib, Perform(lib, m, a)) {
      GatedStep(cfg, lib, m, a);
    }
    RunsKeep(cfg, lib, events, m => Gated(cfg, lib, m));
  }

  // ------------------------------------------------------------------ the checksum invariant

  ghost predicate ChecksumValid(lib: Library, obj: Object) {
    obj.checksum != "" ==> obj.checksum == ComputeChecksum(lib.digests, InferAlgorithm(obj.checksum), obj.body)
  }

  ghost predicate ChecksumsValid(lib: Library, m: State) {
    forall k :: k in m.objects ==> ChecksumValid(lib, m.objects[k])
  }

  lemma ChecksumStep(cfg: Config, lib: Library, m: State, a: Access)
    requires ChecksumsValid(lib, m) && Allowed(cfg, lib, a)
    ensures ChecksumsValid(lib, Perform(lib, m, a))
  {
    if a.PutAccess? {
      InferInvertsCompute(lib.digests, a.opts.algorithm, ReadAll(a.body).0.data);
    }
  }

  /** Through any chain of puts, copies and multipart completions, every stored checksum is the
      checksum of the stored body under the algorithm that its length suggests. */
  lemma ChecksumInvariant(cfg: Config, lib: Library, events: seq<Event>)
    ensures ChecksumsValid(lib, Execute(cfg, lib, START, events).store.mem)
  {
    forall m: State, a: Access | ChecksumsValid(lib, m) && Allowed(cfg, lib, a) ensures ChecksumsValid(lib,
        Perform(lib, m, a)) {
      ChecksumStep(cfg, lib, m, a);
    }
    RunsKeep(cfg, lib, events, m => ChecksumsValid(lib, m));
  }

  /** What a Get can return: the stored body with its info. */
  ghost predicate GotStored(m: State, key: string, out: Option<(seq<byte>, ObjectInfo)>) {
    out.Some? ==> key in m.objects && out.value == (m.objects[key].body, InfoOf(key, m.objects[key]))
  }

  lemma {:induction false} GetReturnsStored(key: string, c: Spec.Captured<(seq<byte>, ObjectInfo)>, attempt: nat, k: nat)
    requires GotStored(c.mem, key, c.out)
    ensures After(Spec.GetCall(key), c, attempt, k).mem == c.mem
    ensures GotStored(c.mem, key, After(Spec.GetCall(key), c, attempt, k).out)
    decreases k
  {
    if k > 0 { GetReturnsStored(key, Spec.GetCall(key)(attempt, c).0, attempt + 1, k - 1); }
  }

  lemma RunReturnsStored(cfg: Config, st: Spec.State, key: string, env: Spec.Env)
    ensures GotStored(st.mem, key,
                      Spec.RunOp(cfg, st.breakers, "get", env, 0, Spec.GetCall(key), Spec.Captured(st.mem, [],
                          None)).captured.out)
  {
    var p, c := FromConfig(cfg.retry), Spec.Captured(st.mem, [], None);
    RetryLaw(p, env.ctx, 0, "get", Spec.GetCall(key), c);
    GetReturnsStored(key, c, 1, |WithRetrySpec(p, env.ctx, 0, "get", Spec.GetCall(key), c).results|);
  }

  /** The reader agrees with the stored object, and if it verifies it will find what it expects. */
  ghost predicate Verifiable(lib: Library, m: State, key: string, reader: Spec.Reader) {
    && key in m.objects && reader.content == m.objects[key].body
    && (reader.verifying <==> InferAlgorithm(m.objects[key].checksum) != NoAlgorithm)
    && (reader.verifying ==>
          Supported(reader.info.checksumAlgo)
          && StreamedChecksum(NewHasher(lib.digests, reader.info.checksumAlgo), reader.content) == reader.info.checksumHex)
  }

  lemma StoredIsVerifiable(lib: Library, m: State, key: string, reader: Spec.Reader)
    requires ChecksumsValid(lib, m) && GotStored(m, key, Some((reader.content, reader.info)))
    requires reader.verifying <==> Supported(reader.info.checksumAlgo) && reader.info.checksumHex != ""
    ensures Verifiable(lib, m, key, reader)
  {
    if reader.verifying {
      StreamedIsOneShot(lib.digests, reader.info.checksumAlgo, reader.content);
    }
  }

  /** In a reachable state, a Get with verification hands out a verifying reader exactly for an object
      with a checksum of a known length, and its content streams to the digest that reader expects. */
  lemma VerifiedGetMatches(cfg: Config, lib: Library, events: seq<Event>, key: string, env: Spec.Env)
    ensures var st := Execute(cfg, lib, START, events).store;
            var r := Spec.Get(cfg, lib, st, key, true, env).1;
            r.Ok? && r.value.Some? ==> Verifiable(lib, st.mem, key, r.value.value)
  {
    var st := Execute(cfg, lib, START, events).store;
    ChecksumInvariant(cfg, lib, events);
    RunReturnsStored(cfg, st, key, env);
    var r := Spec.Get(cfg, lib, st, key, true, env).1;
    if r.Ok? && r.value.Some? {
      StoredIsVerifiable(lib, st.mem, key, r.value.value);
    }
  }
}
