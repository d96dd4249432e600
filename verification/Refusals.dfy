/** What an operation refuses before it reaches the adapter (pkg/ossx/blobstore.go, pkg/ossx/multipart.go),
    told by what is wrong with it. */
module Refusals {
  import opened Wrappers
  import opened Errors
  import opened Digests
  import opened Keys
  import opened Policy
  import opened Config
  import opened Memory
  import opened Retry
  import Invariants
  import Parts
  import Spec = StoreSpec

  ghost predicate StartsWithAny(key: string, prefixes: seq<string>) {
    exists p, rest :: p in prefixes && key == p + rest
  }

  // The refusal of a key: malformed, or not to be written.
  ghost function KeyRefusal(lib: Library, key: string): Option<GoError> {
    if WellFormed(lib, key) then None else Some(KeyProblem(lib, key))
  }

  ghost function WriteRefusal(perm: PermissionPolicy, key: string): Option<GoError> {
    if StartsWithAny(key, perm.deniedPrefixes) then Some(DENIED)
    else if perm.allowedPrefixes != [] && !StartsWithAny(key, perm.allowedPrefixes) then Some(OUTSIDE)
    else None
  }

  ghost predicate Offered(cfg: Config, alg: Algorithm) {
    if cfg.algorithms == [] then alg in {SHA256, MD5, CRC32} else alg in cfg.algorithms
  }

  function BadAlgorithm(cfg: Config): GoError {
    NewError(ErrorKind.Config, "checksum", if cfg.algorithms == [] then "unsupported algorithm" else "algorithm not in policy")
  }

  ghost function PutRefusal(cfg: Config, lib: Library, key: string, opts: PutOptions): Option<GoError> {
    if !WellFormed(lib, key) then Some(KeyProblem(lib, key))
    else if !Fits(opts.metadata) then Some(Annotate("metadata", ErrInvalidMetadata))
    else if opts.algorithm != NoAlgorithm && !Offered(cfg, opts.algorithm) then Some(BadAlgorithm(cfg))
    else WriteRefusal(cfg.permission, key)
  }

  // Only the target of a copy is written.
  ghost function CopyRefusal(cfg: Config, lib: Library, source: string, target: string): Option<GoError> {
    if !WellFormed(lib, source) then Some(KeyProblem(lib, source))
    else if !WellFormed(lib, target) then Some(KeyProblem(lib, target))
    else WriteRefusal(cfg.permission, target)
  }

  // Initiate does not look at the checksum algorithm.
  ghost function InitiateRefusal(cfg: Config, lib: Library, key: string, opts: PutOptions): Option<GoError> {
    if !WellFormed(lib, key) then Some(KeyProblem(lib, key))
    else if !Fits(opts.metadata) then Some(Annotate("metadata", ErrInvalidMetadata))
    else WriteRefusal(cfg.permission, key)
  }

  lemma StartsWithAnyIff(key: string, prefixes: seq<string>)
    ensures Covered(prefixes, key) <==> StartsWithAny(key, prefixes)
  {
    if Covered(prefixes, key) {
      var p :| p in prefixes && HasPrefix(key, p);
      assert key == p + key[|p|..];
    }
    if StartsWithAny(key, prefixes) {
      var p, rest :| p in prefixes && key == p + rest;
      assert HasPrefix(key, p);
    }
  }

  lemma WriteRefusalExact(perm: PermissionPolicy, key: string)
    ensures KeyPolicyError(perm, key) == WriteRefusal(perm, key)
    ensures Permitted(perm, key) <==> WriteRefusal(perm, key).None?
  {
    StartsWithAnyIff(key, perm.deniedPrefixes);
    StartsWithAnyIff(key, perm.allowedPrefixes);
  }

  lemma KeyRefusalExact(lib: Library, key: string)
    ensures Spec.KeyError(lib, key) == KeyRefusal(lib, key)
  {
    hide NewKey, KeyProblem, WellFormed;
    NewKeyExact(lib, key);
  }

  lemma PutRefusalExact(cfg: Config, lib: Library, key: string, opts: PutOptions)
    ensures Spec.PutError(cfg, lib, key, opts) == PutRefusal(cfg, lib, key, opts)
  {
    hide Spec.KeyError, ValidateMetadata, KeyPolicyError, KeyProblem, WellFormed, Fits, WriteRefusal;
    KeyRefusalExact(lib, key);
    MetadataFitsIff(opts.metadata);
    WriteRefusalExact(cfg.permission, key);
  }

  lemma CopyRefusalExact(cfg: Config, lib: Library, source: string, target: string)
    ensures Spec.CopyError(cfg, lib, source, target) == CopyRefusal(cfg, lib, source, target)
  {
    hide Spec.KeyError, KeyPolicyError, KeyProblem, WellFormed, WriteRefusal;
    KeyRefusalExact(lib, source);
    KeyRefusalExact(lib, target);
    WriteRefusalExact(cfg.permission, target);
  }

  lemma InitiateRefusalExact(cfg: Config, lib: Library, key: string, opts: PutOptions)
    ensures Spec.InitiateError(cfg, lib, key, opts) == InitiateRefusal(cfg, lib, key, opts)
  {
    hide Spec.KeyError, ValidateMetadata, KeyPolicyError, KeyProblem, WellFormed, Fits, WriteRefusal;
    KeyRefusalExact(lib, key);
    MetadataFitsIff(opts.metadata);
    WriteRefusalExact(cfg.permission, key);
  }

  // ------------------------------------------------------------------ every operation

  /** What an operation finds wrong with its arguments, the first in the order of its checks. */
  ghost function Refusal(cfg: Config, lib: Library, cmd: Invariants.Command): Option<GoError> {
    match cmd
    case Put(key, _, opts) => PutRefusal(cfg, lib, key, opts)
    case Get(key, _) => KeyRefusal(lib, key)
    case Head(key) => KeyRefusal(lib, key)
    case Exists(key) => KeyRefusal(lib, key)
    case Delete(key, _) => KeyRefusal(lib, key)
    case Copy(source, target, _) => CopyRefusal(cfg, lib, source, target)
    case Initiate(key, opts) => InitiateRefusal(cfg, lib, key, opts)
    case UploadPart(_, number, _) => PartRefusal(cfg, number)
    case Complete(_, _, parts) => Parts.PartsError(parts, cfg.maxParts)
    case _ => None
  }

  // Part numbers are 1..MaxParts, where no positive MaxParts means no bound.
  function PartRefusal(cfg: Config, number: int): Option<GoError> {
    if number <= 0 then Some(NewError(Validation, "UploadPart", "part number must be >= 1"))
    else if cfg.maxParts <= 0 || number <= cfg.maxParts then None
    else Some(NewError(Validation, "UploadPart", "part number exceeds MaxParts"))
  }

  /** A refusal concerns the caller alone: no retry would help, no breaker counts it, and it is not about a
      missing object. */
  ghost predicate CallersFault(e: GoError) {
    && FindTyped(e).Some? && FindTyped(e).value.kind in {Validation, ErrorKind.Config}
    && ClassifyError(e) == NonRetryable && !IsRetryable(e) && !Spec.IsNotFound(e)
  }

  lemma RefusalExact(cfg: Config, lib: Library, cmd: Invariants.Command)
    ensures Invariants.CheckError(cfg, lib, cmd) == Refusal(cfg, lib, cmd)
    ensures Refusal(cfg, lib, cmd).Some? ==> CallersFault(Refusal(cfg, lib, cmd).value)
  {
    hide Spec.KeyError, Spec.PutError, Spec.CopyError, Spec.InitiateError, PutRefusal, CopyRefusal, InitiateRefusal, Parts.PartsError;
    match cmd
    case Put(key, _, opts) => PutRefusalExact(cfg, lib, key, opts); PutAtFault(cfg, lib, key, opts);
    case Get(key, _) => KeyRefusalExact(lib, key); KeyAtFault(lib, key);
    case Head(key) => KeyRefusalExact(lib, key); KeyAtFault(lib, key);
    case Exists(key) => KeyRefusalExact(lib, key); KeyAtFault(lib, key);
    case Delete(key, _) => KeyRefusalExact(lib, key); KeyAtFault(lib, key);
    case Copy(source, target, _) => CopyRefusalExact(cfg, lib, source, target); CopyAtFault(cfg, lib, source, target);
    case Initiate(key, opts) => InitiateRefusalExact(cfg, lib, key, opts); InitiateAtFault(cfg, lib, key, opts);
    case UploadPart(_, number, _) =>
    case Complete(_, _, parts) => PartsAtFault(parts, cfg.maxParts);
    case _ =>
  }

  lemma KeyAtFault(lib: Library, key: string)
    ensures CallersFault(KeyProblem(lib, key))
  {
    hide WellFormed, KeyProblem;
    NewKeyExact(lib, key);
  }

  lemma PutAtFault(cfg: Config, lib: Library, key: string, opts: PutOptions)
    ensures PutRefusal(cfg, lib, key, opts).Some? ==> CallersFault(PutRefusal(cfg, lib, key, opts).value)
  {
    hide WellFormed, KeyProblem, Fits, StartsWithAny, Offered;
    KeyAtFault(lib, key);
    MetadataFitsIff(opts.metadata);
  }

  lemma CopyAtFault(cfg: Config, lib: Library, source: string, target: string)
    ensures CopyRefusal(cfg, lib, source, target).Some? ==> CallersFault(CopyRefusal(cfg, lib, source, target).value)
  {
    hide WellFormed, KeyProblem, StartsWithAny;
    KeyAtFault(lib, source);
    KeyAtFault(lib, target);
  }

  lemma InitiateAtFault(cfg: Config, lib: Library, key: string, opts: PutOptions)
    ensures InitiateRefusal(cfg, lib, key, opts).Some? ==> CallersFault(InitiateRefusal(cfg, lib, key, opts).value)
  {
    hide WellFormed, KeyProblem, Fits, StartsWithAny;
    KeyAtFault(lib, key);
    MetadataFitsIff(opts.metadata);
  }

  lemma PartsAtFault(parts: seq<PartETag>, maxParts: int)
    ensures Parts.PartsError(parts, maxParts).Some? ==> CallersFault(Parts.PartsError(parts, maxParts).value)
  {
    hide Parts.PartsError;
    if Parts.PartsError(parts, maxParts).Some? { Parts.PartsRefused(parts, maxParts); }
  }

  // ------------------------------------------------------------------ the context, and what a refusal changes

  /** An operation stops at its entry if and only if its context has ended: as a timeout if the deadline
      passed, as cancelled otherwise, and the context's own error is the cause. */
  lemma ContextErrorExact(ctx: Context)
    ensures Spec.ContextError(ctx).Some? <==> ctx(0).Some?
    ensures ctx(0).Some? ==>
              var e := Spec.ContextError(ctx).value;
              && e.Typed? && e.cause == ctx(0)
              && e.kind == (if ctx(0) == Some(Foreign("context deadline exceeded", [])) then Timeout else Canceled)
              && Built(e) == Built(ctx(0).value)
  {
  }

  /** On a closed store, with an ended context or with refused arguments, no operation but Close does anything:
      adapter, breakers and all guards stay as they were. */
  lemma RefusedChangesNothing(cfg: Config, lib: Library, w: Invariants.World, cmd: Invariants.Command, env: Spec.Env, session: nat)
    requires !cmd.Close? && (w.store.closed || env.ctx(0).Some? || Refusal(cfg, lib, cmd).Some?)
    ensures var after := Invariants.Step(cfg, lib, w, cmd, env);
            after.store == w.store && Invariants.Guard(after, session) == Invariants.Guard(w, session)
  {
    hide Spec.RunOp, Refusal, Spec.PutError, Spec.KeyError, Spec.CopyError, Spec.InitiateError, Spec.PartNumberError, Parts.PartsError,
         Spec.CompleteMarked, Spec.DeleteStored, Spec.Preflight;
    RefusalExact(cfg, lib, cmd);
    ContextErrorExact(env.ctx);
  }
}
