/** Permission and retention gates (pkg/ossx/policy.go). */
module Policy {
  import opened Wrappers
  import opened Errors
  import opened Keys

  datatype PermissionPolicy = PermissionPolicy(allowedPrefixes: seq<string>, deniedPrefixes: seq<string>)

  datatype RetentionMode = Unset | NoRetention | Governance | Compliance | OtherMode(name: string)

  datatype RetentionPolicy = RetentionPolicy(mode: RetentionMode, maxDays: int) {
    predicate Enabled() {
      mode != NoRetention && mode != Unset
    }
  }

  // ------------------------------------------------------------------ permission

  predicate Covered(prefixes: seq<string>, key: string) {
    exists p :: p in prefixes && HasPrefix(key, p)
  }

  /** A key may be written when no denied prefix covers it and, if any prefix is allowed, one does. */
  predicate Permitted(perm: PermissionPolicy, key: string) {
    !Covered(perm.deniedPrefixes, key) && (perm.allowedPrefixes == [] || Covered(perm.allowedPrefixes, key))
  }

  const DENIED := NewError(Validation, "policy", "key denied by permission policy")
  const OUTSIDE := NewError(Validation, "policy", "key not in allowed prefixes")

  function KeyPolicyError(perm: PermissionPolicy, key: string): (r: Option<GoError>)
    ensures r.None? <==> Permitted(perm, key)
  {
    if Covered(perm.deniedPrefixes, key) then Some(DENIED)
    else if perm.allowedPrefixes != [] && !Covered(perm.allowedPrefixes, key) then Some(OUTSIDE)
    else None
  }

  // validateKeyPolicy
  method ValidateKeyPolicy(perm: PermissionPolicy, key: string) returns (err: Option<GoError>)
    ensures err == KeyPolicyError(perm, key)
  {
    for i := 0 to |perm.deniedPrefixes|
      invariant forall k :: 0 <= k < i ==> !HasPrefix(key, perm.deniedPrefixes[k])
    {
      if HasPrefix(key, perm.deniedPrefixes[i]) {
        return Some(DENIED);
      }
    }
    if |perm.allowedPrefixes| > 0 {
      var allowed := false;
      for i := 0 to |perm.allowedPrefixes|
        invariant !allowed
        invariant forall k :: 0 <= k < i ==> !HasPrefix(key, perm.allowedPrefixes[k])
      {
        if HasPrefix(key, perm.allowedPrefixes[i]) {
          allowed := true;
          break;
        }
      }
      if !allowed {
        return Some(OUTSIDE);
      }
    }
    return None;
  }

  // ------------------------------------------------------------------ retention

  const DAY := 24 * 3600 * 1_000_000_000
  const MAX_DURATION := 0x7FFF_FFFF_FFFF_FFFF
  const MIN_DURATION := -0x8000_0000_0000_0000
  const LONGEST_RETENTION_DAYS := 106751

  // time.Duration arithmetic is 64-bit and wraps; Time.Sub saturates.
  function Wrap64(x: int): int {
    (x - MIN_DURATION) % 0x1_0000_0000_0000_0000 + MIN_DURATION
  }

  function TimeSub(a: int, b: int): int {
    if a - b > MAX_DURATION then MAX_DURATION else if a - b < MIN_DURATION then MIN_DURATION else a - b
  }

  const TOO_YOUNG := NewError(Validation, "policy", "delete forbidden by retention policy (object younger than MaxDays)")

  // validateRetentionDelete; created is None for the zero time.
  function RetentionError(ret: RetentionPolicy, created: Option<int>, now: int): Option<GoError> {
    if !ret.Enabled() then None
    else if ret.maxDays <= 0 || created.None? then None
    else if TimeSub(now, created.value) < Wrap64(ret.maxDays * DAY) then Some(TOO_YOUNG)
    else None
  }

  /** The promise: an object is protected exactly while it is younger than MaxDays days. */
  ghost predicate ProtectsExactly(ret: RetentionPolicy) {
    forall created: int, now: int :: RetentionError(ret, Some(created), now).Some? <==> now - created < ret.maxDays * DAY
  }

  lemma WithinRange(ret: RetentionPolicy)
    requires ret.Enabled() && 1 <= ret.maxDays <= LONGEST_RETENTION_DAYS
    ensures ProtectsExactly(ret)
  {
    assert 0 <= ret.maxDays * DAY <= MAX_DURATION;
    assert Wrap64(ret.maxDays * DAY) == ret.maxDays * DAY;
  }

  lemma BeyondRange(ret: RetentionPolicy)
    requires ret.Enabled() && ret.maxDays > LONGEST_RETENTION_DAYS
    ensures !ProtectsExactly(ret)
  {
    var limit := Wrap64(ret.maxDays * DAY);
    assert ret.maxDays * DAY > MAX_DURATION;
    assert MIN_DURATION <= limit <= MAX_DURATION;
    var age := if limit < 0 then 0 else limit;
    assert RetentionError(ret, Some(0), age).None? && age - 0 < ret.maxDays * DAY;
  }

  /** With retention on, the promise is kept for all objects and times exactly when MaxDays is at most
      106751: beyond that MaxDays*24h no longer fits a 64-bit duration and wraps. */
  lemma RetentionKeptIff(ret: RetentionPolicy)
    requires ret.Enabled() && ret.maxDays >= 1
    ensures ProtectsExactly(ret) <==> ret.maxDays <= LONGEST_RETENTION_DAYS
  {
    if ret.maxDays <= LONGEST_RETENTION_DAYS {
      WithinRange(ret);
    } else {
      BeyondRange(ret);
    }
  }

  /** Retention never refuses when its mode is empty or "none", when no days are set, or when the age of the
      object is unknown; the other modes that a configuration may have turn it on. */
  lemma RetentionOff(ret: RetentionPolicy, created: Option<int>, now: int)
    ensures ret.mode in {Unset, NoRetention} || ret.maxDays <= 0 || created.None? ==> RetentionError(ret, created, now).None?
    ensures ret.mode in {Governance, Compliance} ==> ret.Enabled()
  {
  }
}
