/** Configuration defaults and checks (pkg/ossx/config.go, NewBlobStore in pkg/ossx/blobstore.go). */
module Config {
  import opened Wrappers
  import opened Errors
  import opened Digests
  import opened Policy
  import Retry
  import Breaker

  datatype Lifecycle = Lifecycle(enabled: bool, minDays: int, storageClass: string)

  datatype Config = Config(
    endpoint: string, bucket: string, region: string,
    operationTimeout: int, connectTimeout: int,
    minPartSize: int, maxParts: int, staleTTL: int, maxConcurrency: int,
    presignMaxTTL: int,
    algorithms: seq<Algorithm>,
    lifecycle: Lifecycle, retention: RetentionPolicy, permission: PermissionPolicy,
    retry: Retry.RetryConfig)

  const MAX_PRESIGN_TTL := 15 * 60 * Retry.SECOND
  const DEFAULT_RETRY :=
    Retry.RetryConfig(3, 100 * Retry.MILLISECOND, 5 * Retry.SECOND, 2.0, 5, 30 * Retry.SECOND)

  function WithDefaults(c: Config): Config {
    var c1 := if c.retry.maxAttempts == 0 && c.retry.initialWait == 0 then c.(retry := DEFAULT_RETRY) else c;
    var c2 := if c1.maxParts == 0 then c1.(maxParts := 10000) else c1;
    var c3 := if c2.maxConcurrency == 0 then c2.(maxConcurrency := 4) else c2;
    if c3.presignMaxTTL == 0 then c3.(presignMaxTTL := MAX_PRESIGN_TTL) else c3
  }

  function Invalid(message: string): Option<GoError> {
    Some(NewError(ErrorKind.Config, "config", message))
  }

  function Validate(c: Config): Option<GoError> {
    if c.endpoint == "" then Invalid("endpoint empty")
    else if c.bucket == "" then Invalid("bucket empty")
    else if c.region == "" then Invalid("region empty")
    else if c.operationTimeout < 0 then Invalid("negative operation timeout")
    else if c.connectTimeout < 0 then Invalid("negative connect timeout")
    else if c.minPartSize < 0 then Invalid("negative multipart min part size")
    else if c.maxParts < 0 then Invalid("negative multipart max parts")
    else if c.staleTTL < 0 then Invalid("negative multipart stale TTL")
    else if c.presignMaxTTL > MAX_PRESIGN_TTL then Invalid("presign max TTL exceeds 15m0s")
    else if c.presignMaxTTL < 0 then Invalid("negative presign TTL")
    else if exists a :: a in c.algorithms && !Supported(a) then Invalid("unsupported checksum algorithm")
    else if c.lifecycle.enabled && c.lifecycle.minDays < 0 then Invalid("lifecycle MinDays negative")
    else if c.lifecycle.enabled && c.lifecycle.storageClass == "" then Invalid("lifecycle enabled without StorageClass")
    else if c.retention.mode.OtherMode? then Invalid("unsupported retention mode")
    else if c.retention.Enabled() && c.retention.maxDays < 0 then Invalid("retention MaxDays negative")
    else if exists p :: p in c.permission.allowedPrefixes && p in c.permission.deniedPrefixes then
      Invalid("prefix both allowed and denied")
    else if c.retry.maxAttempts < 0 then Invalid("retry MaxAttempts negative")
    else if c.retry.multiplier < 0.0 then Invalid("retry Multiplier negative")
    else None
  }

  // The configuration that NewBlobStore keeps, for an adapter with every capability.
  function Construct(c: Config): Result<Config, GoError> {
    var filled := WithDefaults(c);
    var bad := Validate(filled);
    if bad.Some? then Err(bad.value) else Ok(filled)
  }

  /** What the operations rely on. */
  ghost predicate Sound(c: Config) {
    && c.maxParts >= 1
    && 0 < c.presignMaxTTL <= MAX_PRESIGN_TTL
    && (forall a :: a in c.algorithms ==> Supported(a))
    && (c.retention.Enabled() ==> c.retention.maxDays >= 0 && c.retention.mode in {Governance, Compliance})
    && (forall p :: p in c.permission.allowedPrefixes ==> p !in c.permission.deniedPrefixes)
  }

  /** Every configuration that NewBlobStore accepts is sound, filling the defaults twice changes
      nothing, and the wanted caps hold whatever the caller supplied. */
  lemma ConstructedIsSound(c: Config)
    requires Construct(c).Ok?
    ensures Sound(Construct(c).value)
    ensures Construct(Construct(c).value) == Construct(c)
    ensures c.maxParts != 0 ==> Construct(c).value.maxParts == c.maxParts
  {
  }

  /** What makes a configuration acceptable, defaults aside. */
  ghost predicate Acceptable(c: Config) {
    && "" !in {c.endpoint, c.bucket, c.region}
    && c.operationTimeout >= 0 && c.connectTimeout >= 0 && c.minPartSize >= 0 && c.maxParts >= 0 && c.staleTTL >= 0
    && 0 <= c.presignMaxTTL <= 900_000_000_000
    && (forall a :: a in c.algorithms ==> a in {SHA256, MD5, CRC32})
    && (c.lifecycle.enabled ==> c.lifecycle.minDays >= 0 && c.lifecycle.storageClass != "")
    && c.retention.mode in {Unset, NoRetention, Governance, Compliance}
    && (c.retention.mode in {Governance, Compliance} ==> c.retention.maxDays >= 0)
    && (forall p :: !(p in c.permission.allowedPrefixes && p in c.permission.deniedPrefixes))
    && ((c.retry.maxAttempts == 0 && c.retry.initialWait == 0) || (c.retry.maxAttempts >= 0 && c.retry.multiplier >= 0.0))
  }

  /** NewBlobStore accepts exactly the acceptable configurations. */
  lemma AcceptedIff(c: Config)
    ensures Construct(c).Ok? <==> Acceptable(c)
  {
    var filled := WithDefaults(c);
    assert filled == c.(maxParts := filled.maxParts, maxConcurrency := filled.maxConcurrency, presignMaxTTL := filled.presignMaxTTL,
                        retry := filled.retry);
    assert filled.retention == c.retention && filled.permission == c.permission && filled.algorithms == c.algorithms;
    hide WithDefaults;
  }

  /** It keeps every setting that is not zero, and fills in 10000 parts, 4 uploads at a time, 15 minutes, and the
      default retry policy. */
  lemma DefaultsFilled(c: Config)
    requires Construct(c).Ok?
    ensures var k := Construct(c).value;
            && k.maxParts == (if c.maxParts == 0 then 10000 else c.maxParts)
            && k.maxConcurrency == (if c.maxConcurrency == 0 then 4 else c.maxConcurrency)
            && k.presignMaxTTL == (if c.presignMaxTTL == 0 then 900_000_000_000 else c.presignMaxTTL)
            && k.retry == (if c.retry.maxAttempts == 0 && c.retry.initialWait == 0
                           then Retry.RetryConfig(3, 100_000_000, 5_000_000_000, 2.0, 5, 30_000_000_000) else c.retry)
            && k == c.(maxParts := k.maxParts, maxConcurrency := k.maxConcurrency, presignMaxTTL := k.presignMaxTTL, retry := k.retry)
  {
    hide Validate;
  }
}
