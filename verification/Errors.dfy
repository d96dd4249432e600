/** The error taxonomy of pkg/ossx/errors.go and its two independent retry tests. */
module Errors {
  import opened Wrappers

  // ErrorKind is a Go string, so a value outside the named constants is possible.
  datatype ErrorKind =
    | Config | Validation | Connection | Unavailable | Timeout | Auth | Conflict | RateLimit
    | Canceled | NotFound | AlreadyExists | Internal | Checksum | Closed | NotImplemented
    | OtherKind(name: string)

  // A Go error: an *ossx.Error, or any other error with what it unwraps to
  // (nothing, one cause, or several causes as built by errors.Join).
  datatype GoError =
    | Typed(kind: ErrorKind, op: string, message: string, cause: Option<GoError>, retryable: bool)
    | Foreign(text: string, causes: seq<GoError>)

  datatype RetryClass = Retryable | NonRetryable | Fatal

  predicate IsRetryableKind(k: ErrorKind) {
    k in {Connection, Unavailable, Timeout, RateLimit}
  }

  function NewError(kind: ErrorKind, op: string, message: string): GoError {
    Typed(kind, op, message, None, IsRetryableKind(kind))
  }

  function WrapError(kind: ErrorKind, op: string, message: string, cause: Option<GoError>): GoError {
    Typed(kind, op, message, cause, IsRetryableKind(kind))
  }

  // fmt.Errorf("%w: ...", e)
  function Annotate(text: string, e: GoError): GoError {
    Foreign(text, [e])
  }

  const ErrNotFound := NewError(NotFound, "", "object not found")
  const ErrClosed := NewError(Closed, "", "blobstore closed")
  const ErrInvalidKey := NewError(Validation, "", "invalid key")
  const ErrInvalidMetadata := NewError(Validation, "", "invalid metadata")

  // errors.As(err, *Error): the first *Error in depth-first order.
  function FindTyped(e: GoError): (r: Option<GoError>)
    ensures r.Some? ==> r.value.Typed?
    decreases e
  {
    match e
    case Typed(_, _, _, _, _) => Some(e)
    case Foreign(_, causes) => FindTypedIn(causes)
  }

  function FindTypedIn(es: seq<GoError>): (r: Option<GoError>)
    ensures r.Some? ==> r.value.Typed?
    decreases es
  {
    if es == [] then None
    else
      var first := FindTyped(es[0]);
      if first.Some? then first else FindTypedIn(es[1..])
  }

  predicate IsRetryable(e: GoError) {
    match FindTyped(e)
    case Some(t) => t.retryable
    case None => false
  }

  function KindToClass(k: ErrorKind): RetryClass {
    if k == Canceled then Fatal
    else if k in {Connection, Unavailable, Timeout, RateLimit} then Retryable
    else NonRetryable
  }

  function ClassifyError(e: GoError): RetryClass {
    match FindTyped(e)
    case Some(t) => KindToClass(t.kind)
    case None => NonRetryable
  }

  // The breaker-open sentinel test.
  predicate IsErrCircuitOpen(e: GoError) {
    match FindTyped(e)
    case Some(t) => t.kind == Unavailable && t.message == "circuit breaker open"
    case None => false
  }

  /** Every *Error inside e went through newError or wrapError. */
  predicate Built(e: GoError)
    decreases e
  {
    match e
    case Typed(k, _, _, cause, flag) => flag == IsRetryableKind(k) && (cause.Some? ==> Built(cause.value))
    case Foreign(_, causes) => BuiltAll(causes)
  }

  predicate BuiltAll(es: seq<GoError>)
    decreases es
  {
    es == [] || (Built(es[0]) && BuiltAll(es[1..]))
  }

  /** The retry flag of the *Error that errors.As reaches agrees with its kind. */
  predicate FlagConsistent(e: GoError) {
    match FindTyped(e)
    case Some(t) => t.retryable == IsRetryableKind(t.kind)
    case None => true
  }

  /** The breaker's test (isRetryable) and the retry loop's test (classifyError) read different
      fields; they agree on an error exactly when the flag of its first *Error matches its kind. */
  lemma RetryTestsAgreeIff(e: GoError)
    ensures FlagConsistent(e) <==> (IsRetryable(e) <==> ClassifyError(e) == Retryable)
  {
    if FindTyped(e).Some? {
      var k := FindTyped(e).value.kind;
      assert KindToClass(k) == Retryable <==> IsRetryableKind(k);
    }
  }

  lemma {:induction false} BuiltFindTyped(e: GoError)
    requires Built(e)
    ensures FindTyped(e).Some? ==> Built(FindTyped(e).value)
    decreases e
  {
    if e.Foreign? {
      BuiltFindTypedIn(e.causes);
    }
  }

  lemma {:induction false} BuiltFindTypedIn(es: seq<GoError>)
    requires BuiltAll(es)
    ensures FindTypedIn(es).Some? ==> Built(FindTypedIn(es).value)
    decreases es
  {
    if es != [] {
      BuiltFindTyped(es[0]);
      BuiltFindTypedIn(es[1..]);
    }
  }

  /** On every error tree whose *Error nodes come from the constructors the two tests agree,
      whatever else is wrapped around or between them. */
  lemma BuiltErrorsAgree(e: GoError)
    requires Built(e)
    ensures FlagConsistent(e)
    ensures IsRetryable(e) <==> ClassifyError(e) == Retryable
  {
    BuiltFindTyped(e);
    RetryTestsAgreeIff(e);
  }

  /** Error is an exported struct, so a hand-made value can make the tests disagree. */
  lemma HandMadeErrorDisagrees()
    ensures var e := Typed(Unavailable, "put", "provider down", None, false);
            ClassifyError(e) == Retryable && !IsRetryable(e) && !Built(e)
  {
  }

  /** Annotating with %w keeps the class, while wrapError replaces it by the class of its own kind: the four
      transient kinds are retried, a cancellation is fatal, and the rest fail for good. What the constructors
      make is built. */
  lemma WrappingRules(e: GoError, text: string, kind: ErrorKind, op: string, message: string)
    ensures ClassifyError(Annotate(text, e)) == ClassifyError(e)
    ensures IsRetryable(Annotate(text, e)) == IsRetryable(e)
    ensures ClassifyError(WrapError(kind, op, message, Some(e)))
            == match kind
               case Connection => Retryable
               case Unavailable => Retryable
               case Timeout => Retryable
               case RateLimit => Retryable
               case Canceled => Fatal
               case _ => NonRetryable
    ensures NewError(kind, op, message) == WrapError(kind, op, message, None) && Built(NewError(kind, op, message))
    ensures Built(WrapError(kind, op, message, Some(e))) == Built(Annotate(text, e)) == Built(e)
  {
    assert FindTypedIn([e]) == FindTyped(e) by {
      assert [e][1..] == [];
      if FindTyped(e).None? {
        assert FindTypedIn([e]) == FindTypedIn([e][1..]);
      }
    }
    assert BuiltAll([e]) == Built(e) by { assert [e][1..] == []; }
  }
}
