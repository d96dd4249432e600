/** The life of an upload id in the in-memory adapter (pkg/ossx/inmemory.go), over every sequence of
    adapter calls: the calls of any number of sessions, in any interleaving. */
module Uploads {
  import opened Wrappers
  import opened Errors
  import opened Keys
  import opened Text
  import opened Memory
  import opened Accesses

  // The adapter after the first k calls on a fresh one.
  function At(lib: Library, calls: seq<Access>, k: nat): State
    requires k <= |calls|
  {
    if k == 0 then EMPTY else Perform(lib, At(lib, calls, k - 1), calls[k - 1])
  }

  function ReplyAt(lib: Library, calls: seq<Access>, k: nat): Reply
    requires k < |calls|
  {
    ReplyTo(lib, At(lib, calls, k), calls[k])
  }

  lemma {:induction false} SameBefore(lib: Library, calls: seq<Access>, a: Access, k: nat)
    requires k <= |calls|
    ensures At(lib, calls + [a], k) == At(lib, calls, k)
    decreases k
  {
    hide Perform;
    if k > 0 { SameBefore(lib, calls, a, k - 1); }
  }

  lemma OneMore(lib: Library, calls: seq<Access>, a: Access)
    ensures At(lib, calls + [a], |calls| + 1) == Perform(lib, At(lib, calls, |calls|), a)
    ensures ReplyAt(lib, calls + [a], |calls|) == ReplyTo(lib, At(lib, calls, |calls|), a)
    ensures forall k :: 0 <= k < |calls| ==> ReplyAt(lib, calls + [a], k) == ReplyAt(lib, calls, k)
  {
    hide Perform, ReplyTo;
    SameBefore(lib, calls, a, |calls|);
    forall k | 0 <= k < |calls| ensures ReplyAt(lib, calls + [a], k) == ReplyAt(lib, calls, k) {
      SameBefore(lib, calls, a, k);
    }
  }

  predicate IssuedAt(lib: Library, calls: seq<Access>, k: nat, id: string) {
    k < |calls| && calls[k].InitiateAccess? && ReplyAt(lib, calls, k) == Ok(IdAnswer(id))
  }

  predicate PublishedAt(lib: Library, calls: seq<Access>, k: nat, id: string) {
    k < |calls| && calls[k].CompleteAccess? && calls[k].id == id && ReplyAt(lib, calls, k).Ok?
  }

  predicate AbortedAt(calls: seq<Access>, k: nat, id: string) {
    k < |calls| && calls[k] == AbortAccess(id)
  }

  // What one call can do to the counter, the closed flag and the entry of one id.
  lemma StepEffect(lib: Library, m: State, a: Access, id: string)
    ensures var n := Perform(lib, m, a);
            && m.issued <= n.issued && (m.closed ==> n.closed)
            && (id in n.uploads && id !in m.uploads ==> a.InitiateAccess? && ReplyTo(lib, m, a) == Ok(IdAnswer(id)))
            && (id in m.uploads && id !in n.uploads && !n.closed ==>
                  a == AbortAccess(id) || (a.CompleteAccess? && a.id == id && ReplyTo(lib, m, a).Ok?))
            && (a == AbortAccess(id) && !m.closed ==> id !in n.uploads)
            && (a.CompleteAccess? && a.id == id && ReplyTo(lib, m, a).Ok? ==> id in m.uploads && id !in n.uploads)
  {
  }

  // ------------------------------------------------------------------ the counter

  lemma {:induction false} CounterGrows(lib: Library, calls: seq<Access>, i: nat, j: nat)
    requires i <= j <= |calls|
    ensures At(lib, calls, i).issued <= At(lib, calls, j).issued
    ensures At(lib, calls, i).closed ==> At(lib, calls, j).closed
    decreases j
  {
    if i < j {
      hide Perform;
      CounterGrows(lib, calls, i, j - 1);
      StepEffect(lib, At(lib, calls, j - 1), calls[j - 1], "");
    }
  }

  // The number of an issued id is the counter after its call.
  lemma IdNumber(lib: Library, calls: seq<Access>, k: nat, id: string)
    requires IssuedAt(lib, calls, k, id)
    ensures At(lib, calls, k + 1).issued == At(lib, calls, k).issued + 1
    ensures id == UploadIdText(At(lib, calls, k + 1).issued, calls[k].key)
    ensures id in At(lib, calls, k + 1).uploads
  {
  }

  /** Ids never repeat, whatever keys are used, whatever is aborted or completed in between. */
  lemma IdsNeverRepeat(lib: Library, calls: seq<Access>, j: nat, k: nat, id: string)
    requires IssuedAt(lib, calls, j, id) && IssuedAt(lib, calls, k, id)
    ensures j == k
  {
    IdNumber(lib, calls, j, id);
    IdNumber(lib, calls, k, id);
    UploadIdInjective(At(lib, calls, j + 1).issued, calls[j].key, At(lib, calls, k + 1).issued, calls[k].key);
    if j < k { CounterGrows(lib, calls, j + 1, k); }
    if k < j { CounterGrows(lib, calls, k + 1, j); }
  }

  // ------------------------------------------------------------------ live, published, aborted

  // A live id was issued by some call before.
  lemma {:induction false} LiveWasIssued(lib: Library, calls: seq<Access>, n: nat, id: string) returns (k: nat)
    requires n <= |calls| && id in At(lib, calls, n).uploads
    ensures k < n && IssuedAt(lib, calls, k, id)
    decreases n
  {
    hide Perform, ReplyTo;
    if n > 0 { StepEffect(lib, At(lib, calls, n - 1), calls[n - 1], id); }
    if id in At(lib, calls, n - 1).uploads {
      k := LiveWasIssued(lib, calls, n - 1, id);
    } else {
      k := n - 1;
    }
  }

  // An issued id that is not live any more never becomes live again.
  lemma {:induction false} GoneStaysGone(lib: Library, calls: seq<Access>, k: nat, i: nat, j: nat, id: string)
    requires IssuedAt(lib, calls, k, id) && k < i <= j <= |calls|
    requires id !in At(lib, calls, i).uploads
    ensures id !in At(lib, calls, j).uploads
    decreases j
  {
    if i < j {
      hide Perform, ReplyTo;
      GoneStaysGone(lib, calls, k, i, j - 1, id);
      StepEffect(lib, At(lib, calls, j - 1), calls[j - 1], id);
      if id in At(lib, calls, j).uploads {
        assert IssuedAt(lib, calls, j - 1, id);
        IdsNeverRepeat(lib, calls, k, j - 1, id);
      }
    }
  }

  // Until Close, only a successful Complete or an Abort ends a live upload.
  lemma {:induction false} LiveUntilSettled(lib: Library, calls: seq<Access>, i: nat, j: nat, id: string)
    requires i <= j <= |calls| && !At(lib, calls, j).closed
    requires id in At(lib, calls, i).uploads
    requires forall m :: i <= m < j ==> !PublishedAt(lib, calls, m, id) && !AbortedAt(calls, m, id)
    ensures id in At(lib, calls, j).uploads
    decreases j
  {
    if i < j {
      hide Perform, ReplyTo;
      CounterGrows(lib, calls, j - 1, j);
      StepEffect(lib, At(lib, calls, j - 1), calls[j - 1], id);
      LiveUntilSettled(lib, calls, i, j - 1, id);
      assert !PublishedAt(lib, calls, j - 1, id) && !AbortedAt(calls, j - 1, id);
    }
  }

  ghost predicate Issued(lib: Library, calls: seq<Access>, id: string) {
    exists k: nat :: IssuedAt(lib, calls, k, id)
  }

  ghost predicate Live(lib: Library, calls: seq<Access>, id: string) {
    id in At(lib, calls, |calls|).uploads
  }

  ghost predicate Published(lib: Library, calls: seq<Access>, id: string) {
    exists k: nat :: PublishedAt(lib, calls, k, id)
  }

  ghost predicate PublishedBetween(lib: Library, calls: seq<Access>, i: nat, j: nat, id: string) {
    exists m: nat :: i < m < j && PublishedAt(lib, calls, m, id)
  }

  /** An Abort hit it while it was issued and not yet published. */
  ghost predicate Aborted(lib: Library, calls: seq<Access>, id: string) {
    exists k: nat, j: nat :: k < j && IssuedAt(lib, calls, k, id) && AbortedAt(calls, j, id) && !PublishedBetween(lib, calls, k, j, id)
  }

  lemma PublishedWasLive(lib: Library, calls: seq<Access>, j: nat, id: string) returns (k: nat)
    requires PublishedAt(lib, calls, j, id)
    ensures id in At(lib, calls, j).uploads && id !in At(lib, calls, j + 1).uploads
    ensures k < j && IssuedAt(lib, calls, k, id)
  {
    hide Perform, ReplyTo;
    StepEffect(lib, At(lib, calls, j), calls[j], id);
    k := LiveWasIssued(lib, calls, j, id);
  }

  /** Each id is published at most once. */
  lemma PublishedOnce(lib: Library, calls: seq<Access>, i: nat, j: nat, id: string)
    requires PublishedAt(lib, calls, i, id) && PublishedAt(lib, calls, j, id)
    ensures i == j
  {
    hide Perform, ReplyTo;
    var k := PublishedWasLive(lib, calls, i, id);
    var m := PublishedWasLive(lib, calls, j, id);
    if i < j { GoneStaysGone(lib, calls, k, i + 1, j, id); }
    if j < i { GoneStaysGone(lib, calls, m, j + 1, i, id); }
  }

  lemma AbortRemoves(lib: Library, calls: seq<Access>, j: nat, id: string)
    requires AbortedAt(calls, j, id)
    ensures id !in At(lib, calls, j + 1).uploads
  {
    hide Perform;
    StepEffect(lib, At(lib, calls, j), calls[j], id);
    ClosedIsEmpty(lib, calls, j + 1);
    CounterGrows(lib, calls, j, j + 1);
  }

  /** Once an issued id is aborted, no later Complete of it succeeds, in any session. */
  lemma AbortIsFinal(lib: Library, calls: seq<Access>, k: nat, i: nat, j: nat, id: string)
    requires IssuedAt(lib, calls, k, id) && AbortedAt(calls, i, id) && k < i < j
    ensures !PublishedAt(lib, calls, j, id)
  {
    hide At, Perform, ReplyTo, IssuedAt;
    if PublishedAt(lib, calls, j, id) {
      var m := PublishedWasLive(lib, calls, j, id);
      AbortRemoves(lib, calls, i, id);
      GoneStaysGone(lib, calls, k, i + 1, j, id);
    }
  }

  /** Until Close, the issued ids are exactly the live, the published and the aborted ones, and no id is
      two of these. */
  lemma IdsPartition(lib: Library, calls: seq<Access>, id: string)
    requires !At(lib, calls, |calls|).closed
    ensures Issued(lib, calls, id) <==> Live(lib, calls, id) || Published(lib, calls, id) || Aborted(lib, calls, id)
    ensures !(Live(lib, calls, id) && Published(lib, calls, id))
    ensures !(Live(lib, calls, id) && Aborted(lib, calls, id))
    ensures !(Published(lib, calls, id) && Aborted(lib, calls, id))
  {
    hide Perform, ReplyTo;
    SettledWasIssued(lib, calls, id);
    SettledIsGone(lib, calls, id);
    PublishedNotAborted(lib, calls, id);
    if Issued(lib, calls, id) && !Live(lib, calls, id) && !Published(lib, calls, id) {
      var k: nat :| IssuedAt(lib, calls, k, id);
      IdNumber(lib, calls, k, id);
      if forall m :: k + 1 <= m < |calls| ==> !AbortedAt(calls, m, id) {
        LiveUntilSettled(lib, calls, k + 1, |calls|, id);
      } else {
        var j: nat :| k + 1 <= j < |calls| && AbortedAt(calls, j, id);
        assert !PublishedBetween(lib, calls, k, j, id);
      }
    }
  }

  lemma SettledWasIssued(lib: Library, calls: seq<Access>, id: string)
    ensures Live(lib, calls, id) || Published(lib, calls, id) || Aborted(lib, calls, id) ==> Issued(lib, calls, id)
  {
    hide Perform, ReplyTo;
    if Live(lib, calls, id) {
      var k := LiveWasIssued(lib, calls, |calls|, id);
    }
    if Published(lib, calls, id) {
      var j: nat :| PublishedAt(lib, calls, j, id);
      var k := PublishedWasLive(lib, calls, j, id);
    }
  }

  lemma SettledIsGone(lib: Library, calls: seq<Access>, id: string)
    requires !At(lib, calls, |calls|).closed
    ensures Published(lib, calls, id) || Aborted(lib, calls, id) ==> !Live(lib, calls, id)
  {
    hide At, Perform, ReplyTo;
    if Published(lib, calls, id) {
      var j: nat :| PublishedAt(lib, calls, j, id);
      var k := PublishedWasLive(lib, calls, j, id);
      GoneStaysGone(lib, calls, k, j + 1, |calls|, id);
    }
    if Aborted(lib, calls, id) {
      var k: nat, j: nat :| k < j && IssuedAt(lib, calls, k, id) && AbortedAt(calls, j, id) && !PublishedBetween(lib, calls, k, j, id);
      AbortRemoves(lib, calls, j, id);
      GoneStaysGone(lib, calls, k, j + 1, |calls|, id);
    }
  }

  lemma PublishedNotAborted(lib: Library, calls: seq<Access>, id: string)
    ensures !(Published(lib, calls, id) && Aborted(lib, calls, id))
  {
    hide Perform, ReplyTo;
    if Published(lib, calls, id) && Aborted(lib, calls, id) {
      var k: nat, j: nat :| k < j && IssuedAt(lib, calls, k, id) && AbortedAt(calls, j, id) && !PublishedBetween(lib, calls, k, j, id);
      var i: nat :| PublishedAt(lib, calls, i, id);
      var m := PublishedWasLive(lib, calls, i, id);
      IdsNeverRepeat(lib, calls, k, m, id);
      if j < i { AbortIsFinal(lib, calls, k, j, i, id); }
    }
  }

  /** Calls on a published or aborted id find it missing: UploadPart, ListParts and Complete fail with a
      not-found error, Abort succeeds, and nothing changes. */
  lemma SettledIsMissing(lib: Library, calls: seq<Access>, id: string, a: Access)
    requires !At(lib, calls, |calls|).closed && (Published(lib, calls, id) || Aborted(lib, calls, id))
    requires (a.PartAccess? || a.PartsAccess? || a.CompleteAccess? || a.AbortAccess?) && a.id == id
    ensures var m := At(lib, calls, |calls|);
            && Perform(lib, m, a) == m
            && if a.AbortAccess? then ReplyTo(lib, m, a) == Ok(NoAnswer)
               else ReplyTo(lib, m, a).Err? && IsKind(ReplyTo(lib, m, a).error, NotFound)
  {
    hide At, Published, Aborted;
    SettledIsGone(lib, calls, id);
    var m := At(lib, calls, |calls|);
    assert m.uploads - {id} == m.uploads;
  }

  predicate IsKind(e: GoError, kind: ErrorKind) {
    FindTyped(e).Some? && FindTyped(e).value.kind == kind
  }

  // ------------------------------------------------------------------ after Close

  /** From Close on the adapter is empty and stays exactly as it is: calls that were already on their way
      get the closed error, or nil from the two idempotent ones, and write nothing. */
  lemma {:induction false} ClosedForGood(lib: Library, calls: seq<Access>, k: nat, j: nat)
    requires k < j <= |calls| && calls[k].CloseAccess?
    ensures var m := At(lib, calls, j); m == State.State(map[], map[], true, At(lib, calls, k + 1).issued)
    ensures j < |calls| ==>
              ReplyAt(lib, calls, j) == (if calls[j].AbortAccess? || calls[j].CloseAccess? then Ok(NoAnswer) else Err(ErrClosed))
    decreases j
  {
    hide Perform, ReplyTo;
    if j > k + 1 {
      ClosedForGood(lib, calls, k, j - 1);
      ClosedStep(lib, At(lib, calls, j - 1), calls[j - 1]);
    } else {
      ClosedIsEmpty(lib, calls, k);
      ClosingStep(lib, At(lib, calls, k));
    }
    if j < |calls| { ClosedStep(lib, At(lib, calls, j), calls[j]); }
  }

  lemma ClosedStep(lib: Library, m: State, a: Access)
    requires m.closed && m.objects == map[] && m.uploads == map[]
    ensures Perform(lib, m, a) == m
    ensures ReplyTo(lib, m, a) == if a.AbortAccess? || a.CloseAccess? then Ok(NoAnswer) else Err(ErrClosed)
  {
  }

  lemma ClosingStep(lib: Library, m: State)
    requires m.closed ==> m.objects == map[] && m.uploads == map[]
    ensures Perform(lib, m, CloseAccess) == State.State(map[], map[], true, m.issued)
  {
  }

  lemma {:induction false} ClosedIsEmpty(lib: Library, calls: seq<Access>, k: nat)
    requires k <= |calls|
    ensures var m := At(lib, calls, k); m.closed ==> m.objects == map[] && m.uploads == map[]
    decreases k
  {
    if k > 0 { ClosedIsEmpty(lib, calls, k - 1); }
  }
}
