/** Every interleaving of any number of operations on one store and its multipart sessions
    (pkg/ossx/blobstore.go, pkg/ossx/multipart.go). Each step is one critical section or one adapter
    call; between the steps of one operation any steps of others may happen. The adapter is arbitrary
    unless stated otherwise, and so are contexts, breakers and the number of retries. */
module Concurrent {
  import opened Wrappers
  import opened Errors
  import opened Keys
  import opened Config
  import opened Memory
  import opened Accesses
  import Invariants
  import Parts
  import Retry
  import Uploads
  import Spec = StoreSpec

  // The operations of Invariants, with their arguments. The sessions share one store.
  type Request = Invariants.Command

  datatype Phase =
    | Entered                               // past checkClosed
    | Running                               // past its checks and its mark: calling the adapter, no success yet
    | Answered(result: Reply)               // run has returned
    | Returned(result: Reply)               // the caller has its result

  datatype Process = Process(request: Request, phase: Phase)

  datatype Event = Event(process: nat, access: Access, reply: Reply)

  // A session's mark is a pair of the session and an upload id. Processes are numbered in the order in
  // which they start. history lists the adapter calls.
  datatype System<A> = System(closed: bool, marks: set<(nat, string)>, procs: seq<Process>,
                              adapter: A, history: seq<Event>)

  // The adapter before a call, the call, the adapter after it, the reply.
  type Adapter<!A> = (A, Access, A, Reply) -> bool

  datatype Step<A> =
    | Start(request: Request)                                        // checkClosed; for Close also the flag
    | Refuse(p: nat, refusal: GoError)                               // the context or a check of the arguments fails
    | Pass(p: nat)                                                   // all checks pass; markDone for Complete and Abort
    | Call(p: nat, access: Access, reply: Reply, after: A)           // one adapter call
    | GiveUp(p: nat, err: GoError)                                   // run returns an error, or a policy refuses
    | Finish(p: nat)                                                 // unmark after a failure, return

  function New<A>(adapter: A): System<A> {
    System(false, {}, [], adapter, [])
  }

  predicate Guarded(r: Request) {
    r.Complete? || r.Abort?
  }

  function MarkOf(r: Request): (nat, string)
    requires Guarded(r)
  {
    (r.session, r.id)
  }

  ghost predicate InPhase<A>(s: System<A>, p: nat, phase: Phase) {
    p < |s.procs| && s.procs[p].phase == phase
  }

  // The error of some context that is done.
  ghost predicate IsContextError(e: GoError) {
    exists ctx: Retry.Context :: Spec.ContextError(ctx) == Some(e)
  }

  ghost predicate Enabled<A>(cfg: Config, lib: Library, adapter: Adapter<A>, s: System<A>, step: Step<A>) {
    match step
    case Start(_) => true
    case Refuse(p, refusal) =>
      InPhase(s, p, Entered) && (Invariants.CheckError(cfg, lib, s.procs[p].request) == Some(refusal) || IsContextError(refusal))
    case Pass(p) => InPhase(s, p, Entered) && Invariants.CheckError(cfg, lib, s.procs[p].request).None?
    case Call(p, access, reply, after) =>
      InPhase(s, p, Running) && Invariants.Belongs(s.procs[p].request, access) && adapter(s.adapter, access, after, reply)
    case GiveUp(p, err) => InPhase(s, p, Running) && !s.procs[p].request.Close?
    case Finish(p) => p < |s.procs| && s.procs[p].phase.Answered?
  }

  function Moved<A>(s: System<A>, p: nat, phase: Phase): System<A>
    requires p < |s.procs|
  {
    s.(procs := s.procs[p := s.procs[p].(phase := phase)])
  }

  // What UploadPart makes of the part that the adapter returned.
  function CheckedPart(number: int, reply: Reply): Reply {
    if reply.Ok? && reply.value.PartAnswer? && reply.value.part.partNumber != number then Err(Spec.NUMBER_MISMATCH)
    else if reply.Ok? && reply.value.PartAnswer? && reply.value.part.etag == "" then Err(Spec.EMPTY_ETAG)
    else reply
  }

  /** The result of an operation when the adapter's reply settles it. A failure does not: it may be retried. A
      missing object is an answer to Exists and is forgiven by a delete that is not strict, a missing upload
      is forgiven by Abort, and the Head before a delete settles nothing. Close does not retry. */
  function Outcome(r: Request, a: Access, reply: Reply): Option<Reply> {
    match r
    case Exists(_) =>
      if reply.Ok? then Some(Ok(PresenceAnswer(true)))
      else if Spec.IsNotFound(reply.error) then Some(Ok(PresenceAnswer(false)))
      else None
    case Delete(_, strict) =>
      if !a.DeleteAccess? then None
      else if reply.Err? && Spec.IsNotFound(reply.error) && !strict then Some(Ok(NoAnswer))
      else if reply.Ok? then Some(reply)
      else None
    case UploadPart(_, number, _) => if reply.Ok? then Some(CheckedPart(number, reply)) else None
    case Abort(_, _) => if reply.Ok? || Spec.IsNotFound(reply.error) then Some(Ok(NoAnswer)) else None
    case Close => Some(reply)
    case _ => if reply.Ok? then Some(reply) else None
  }

  function AfterReply(r: Request, a: Access, reply: Reply): Phase {
    match Outcome(r, a, reply)
    case Some(result) => Answered(result)
    case None => Running
  }

  function Next<A>(s: System<A>, step: Step<A>): System<A>
    requires !step.Start? ==> step.p < |s.procs|
  {
    match step
    case Start(r) =>
      if s.closed then
        s.(procs := s.procs + [Process(r, Returned(if r.Close? then Ok(NoAnswer) else Err(ErrClosed)))])
      else
        s.(closed := r.Close?, procs := s.procs + [Process(r, if r.Close? then Running else Entered)])
    case Refuse(p, refusal) => Moved(s, p, Returned(Err(refusal)))
    case Pass(p) =>
      var r := s.procs[p].request;
      if !Guarded(r) then Moved(s, p, Running)
      else if r.Complete? && MarkOf(r) in s.marks then Moved(s, p, Returned(Err(Spec.ALREADY_DONE)))
      else Moved(s, p, Running).(marks := s.marks + {MarkOf(r)})
    case Call(p, access, reply, after) =>
      Moved(s, p, AfterReply(s.procs[p].request, access, reply)).(adapter := after, history := s.history + [Event(p, access, reply)])
    case GiveUp(p, err) => Moved(s, p, Answered(Err(err)))
    case Finish(p) =>
      if s.procs[p].phase.Answered? then
        var result, r := s.procs[p].phase.result, s.procs[p].request;
        var returned := Moved(s, p, Returned(result));
        if r.Complete? && result.Err? then returned.(marks := s.marks - {MarkOf(r)}) else returned
      else s
  }

  predicate Succeeded(phase: Phase) {
    (phase.Answered? || phase.Returned?) && phase.result.Ok?
  }

  // The caller of process p has its success.
  ghost predicate Returns<A>(s: System<A>, p: nat) {
    p < |s.procs| && s.procs[p].phase.Returned? && Succeeded(s.procs[p].phase)
  }

  // A run: each step is enabled where it happens.
  ghost predicate IsRun<A>(cfg: Config, lib: Library, adapter: Adapter<A>, s: System<A>, steps: seq<Step<A>>) {
    steps == []
    || (var n := |steps| - 1;
        IsRun(cfg, lib, adapter, s, steps[..n]) && Enabled(cfg, lib, adapter, Reached(s, steps[..n]), steps[n]))
  }

  ghost function Reached<A>(s: System<A>, steps: seq<Step<A>>): System<A> {
    if steps == [] then s
    else
      var n := |steps| - 1;
      var before := Reached(s, steps[..n]);
      if !steps[n].Start? && steps[n].p >= |before.procs| then before else Next(before, steps[n])
  }

  // ------------------------------------------------------------------ at most one completion

  /** Past the mark and not failed: in flight, or successful. */
  ghost predicate Holds<A>(s: System<A>, p: nat) {
    p < |s.procs| && s.procs[p].request.Complete?
    && (s.procs[p].phase.Running? || s.procs[p].phase.Answered? || Succeeded(s.procs[p].phase))
  }

  ghost predicate SameUpload<A>(s: System<A>, p: nat, q: nat)
    requires Holds(s, p) && Holds(s, q)
  {
    MarkOf(s.procs[p].request) == MarkOf(s.procs[q].request)
  }

  ghost predicate Exclusive<A>(s: System<A>) {
    && (forall p: nat :: Holds(s, p) ==> MarkOf(s.procs[p].request) in s.marks)
    && (forall p: nat, q: nat :: Holds(s, p) && Holds(s, q) && SameUpload(s, p, q) ==> p == q)
  }

  lemma ExclusiveStep<A>(cfg: Config, lib: Library, adapter: Adapter<A>, s: System<A>, step: Step<A>)
    requires Exclusive(s) && Enabled(cfg, lib, adapter, s, step)
    ensures Exclusive(Next(s, step))
  {
    hide Invariants.Belongs, Invariants.CheckError, Spec.IsNotFound;
    var t := Next(s, step);
    assert forall p: nat :: Holds(t, p) ==>
        t.procs[p].request == s.procs[p].request
        && (Holds(s, p) || (step == Pass(p) && MarkOf(s.procs[p].request) !in s.marks && MarkOf(s.procs[p].request) in t.marks));
    forall p: nat, q: nat | Holds(t, p) && Holds(t, q) && SameUpload(t, p, q) ensures p == q {
      if Holds(s, p) && Holds(s, q) { assert SameUpload(s, p, q); }
    }
    forall p: nat | Holds(t, p) ensures MarkOf(t.procs[p].request) in t.marks {
      if step.Finish? && Holds(s, p) && Holds(s, step.p) && step.p != p { assert !SameUpload(s, p, step.p); }
    }
  }

  // ------------------------------------------------------------------ moving along a run

  lemma Prefixes<A>(cfg: Config, lib: Library, adapter: Adapter<A>, s: System<A>, steps: seq<Step<A>>, i: nat)
    requires IsRun(cfg, lib, adapter, s, steps) && i <= |steps|
    ensures IsRun(cfg, lib, adapter, s, steps[..i])
    ensures i < |steps| ==> Enabled(cfg, lib, adapter, Reached(s, steps[..i]), steps[i])
    ensures i < |steps| ==> Reached(s, steps[..i + 1]) == Next(Reached(s, steps[..i]), steps[i])
    decreases |steps|
  {
    if i == |steps| {
      assert steps[..i] == steps;
    } else if i == |steps| - 1 {
      assert steps[..i + 1] == steps;
    } else {
      var front := steps[..|steps| - 1];
      Prefixes(cfg, lib, adapter, s, front, i);
      assert front[..i] == steps[..i] && front[..i + 1] == steps[..i + 1];
    }
  }

  // A property that every enabled step keeps holds at the end of every run.
  ghost predicate Inductive<A(!new)>(cfg: Config, lib: Library, adapter: Adapter<A>, inv: System<A> -> bool) {
    forall s: System<A>, step: Step<A> :: inv(s) && Enabled(cfg, lib, adapter, s, step) ==> inv(Next(s, step))
  }

  lemma {:induction false} Along<A(!new)>(cfg: Config, lib: Library, adapter: Adapter<A>, s: System<A>, steps: seq<Step<A>>,
                                          inv: System<A> -> bool)
    requires Inductive(cfg, lib, adapter, inv) && inv(s) && IsRun(cfg, lib, adapter, s, steps)
    ensures inv(Reached(s, steps))
    decreases |steps|
  {
    if steps != [] {
      var n := |steps| - 1;
      Along(cfg, lib, adapter, s, steps[..n], inv);
      Prefixes(cfg, lib, adapter, s, steps, n);
      assert steps[..n + 1] == steps;
    }
  }

  /** What a step never takes back: the closed flag, the processes with their requests and results, and
      the history. */
  ghost predicate Extends<A>(s: System<A>, t: System<A>) {
    && (s.closed ==> t.closed) && |s.procs| <= |t.procs| && s.history <= t.history
    && (forall p: nat :: p < |s.procs| ==>
          t.procs[p].request == s.procs[p].request && (s.procs[p].phase.Returned? ==> t.procs[p] == s.procs[p]))
  }

  lemma {:induction false} LaterExtends<A>(cfg: Config, lib: Library, adapter: Adapter<A>, s: System<A>, steps: seq<Step<A>>,
                                           i: nat, j: nat)
    requires IsRun(cfg, lib, adapter, s, steps) && i <= j <= |steps|
    ensures Extends(Reached(s, steps[..i]), Reached(s, steps[..j]))
    decreases j
  {
    hide Next, Enabled;
    if i < j {
      LaterExtends(cfg, lib, adapter, s, steps, i, j - 1);
      Prefixes(cfg, lib, adapter, s, steps, j - 1);
      hide IsRun, Reached;
      var t, step := Reached(s, steps[..j - 1]), steps[j - 1];
      StepExtends(cfg, lib, adapter, t, step);
    }
  }

  lemma StepExtends<A>(cfg: Config, lib: Library, adapter: Adapter<A>, s: System<A>, step: Step<A>)
    requires Enabled(cfg, lib, adapter, s, step)
    ensures Extends(s, Next(s, step))
  {
    hide Invariants.Belongs, Invariants.CheckError, Spec.IsNotFound;
  }

  /** In every interleaving of any operations, over any adapter: of all the Completes of one upload id in
      one session, at most one is past the mark and not failed. So at most one is in flight there, at
      most one ever succeeds, and none is in flight beside a successful one. */
  lemma AtMostOneCompletion<A(!new)>(cfg: Config, lib: Library, adapter: Adapter<A>, start: A, steps: seq<Step<A>>, p: nat, q: nat)
    requires IsRun(cfg, lib, adapter, New(start), steps)
    requires var s := Reached(New(start), steps); Holds(s, p) && Holds(s, q) && SameUpload(s, p, q)
    ensures p == q
  {
    AlwaysExclusive(cfg, lib, adapter, start, steps);
  }

  lemma AlwaysExclusive<A(!new)>(cfg: Config, lib: Library, adapter: Adapter<A>, start: A, steps: seq<Step<A>>)
    requires IsRun(cfg, lib, adapter, New(start), steps)
    ensures Exclusive(Reached(New(start), steps))
  {
    forall s: System<A>, step: Step<A> | Exclusive(s) && Enabled(cfg, lib, adapter, s, step) ensures Exclusive(Next(s, step)) {
      ExclusiveStep(cfg, lib, adapter, s, step);
    }
    Along(cfg, lib, adapter, New(start), steps, s => Exclusive(s));
  }

  /** Once a Complete has returned success, every Complete of that id in that session that reaches the mark
      from then on returns the conflict, whatever runs in between. */
  lemma SuccessIsFinal<A(!new)>(cfg: Config, lib: Library, adapter: Adapter<A>, start: A, steps: seq<Step<A>>,
                                i: nat, p: nat, j: nat, q: nat)
    requires IsRun(cfg, lib, adapter, New(start), steps) && i <= j < |steps| && steps[j] == Pass(q)
    requires var s := Reached(New(start), steps[..i]);
             Returns(s, p) && s.procs[p].request.Complete?
    requires var s, t := Reached(New(start), steps[..i]), Reached(New(start), steps[..j]);
             q < |t.procs| && t.procs[q].request.Complete?
             && t.procs[q].request.session == s.procs[p].request.session && t.procs[q].request.id == s.procs[p].request.id
    ensures InPhase(Reached(New(start), steps[..j + 1]), q, Returned(Err(Spec.ALREADY_DONE)))
  {
    Prefixes(cfg, lib, adapter, New(start), steps, j);
    AlwaysExclusive(cfg, lib, adapter, start, steps[..j]);
    LaterExtends(cfg, lib, adapter, New(start), steps, i, j);
    hide IsRun, Reached;
    var t := Reached(New(start), steps[..j]);
    assert Holds(t, p);
  }

  /** A mark is cleared by one kind of step only: the return of a failing Complete of that upload. */
  lemma MarkClearedIff<A>(cfg: Config, lib: Library, adapter: Adapter<A>, s: System<A>, step: Step<A>, mark: (nat, string))
    requires Exclusive(s) && Enabled(cfg, lib, adapter, s, step)
    ensures mark in s.marks && mark !in Next(s, step).marks <==>
              && step.Finish? && s.procs[step.p].request.Complete? && MarkOf(s.procs[step.p].request) == mark
              && s.procs[step.p].phase.result.Err?
  {
    if step.Finish? && s.procs[step.p].request.Complete? && s.procs[step.p].phase.result.Err? {
      assert Holds(s, step.p);
    }
  }

  lemma Extend<A>(cfg: Config, lib: Library, adapter: Adapter<A>, s: System<A>, steps: seq<Step<A>>, step: Step<A>)
    requires IsRun(cfg, lib, adapter, s, steps) && Enabled(cfg, lib, adapter, Reached(s, steps), step)
    ensures IsRun(cfg, lib, adapter, s, steps + [step])
    ensures Reached(s, steps + [step]) == Next(Reached(s, steps), step)
  {
    assert (steps + [step])[..|steps|] == steps;
  }

  /** Past the mark, and it may still fail. */
  ghost predicate MayFail<A>(s: System<A>, q: nat, mark: (nat, string)) {
    Holds(s, q) && MarkOf(s.procs[q].request) == mark
    && (s.procs[q].phase.Running? || (s.procs[q].phase.Answered? && s.procs[q].phase.result.Err?))
  }

  ghost predicate Settled<A>(s: System<A>, mark: (nat, string)) {
    mark in s.marks && forall q: nat :: !MayFail(s, q, mark)
  }

  lemma SettledStep<A>(cfg: Config, lib: Library, adapter: Adapter<A>, s: System<A>, step: Step<A>, mark: (nat, string))
    requires Settled(s, mark) && Enabled(cfg, lib, adapter, s, step)
    ensures Settled(Next(s, step), mark)
  {
    hide Invariants.Belongs, Invariants.CheckError, Spec.IsNotFound;
    var t := Next(s, step);
    if step.Finish? && step.p < |s.procs| { assert !MayFail(s, step.p, mark); }
    forall q: nat ensures !MayFail(t, q, mark) {
      assert !MayFail(s, q, mark);
    }
  }

  lemma {:induction false} SettledForever<A>(cfg: Config, lib: Library, adapter: Adapter<A>, start: System<A>, steps: seq<Step<A>>,
                                             more: seq<Step<A>>, mark: (nat, string))
    requires IsRun(cfg, lib, adapter, start, steps + more) && Settled(Reached(start, steps), mark)
    ensures Settled(Reached(start, steps + more), mark)
    decreases |more|
  {
    hide Settled, Enabled, Next;
    if more == [] {
      assert steps + more == steps;
    } else {
      var all, n := steps + more, |steps + more| - 1;
      assert all[..n] == steps + more[..|more| - 1] && all[..n + 1] == all;
      Prefixes(cfg, lib, adapter, start, all, n);
      SettledForever(cfg, lib, adapter, start, steps, more[..|more| - 1], mark);
      SettledStep(cfg, lib, adapter, Reached(start, all[..n]), all[n], mark);
    }
  }

  ghost predicate StaysMarked<A(!new)>(cfg: Config, lib: Library, adapter: Adapter<A>, start: System<A>, steps: seq<Step<A>>,
                                       mark: (nat, string)) {
    forall more: seq<Step<A>> :: IsRun(cfg, lib, adapter, start, steps + more) ==> mark in Reached(start, steps + more).marks
  }

  // A Complete that may fail has a way to fail and clear the mark.
  lemma FailureClears<A(!new)>(cfg: Config, lib: Library, adapter: Adapter<A>, start: System<A>, steps: seq<Step<A>>,
                               mark: (nat, string), q: nat)
    requires IsRun(cfg, lib, adapter, start, steps) && MayFail(Reached(start, steps), q, mark)
    ensures !StaysMarked(cfg, lib, adapter, start, steps, mark)
  {
    hide IsRun, Reached, Invariants.Belongs, Invariants.CheckError;
    if Reached(start, steps).procs[q].phase.Running? {
      Extend(cfg, lib, adapter, start, steps, GiveUp(q, ErrClosed));
      Extend(cfg, lib, adapter, start, steps + [GiveUp(q, ErrClosed)], Finish(q));
      var more := [GiveUp(q, ErrClosed), Finish(q)];
      assert steps + more == steps + [GiveUp(q, ErrClosed)] + [Finish(q)];
      assert mark !in Reached(start, steps + more).marks;
    } else {
      Extend(cfg, lib, adapter, start, steps, Finish(q));
      assert mark !in Reached(start, steps + [Finish(q)]).marks;
    }
  }

  /** When a mark is for good, the one of a finished Abort included: exactly when, as it stands, no Complete
      of that upload is in flight that may still fail. */
  lemma StaysMarkedIff<A(!new)>(cfg: Config, lib: Library, adapter: Adapter<A>, start: System<A>, steps: seq<Step<A>>,
                                mark: (nat, string))
    requires IsRun(cfg, lib, adapter, start, steps) && mark in Reached(start, steps).marks
    ensures StaysMarked(cfg, lib, adapter, start, steps, mark) <==> forall q: nat :: !MayFail(Reached(start, steps), q, mark)
  {
    if q: nat :| MayFail(Reached(start, steps), q, mark) {
      FailureClears(cfg, lib, adapter, start, steps, mark, q);
    } else {
      forall more: seq<Step<A>> | IsRun(cfg, lib, adapter, start, steps + more)
        ensures mark in Reached(start, steps + more).marks
      {
        SettledForever(cfg, lib, adapter, start, steps, more, mark);
      }
    }
  }

  // ------------------------------------------------------------------ the history

  // The call that settled the result of process p.
  ghost predicate EndedBy<A>(s: System<A>, h: nat, p: nat) {
    && h < |s.history| && p < |s.procs| && s.history[h].process == p
    && (s.procs[p].phase.Answered? || s.procs[p].phase.Returned?)
    && Outcome(s.procs[p].request, s.history[h].access, s.history[h].reply) == Some(s.procs[p].phase.result)
  }

  /** Every adapter call belongs to its operation, and every success is what a call gave. */
  ghost predicate Accounted<A>(s: System<A>) {
    && (forall h :: 0 <= h < |s.history| ==>
          s.history[h].process < |s.procs| && Invariants.Belongs(s.procs[s.history[h].process].request, s.history[h].access))
    && (forall p: nat :: p < |s.procs| && !s.procs[p].request.Close? && Succeeded(s.procs[p].phase) ==>
          exists h: nat :: EndedBy(s, h, p))
  }

  lemma AccountedStep<A>(cfg: Config, lib: Library, adapter: Adapter<A>, s: System<A>, step: Step<A>)
    requires Accounted(s) && Enabled(cfg, lib, adapter, s, step)
    ensures Accounted(Next(s, step))
  {
    hide Invariants.Belongs, Invariants.CheckError, Outcome;
    var t := Next(s, step);
    forall p: nat | p < |t.procs| && !t.procs[p].request.Close? && Succeeded(t.procs[p].phase)
      ensures exists h: nat :: EndedBy(t, h, p)
    {
      EndSeen(cfg, lib, adapter, s, step, p);
    }
    hide EndedBy;
  }

  lemma EndSeen<A>(cfg: Config, lib: Library, adapter: Adapter<A>, s: System<A>, step: Step<A>, p: nat)
    requires Accounted(s) && Enabled(cfg, lib, adapter, s, step) && p < |Next(s, step).procs|
    requires !Next(s, step).procs[p].request.Close? && Succeeded(Next(s, step).procs[p].phase)
    ensures exists h: nat :: EndedBy(Next(s, step), h, p)
  {
    hide Invariants.Belongs, Invariants.CheckError, Outcome;
    var t := Next(s, step);
    if p < |s.procs| && Succeeded(s.procs[p].phase) {
      var h: nat :| EndedBy(s, h, p);
      assert EndedBy(t, h, p);
    } else {
      assert EndedBy(t, |s.history|, p);
    }
  }

  lemma AlwaysAccounted<A(!new)>(cfg: Config, lib: Library, adapter: Adapter<A>, start: A, steps: seq<Step<A>>)
    requires IsRun(cfg, lib, adapter, New(start), steps)
    ensures Accounted(Reached(New(start), steps))
  {
    forall s: System<A>, step: Step<A> | Accounted(s) && Enabled(cfg, lib, adapter, s, step)
      ensures Accounted(Next(s, step))
    {
      AccountedStep(cfg, lib, adapter, s, step);
    }
    Along(cfg, lib, adapter, New(start), steps, s => Accounted(s));
  }

  /** Whoever may call the adapter has passed its checks. */
  ghost predicate Vetted<A>(cfg: Config, lib: Library, s: System<A>) {
    forall p: nat :: p < |s.procs| && s.procs[p].phase.Running? ==> Invariants.CheckError(cfg, lib, s.procs[p].request).None?
  }

  // ------------------------------------------------------------------ Close

  ghost predicate Closer<A>(s: System<A>, p: nat) {
    p < |s.procs| && s.procs[p].request.Close?
  }

  ghost predicate ClosedAt<A>(s: System<A>, h: nat) {
    h < |s.history| && s.history[h].access.CloseAccess?
  }

  ghost predicate OneClose<A>(s: System<A>) {
    && (forall p: nat :: Closer(s, p) ==> s.closed)
    && (forall h: nat :: ClosedAt(s, h) ==> Closer(s, s.history[h].process))
    && (forall p: nat, h: nat :: Closer(s, p) && s.procs[p].phase.Running? ==> !ClosedAt(s, h))
    && (forall p: nat, q: nat :: Closer(s, p) && Closer(s, q) && s.procs[p].phase.Running? && s.procs[q].phase.Running? ==> p == q)
    && (forall p: nat :: Closer(s, p) ==> !s.procs[p].phase.Entered?)
    && (forall h: nat, i: nat :: ClosedAt(s, h) && ClosedAt(s, i) ==> h == i)
  }

  lemma OneCloseStep<A>(cfg: Config, lib: Library, adapter: Adapter<A>, s: System<A>, step: Step<A>)
    requires OneClose(s) && Enabled(cfg, lib, adapter, s, step)
    ensures OneClose(Next(s, step))
  {
    hide OneClose, Enabled, Next;
    if step.Call? {
      OneCloseCall(cfg, lib, adapter, s, step);
    } else if step.Start? {
      OneCloseStart(s, step);
    } else {
      OneCloseElse(cfg, lib, adapter, s, step);
    }
  }

  lemma OneCloseCall<A>(cfg: Config, lib: Library, adapter: Adapter<A>, s: System<A>, step: Step<A>)
    requires OneClose(s) && Enabled(cfg, lib, adapter, s, step) && step.Call?
    ensures OneClose(Next(s, step))
  {
    hide Invariants.CheckError, Spec.IsNotFound;
    var t := Next(s, step);
    assert forall h: nat :: ClosedAt(t, h) && h < |s.history| ==> ClosedAt(s, h) && t.history[h] == s.history[h];
    assert forall p: nat :: Closer(t, p) ==> Closer(s, p) && (t.procs[p].phase == s.procs[p].phase || p == step.p);
  }

  lemma OneCloseStart<A>(s: System<A>, step: Step<A>)
    requires OneClose(s) && step.Start?
    ensures OneClose(Next(s, step))
  {
    var t := Next(s, step);
    assert t.history == s.history;
    assert forall h: nat :: ClosedAt(t, h) <==> ClosedAt(s, h);
    assert forall p: nat :: Closer(t, p) ==> if p < |s.procs| then Closer(s, p) && t.procs[p] == s.procs[p] else p == |s.procs|;
  }

  lemma OneCloseElse<A>(cfg: Config, lib: Library, adapter: Adapter<A>, s: System<A>, step: Step<A>)
    requires OneClose(s) && Enabled(cfg, lib, adapter, s, step) && !step.Call? && !step.Start?
    ensures OneClose(Next(s, step))
  {
    hide Invariants.Belongs, Invariants.CheckError, Spec.IsNotFound;
    var t := Next(s, step);
    assert t.history == s.history && t.closed == s.closed;
    assert forall h: nat :: ClosedAt(t, h) <==> ClosedAt(s, h);
    assert forall p: nat :: Closer(s, p) ==> Closer(t, p);
    assert forall p: nat :: Closer(t, p) ==> Closer(s, p) && (t.procs[p].phase.Running? ==> s.procs[p].phase.Running?);
  }

  /** The store calls the adapter's Close at most once, however many Close calls race. */
  lemma ClosesOnce<A(!new)>(cfg: Config, lib: Library, adapter: Adapter<A>, start: A, steps: seq<Step<A>>, h: nat, i: nat)
    requires IsRun(cfg, lib, adapter, New(start), steps)
    requires ClosedAt(Reached(New(start), steps), h) && ClosedAt(Reached(New(start), steps), i)
    ensures h == i
  {
    forall s: System<A>, step: Step<A> | OneClose(s) && Enabled(cfg, lib, adapter, s, step) ensures OneClose(Next(s, step)) {
      OneCloseStep(cfg, lib, adapter, s, step);
    }
    Along(cfg, lib, adapter, New(start), steps, s => OneClose(s));
  }

  ghost predicate Silent<A>(s: System<A>, p: nat) {
    forall h :: 0 <= h < |s.history| ==> s.history[h].process != p
  }

  ghost predicate Rejected<A>(s: System<A>, p: nat) {
    && p < |s.procs| && Silent(s, p)
    && s.procs[p].phase == Returned(if s.procs[p].request.Close? then Ok(NoAnswer) else Err(ErrClosed))
  }

  lemma RejectedStep<A>(cfg: Config, lib: Library, adapter: Adapter<A>, s: System<A>, step: Step<A>, p: nat)
    requires s.closed && Accounted(s) && Enabled(cfg, lib, adapter, s, step)
    requires Rejected(s, p) || |s.procs| <= p < |Next(s, step).procs|
    ensures Rejected(Next(s, step), p)
  {
    hide Invariants.Belongs, Invariants.CheckError, Spec.IsNotFound;
  }

  /** An operation that starts once the closed flag is set returns ErrClosed (a further Close returns
      nil) and never calls the adapter. */
  lemma {:induction false} LateStart<A(!new)>(cfg: Config, lib: Library, adapter: Adapter<A>, start: A, steps: seq<Step<A>>,
                                              i: nat, j: nat, p: nat)
    requires IsRun(cfg, lib, adapter, New(start), steps) && i <= j <= |steps|
    requires Reached(New(start), steps[..i]).closed
    requires |Reached(New(start), steps[..i]).procs| <= p < |Reached(New(start), steps[..j]).procs|
    ensures Rejected(Reached(New(start), steps[..j]), p)
    decreases j
  {
    hide IsRun, Reached, Accounted, Enabled, Next, Rejected;
    if i < j {
      Prefixes(cfg, lib, adapter, New(start), steps, j - 1);
      LaterExtends(cfg, lib, adapter, New(start), steps, i, j - 1);
      AlwaysAccounted(cfg, lib, adapter, start, steps[..j - 1]);
      var before := Reached(New(start), steps[..j - 1]);
      if p < |before.procs| { LateStart(cfg, lib, adapter, start, steps, i, j - 1, p); }
      RejectedStep(cfg, lib, adapter, before, steps[j - 1], p);
    }
  }

  // ------------------------------------------------------------------ over the in-memory adapter

  function InMemory(lib: Library): Adapter<Memory.State> {
    (m: Memory.State, a: Access, n: Memory.State, r: Reply) => n == Perform(lib, m, a) && r == ReplyTo(lib, m, a)
  }

  ghost function CallsOf(history: seq<Event>): (calls: seq<Access>)
    ensures |calls| == |history| && forall h :: 0 <= h < |calls| ==> calls[h] == history[h].access
  {
    seq(|history|, h requires 0 <= h < |history| => history[h].access)
  }

  /** The adapter is what its calls in their order made of it, and each reply is the reply at its place. */
  ghost predicate Linear(lib: Library, s: System<Memory.State>) {
    var calls := CallsOf(s.history);
    && s.adapter == Uploads.At(lib, calls, |calls|)
    && forall h :: 0 <= h < |calls| ==> s.history[h].reply == Uploads.ReplyAt(lib, calls, h)
  }

  lemma LinearStep(cfg: Config, lib: Library, s: System<Memory.State>, step: Step<Memory.State>)
    requires Linear(lib, s) && Enabled(cfg, lib, InMemory(lib), s, step)
    ensures Linear(lib, Next(s, step))
  {
    hide Perform, ReplyTo, Invariants.Belongs, Invariants.CheckError, AfterReply, Uploads.At, Uploads.ReplyAt;
    var t := Next(s, step);
    if step.Call? {
      assert CallsOf(t.history) == CallsOf(s.history) + [step.access];
      Uploads.OneMore(lib, CallsOf(s.history), step.access);
    } else {
      assert t.history == s.history && t.adapter == s.adapter;
    }
  }

  lemma AlwaysLinear(cfg: Config, lib: Library, steps: seq<Step<Memory.State>>)
    requires IsRun(cfg, lib, InMemory(lib), New(EMPTY), steps)
    ensures Linear(lib, Reached(New(EMPTY), steps))
  {
    forall s: System<Memory.State>, step: Step<Memory.State> | Linear(lib, s) && Enabled(cfg, lib, InMemory(lib), s, step)
      ensures Linear(lib, Next(s, step))
    {
      LinearStep(cfg, lib, s, step);
    }
    assert Linear(lib, New(EMPTY)) by { assert CallsOf([]) == []; }
    Along(cfg, lib, InMemory(lib), New(EMPTY), steps, s => Linear(lib, s));
  }

  // The id was issued by some adapter call so far.
  ghost predicate IssuedIn(s: System<Memory.State>, id: string) {
    exists h: nat :: h < |s.history| && s.history[h].access.InitiateAccess? && s.history[h].reply == Ok(IdAnswer(id))
  }

  // What a settled Abort or Complete says about the adapter.
  lemma SettledUpload(lib: Library, s: System<Memory.State>, h: nat, p: nat)
    requires Linear(lib, s) && Accounted(s) && EndedBy(s, h, p) && Guarded(s.procs[p].request) && Succeeded(s.procs[p].phase)
    ensures var id, calls := s.procs[p].request.id, CallsOf(s.history);
            if s.procs[p].request.Abort? then Uploads.AbortedAt(calls, h, id) else Uploads.PublishedAt(lib, calls, h, id)
  {
    hide Uploads.At, ReplyTo;
  }

  // Calls come after the start of their operation.
  lemma CallsAfterStart<A>(s: System<A>, t: System<A>, h: nat)
    requires Extends(s, t) && Accounted(s) && h < |t.history| && |s.procs| <= t.history[h].process
    ensures |s.history| <= h
  {
    hide Invariants.Belongs, EndedBy;
    assert forall i :: 0 <= i < |s.history| ==> t.history[i] == s.history[i];
  }

  lemma AccountedAt<A(!new)>(cfg: Config, lib: Library, adapter: Adapter<A>, start: A, steps: seq<Step<A>>, i: nat)
    requires IsRun(cfg, lib, adapter, New(start), steps) && i <= |steps|
    ensures Accounted(Reached(New(start), steps[..i]))
  {
    Prefixes(cfg, lib, adapter, New(start), steps, i);
    AlwaysAccounted(cfg, lib, adapter, start, steps[..i]);
  }

  /** An Abort of an already issued id that has returned nil is final: no Complete of that id that starts
      later succeeds, in any session of the store, whatever else runs. */
  lemma AbortWins(cfg: Config, lib: Library, steps: seq<Step<Memory.State>>, h: nat, i: nat, j: nat, p: nat, q: nat)
    requires IsRun(cfg, lib, InMemory(lib), New(EMPTY), steps) && h <= i <= j <= |steps|
    requires var s := Reached(New(EMPTY), steps[..i]);
             Returns(s, p) && s.procs[p].request.Abort?
             && |Reached(New(EMPTY), steps[..h]).procs| <= p
             && IssuedIn(Reached(New(EMPTY), steps[..h]), s.procs[p].request.id)
             && |s.procs| <= q
    requires var s, t := Reached(New(EMPTY), steps[..i]), Reached(New(EMPTY), steps[..j]);
             q < |t.procs| && t.procs[q].request.Complete? && t.procs[q].request.id == s.procs[p].request.id
    ensures !Succeeded(Reached(New(EMPTY), steps[..j]).procs[q].phase)
  {
    var adapter := InMemory(lib);
    LaterExtends(cfg, lib, adapter, New(EMPTY), steps, h, i);
    LaterExtends(cfg, lib, adapter, New(EMPTY), steps, i, j);
    AccountedAt(cfg, lib, adapter, EMPTY, steps, h);
    AccountedAt(cfg, lib, adapter, EMPTY, steps, i);
    AccountedAt(cfg, lib, adapter, EMPTY, steps, j);
    Prefixes(cfg, lib, adapter, New(EMPTY), steps, i);
    AlwaysLinear(cfg, lib, steps[..i]);
    Prefixes(cfg, lib, adapter, New(EMPTY), steps, j);
    AlwaysLinear(cfg, lib, steps[..j]);
    hide Reached, IsRun, InMemory, Linear;
    AbortBeforeComplete(lib, Reached(New(EMPTY), steps[..h]), Reached(New(EMPTY), steps[..i]), Reached(New(EMPTY), steps[..j]), p, q);
  }

  // The same about three moments r, s, t of a run: the Abort starts after r and is back at s, and the
  // Complete starts after s.
  lemma AbortBeforeComplete(lib: Library, r: System<Memory.State>, s: System<Memory.State>, t: System<Memory.State>, p: nat, q: nat)
    requires Extends(r, s) && Extends(s, t) && Linear(lib, s) && Linear(lib, t)
    requires Accounted(r) && Accounted(s) && Accounted(t)
    requires Returns(s, p) && s.procs[p].request.Abort? && |r.procs| <= p && IssuedIn(r, s.procs[p].request.id)
    requires |s.procs| <= q < |t.procs| && t.procs[q].request.Complete? && t.procs[q].request.id == s.procs[p].request.id
    ensures !Succeeded(t.procs[q].phase)
  {
    hide Invariants.Belongs, Outcome, Uploads.ReplyAt, Uploads.At;
    if Succeeded(t.procs[q].phase) {
      var id, calls := s.procs[p].request.id, CallsOf(t.history);
      var a: nat :| a < |r.history| && r.history[a].access.InitiateAccess? && r.history[a].reply == Ok(IdAnswer(id));
      var b: nat :| EndedBy(s, b, p);
      var c: nat :| EndedBy(t, c, q);
      SettledUpload(lib, s, b, p);
      SettledUpload(lib, t, c, q);
      CallsAfterStart(r, s, b);
      CallsAfterStart(s, t, c);
      assert t.history[a] == r.history[a] && t.history[b] == s.history[b];
      assert Uploads.IssuedAt(lib, calls, a, id) && Uploads.AbortedAt(calls, b, id);
      Uploads.AbortIsFinal(lib, calls, a, b, c, id);
    }
  }

  /** Every answer is one that the adapter, used by one caller at a time, gives at some moment between the start
      and the return of its operation: the results of all operations are linearizable. */
  lemma AnswersLinearize(cfg: Config, lib: Library, steps: seq<Step<Memory.State>>, i: nat, j: nat, p: nat)
    requires IsRun(cfg, lib, InMemory(lib), New(EMPTY), steps) && i <= j <= |steps|
    requires |Reached(New(EMPTY), steps[..i]).procs| <= p < |Reached(New(EMPTY), steps[..j]).procs|
    requires var s := Reached(New(EMPTY), steps[..j]); !s.procs[p].request.Close? && Succeeded(s.procs[p].phase)
    ensures var r, s := Reached(New(EMPTY), steps[..i]), Reached(New(EMPTY), steps[..j]);
            exists h: nat :: |r.history| <= h < |s.history| && AnsweredAt(lib, CallsOf(s.history), h, s.procs[p])
  {
    var adapter := InMemory(lib);
    LaterExtends(cfg, lib, adapter, New(EMPTY), steps, i, j);
    AccountedAt(cfg, lib, adapter, EMPTY, steps, i);
    AccountedAt(cfg, lib, adapter, EMPTY, steps, j);
    Prefixes(cfg, lib, adapter, New(EMPTY), steps, j);
    AlwaysLinear(cfg, lib, steps[..j]);
    hide Reached, IsRun, InMemory, Uploads.At, Outcome, Invariants.Belongs;
    var r, s := Reached(New(EMPTY), steps[..i]), Reached(New(EMPTY), steps[..j]);
    var h: nat :| EndedBy(s, h, p);
    CallsAfterStart(r, s, h);
    assert AnsweredAt(lib, CallsOf(s.history), h, s.procs[p]);
  }

  /** The process has the result that its call at position h would give the only caller of the adapter. */
  ghost predicate AnsweredAt(lib: Library, calls: seq<Access>, h: nat, process: Process) {
    && h < |calls| && Invariants.Belongs(process.request, calls[h]) && (process.phase.Answered? || process.phase.Returned?)
    && Outcome(process.request, calls[h], Uploads.ReplyAt(lib, calls, h)) == Some(process.phase.result)
  }

  /** The sequential invariants hold in every interleaving: every stored key and every live upload passed
      the gates, staged part numbers are in range, and every stored checksum is valid. */
  lemma GatedInEveryInterleaving(raw: Config, lib: Library, steps: seq<Step<Memory.State>>)
    requires Construct(raw).Ok?
    requires IsRun(Construct(raw).value, lib, InMemory(lib), New(EMPTY), steps)
    ensures var m := Reached(New(EMPTY), steps).adapter;
            Invariants.Gated(Construct(raw).value, lib, m) && Invariants.ChecksumsValid(lib, m)
  {
    var cfg := Construct(raw).value;
    ConstructedIsSound(raw);
    forall s: System<Memory.State>, step: Step<Memory.State> | SafeState(cfg, lib, s) && Enabled(cfg, lib, InMemory(lib), s, step)
      ensures SafeState(cfg, lib, Next(s, step))
    {
      SafeStep(cfg, lib, s, step);
    }
    Along(cfg, lib, InMemory(lib), New(EMPTY), steps, s => SafeState(cfg, lib, s));
  }

  ghost predicate SafeState(cfg: Config, lib: Library, s: System<Memory.State>) {
    Vetted(cfg, lib, s) && Invariants.Gated(cfg, lib, s.adapter) && Invariants.ChecksumsValid(lib, s.adapter)
  }

  lemma SafeStep(cfg: Config, lib: Library, s: System<Memory.State>, step: Step<Memory.State>)
    requires Sound(cfg) && SafeState(cfg, lib, s) && Enabled(cfg, lib, InMemory(lib), s, step)
    ensures SafeState(cfg, lib, Next(s, step))
  {
    VettedStep(cfg, lib, InMemory(lib), s, step);
    hide Perform, ReplyTo, Invariants.Gated, Invariants.ChecksumsValid, Invariants.Allowed, Invariants.Belongs,
         Invariants.CheckError, Outcome, Sound;
    if step.Call? {
      Invariants.ChecksAllow(cfg, lib, s.procs[step.p].request, step.access);
      Invariants.GatedStep(cfg, lib, s.adapter, step.access);
      Invariants.ChecksumStep(cfg, lib, s.adapter, step.access);
    }
  }

  lemma VettedStep<A>(cfg: Config, lib: Library, adapter: Adapter<A>, s: System<A>, step: Step<A>)
    requires Vetted(cfg, lib, s) && Enabled(cfg, lib, adapter, s, step)
    ensures Vetted(cfg, lib, Next(s, step))
  {
    hide Invariants.Belongs, Outcome, Spec.PutError, Spec.KeyError, Spec.CopyError, Spec.InitiateError, Spec.PartNumberError, Parts.PartsError;
  }

  /** Over the in-memory adapter, until Close, the ids issued in a run are exactly the live, the published
      and the aborted ones, and no id is two of these. */
  lemma IssuedIdsPartition(cfg: Config, lib: Library, steps: seq<Step<Memory.State>>, id: string)
    requires IsRun(cfg, lib, InMemory(lib), New(EMPTY), steps) && !Reached(New(EMPTY), steps).adapter.closed
    ensures var s := Reached(New(EMPTY), steps);
            var calls := CallsOf(s.history);
            && (IssuedIn(s, id) <==> id in s.adapter.uploads || Uploads.Published(lib, calls, id) || Uploads.Aborted(lib, calls, id))
            && !(id in s.adapter.uploads && Uploads.Published(lib, calls, id))
            && !(id in s.adapter.uploads && Uploads.Aborted(lib, calls, id))
            && !(Uploads.Published(lib, calls, id) && Uploads.Aborted(lib, calls, id))
  {
    AlwaysLinear(cfg, lib, steps);
    hide IsRun, Reached, Uploads.At, Uploads.ReplyAt, Uploads.Published, Uploads.Aborted, InMemory;
    var s := Reached(New(EMPTY), steps);
    var calls := CallsOf(s.history);
    Uploads.IdsPartition(lib, calls, id);
    assert forall h: nat :: Uploads.IssuedAt(lib, calls, h, id) <==>
        h < |s.history| && s.history[h].access.InitiateAccess? && s.history[h].reply == Ok(IdAnswer(id));
  }

  /** Over the in-memory adapter an id is completed at most once even across sessions, whose marks know
      nothing of each other. */
  lemma OneSuccessAcrossSessions(cfg: Config, lib: Library, steps: seq<Step<Memory.State>>, p: nat, q: nat)
    requires IsRun(cfg, lib, InMemory(lib), New(EMPTY), steps)
    requires var s := Reached(New(EMPTY), steps);
             && p < |s.procs| && s.procs[p].request.Complete? && Succeeded(s.procs[p].phase)
             && q < |s.procs| && s.procs[q].request.Complete? && Succeeded(s.procs[q].phase)
             && s.procs[p].request.id == s.procs[q].request.id
    ensures p == q
  {
    AlwaysLinear(cfg, lib, steps);
    AlwaysAccounted(cfg, lib, InMemory(lib), EMPTY, steps);
    hide IsRun, Reached, Invariants.Belongs, Outcome, InMemory, Uploads.At, Uploads.ReplyAt;
    var s := Reached(New(EMPTY), steps);
    var id, calls := s.procs[p].request.id, CallsOf(s.history);
    var h: nat :| EndedBy(s, h, p);
    var i: nat :| EndedBy(s, i, q);
    SettledUpload(lib, s, h, p);
    SettledUpload(lib, s, i, q);
    Uploads.PublishedOnce(lib, calls, h, i, id);
  }

  /** Once the adapter's Close has run it is empty and stays so: operations that were already past the
      closed check write nothing into the cleared maps. */
  lemma ClearedForGood(cfg: Config, lib: Library, steps: seq<Step<Memory.State>>, h: nat)
    requires IsRun(cfg, lib, InMemory(lib), New(EMPTY), steps) && ClosedAt(Reached(New(EMPTY), steps), h)
    ensures var m := Reached(New(EMPTY), steps).adapter; m.closed && m.objects == map[] && m.uploads == map[]
  {
    AlwaysLinear(cfg, lib, steps);
    hide IsRun, Reached, InMemory, Uploads.At, Uploads.ReplyAt;
    var calls := CallsOf(Reached(New(EMPTY), steps).history);
    Uploads.ClosedForGood(lib, calls, h, |calls|);
  }

  // ------------------------------------------------------------------ a mark that an Abort loses

  const PARTS := [PartETag(1, "tag", 0)]

  const MISSING := UploadMissing("CompleteMultipart")

  // A Complete is past its mark when an Abort of the same upload runs from start to end; then it fails.
  ghost function RacingAbort(id: string): seq<Step<Memory.State>> {
    [Start(Invariants.Complete(0, id, PARTS)), Pass(0),
     Start(Invariants.Abort(0, id)), Pass(1), Call(1, AbortAccess(id), Ok(NoAnswer), EMPTY), Finish(1),
     Call(0, CompleteAccess(id, PARTS, 0), Err(MISSING), EMPTY), GiveUp(0, MISSING), Finish(0)]
  }

  // The system after the first k of those steps.
  ghost function Moment(id: string, k: nat): System<Memory.State> {
    var complete := Process(Invariants.Complete(0, id, PARTS),
        if k == 1 then Entered else if k <= 7 then Running else if k == 8 then Answered(Err(MISSING)) else Returned(Err(MISSING)));
    var abort := Process(Invariants.Abort(0, id),
        if k == 3 then Entered else if k == 4 then Running else if k == 5 then Answered(Ok(NoAnswer)) else Returned(Ok(NoAnswer)));
    var aborted, failed := Event(1, AbortAccess(id), Ok(NoAnswer)), Event(0, CompleteAccess(id, PARTS, 0), Err(MISSING));
    System(false, if 2 <= k <= 8 then {(0, id)} else {},
           if k == 0 then [] else if k <= 2 then [complete] else [complete, abort],
           EMPTY, if k <= 4 then [] else if k <= 6 then [aborted] else [aborted, failed])
  }

  lemma CallsOnNothing(lib: Library, id: string)
    ensures Perform(lib, EMPTY, AbortAccess(id)) == EMPTY && ReplyTo(lib, EMPTY, AbortAccess(id)) == Ok(NoAnswer)
    ensures Perform(lib, EMPTY, CompleteAccess(id, PARTS, 0)) == EMPTY
    ensures ReplyTo(lib, EMPTY, CompleteAccess(id, PARTS, 0)) == Err(MISSING)
  {
    assert EMPTY.uploads - {id} == map[];
  }

  lemma MomentStep(cfg: Config, lib: Library, id: string, k: nat)
    requires cfg.maxParts >= 1 && k < 9
    ensures Enabled(cfg, lib, InMemory(lib), Moment(id, k), RacingAbort(id)[k])
    ensures Next(Moment(id, k), RacingAbort(id)[k]) == Moment(id, k + 1)
  {
    Parts.PartsAcceptedIff(PARTS, cfg.maxParts);
    CallsOnNothing(lib, id);
    hide Parts.PartsError, Perform, ReplyTo, UploadMissing;
  }

  lemma {:induction false} MomentReached(cfg: Config, lib: Library, id: string, k: nat)
    requires cfg.maxParts >= 1 && k <= 9
    ensures IsRun(cfg, lib, InMemory(lib), New(EMPTY), RacingAbort(id)[..k])
    ensures Reached(New(EMPTY), RacingAbort(id)[..k]) == Moment(id, k)
  {
    hide IsRun, Reached, Moment, Enabled, Next, InMemory;
    var all := RacingAbort(id);
    if k == 0 {
      assert all[..0] == [];
      FirstMoment(cfg, lib, id);
    } else {
      hide RacingAbort;
      MomentReached(cfg, lib, id, k - 1);
      MomentStep(cfg, lib, id, k - 1);
      Extend(cfg, lib, InMemory(lib), New(EMPTY), all[..k - 1], all[k - 1]);
      assert all[..k - 1] + [all[k - 1]] == all[..k];
    }
  }

  lemma FirstMoment(cfg: Config, lib: Library, id: string)
    ensures IsRun(cfg, lib, InMemory(lib), New(EMPTY), []) && Reached(New(EMPTY), []) == Moment(id, 0)
  {
    hide InMemory, Enabled, Next;
  }

  lemma LastMoment(id: string)
    ensures var s := Moment(id, 9); Returns(s, 1) && s.procs[1].request == Invariants.Abort(0, id) && (0, id) !in s.marks
  {
  }

  /** That an Abort has returned nil does not make later Completes of its id conflict: the failing
      Complete in this run clears the mark that stood for both. */
  lemma AbortMarkLost(cfg: Config, lib: Library, id: string)
    requires cfg.maxParts >= 1
    ensures IsRun(cfg, lib, InMemory(lib), New(EMPTY), RacingAbort(id))
    ensures var s := Reached(New(EMPTY), RacingAbort(id));
            Returns(s, 1) && s.procs[1].request == Invariants.Abort(0, id) && (0, id) !in s.marks
  {
    hide IsRun, Reached, Moment, InMemory;
    var all := RacingAbort(id);
    assert all[..9] == all;
    MomentReached(cfg, lib, id, 9);
    LastMoment(id);
  }
}
