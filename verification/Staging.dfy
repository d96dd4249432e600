/** Parts staged one after another while anything else happens to the store, and what completing makes of
    them (pkg/ossx/multipart.go, pkg/ossx/inmemory.go). */
module Staging {
  import opened Wrappers
  import opened Errors
  import opened Digests
  import opened Keys
  import opened Policy
  import opened Refusals
  import opened Config
  import opened Text
  import opened Memory
  import opened Accesses
  import opened Parts
  import opened Runs
  import opened Uploads
  import Breaker
  import Refinement
  import Retry
  import Spec = StoreSpec

  // The part that a read of this content stages.
  function PartOf(lib: Library, number: int, data: seq<byte>): PartETag {
    PartETag(number, PartETagText(lib.digests, number, data), |data|)
  }

  // The table after one call on the adapter.
  function TableAfter(lib: Library, table: map<int, PartETag>, id: string, a: Access): map<int, PartETag> {
    if a.PartAccess? && a.id == id && ReadAll(a.body).0.failure.None?
    then table[a.number := PartOf(lib, a.number, ReadAll(a.body).0.data)]
    else table
  }

  // The call ends no upload with this id.
  predicate Spares(a: Access, id: string) {
    a != AbortAccess(id) && !a.CloseAccess? && !(a.CompleteAccess? && a.id == id)
  }

  // The id carries a number that was issued already.
  ghost predicate NumberUsed(m: State, id: string) {
    exists n: nat, key: string :: n <= m.issued && id == UploadIdText(n, key)
  }

  ghost predicate Open(m: State, id: string) {
    !m.closed && id in m.uploads && NumberUsed(m, id)
  }

  lemma StagingStep(lib: Library, m: State, a: Access, id: string)
    requires Open(m, id) && Spares(a, id)
    ensures var after := Perform(lib, m, a);
            Open(after, id) && after.uploads[id].key == m.uploads[id].key && after.uploads[id].opts == m.uploads[id].opts
            && after.uploads[id].parts == TableAfter(lib, m.uploads[id].parts, id, a)
  {
    hide PartETagText;
    var n: nat, key: string :| n <= m.issued && id == UploadIdText(n, key);
    if a.InitiateAccess? && id == UploadIdText(m.issued + 1, a.key) {
      UploadIdInjective(n, key, m.issued + 1, a.key);
    }
    assert n <= Perform(lib, m, a).issued;
  }

  // ------------------------------------------------------------------ over any sequence of adapter calls

  // The content staged last under a number by the calls from position k up to n.
  function LastStaged(calls: seq<Access>, k: nat, n: nat, id: string, number: int): Option<seq<byte>>
    requires k <= n <= |calls|
    decreases n
  {
    if n == k then None
    else
      var a := calls[n - 1];
      if a.PartAccess? && a.id == id && a.number == number && ReadAll(a.body).0.failure.None? then Some(ReadAll(a.body).0.data)
      else LastStaged(calls, k, n - 1, id, number)
  }

  ghost predicate SparedUpTo(calls: seq<Access>, k: nat, n: nat, id: string)
    requires n <= |calls|
  {
    forall j :: k <= j < n ==> Spares(calls[j], id)
  }

  /** From its Initiate on, whatever other calls interleave, failed part reads included, the table of an
      upload holds exactly the last content read under each number. */
  lemma {:induction false} StagedTable(lib: Library, calls: seq<Access>, k: nat, n: nat, id: string)
    requires IssuedAt(lib, calls, k, id) && k < n <= |calls| && SparedUpTo(calls, k + 1, n, id)
    ensures var m := At(lib, calls, n);
            && Open(m, id) && m.uploads[id].key == calls[k].key
            && forall i :: (i in m.uploads[id].parts <==> LastStaged(calls, k + 1, n, id, i).Some?)
                           && (i in m.uploads[id].parts ==>
                                 m.uploads[id].parts[i] == PartOf(lib, i, LastStaged(calls, k + 1, n, id, i).value))
    decreases n
  {
    if n == k + 1 {
      IdNumber(lib, calls, k, id);
      FirstTable(lib, calls, k, id);
    } else {
      hide Perform, IssuedAt, PartOf, Open, NumberUsed;
      StagedTable(lib, calls, k, n - 1, id);
      StagingStep(lib, At(lib, calls, n - 1), calls[n - 1], id);
      assert Open(At(lib, calls, n), id);
    }
  }

  lemma FirstTable(lib: Library, calls: seq<Access>, k: nat, id: string)
    requires IssuedAt(lib, calls, k, id)
    ensures var m := At(lib, calls, k + 1);
            Open(m, id) && m.uploads[id].key == calls[k].key && m.uploads[id].parts == map[]
  {
    IdNumber(lib, calls, k, id);
  }

  // Exactly the numbers 1..count have been staged.
  ghost predicate StagedUpTo(calls: seq<Access>, k: nat, n: nat, id: string, count: nat)
    requires k <= n <= |calls|
  {
    forall i :: LastStaged(calls, k, n, id, i).Some? <==> 1 <= i <= count
  }

  /** Parts 1..count staged in any order, with any re-uploads, failures and other calls in between: ListParts
      gives exactly count parts in strictly ascending order with the last tag and size of each number,
      Complete accepts that list, and the size it reports is the sum of those sizes. */
  lemma StagedPartsComplete(lib: Library, calls: seq<Access>, k: nat, id: string, count: nat, maxParts: int, now: int)
    requires IssuedAt(lib, calls, k, id) && SparedUpTo(calls, k + 1, |calls|, id)
    requires StagedUpTo(calls, k + 1, |calls|, id, count) && 1 <= count && (maxParts > 0 ==> count <= maxParts)
    ensures var m := At(lib, calls, |calls|);
            var listed := ListParts(m, id);
            && listed.Ok? && |listed.value| == count
            && (forall i :: 0 <= i < count ==> listed.value[i] == PartOf(lib, i + 1, LastStaged(calls, k + 1,
                |calls|, id, i + 1).value))
            && PartsError(listed.value, maxParts).None?
            && CompleteMultipart(lib.digests, m, id, listed.value, now).1.Ok?
            && id in m.uploads && UpTo(m.uploads[id].parts, count)
            && CompleteMultipart(lib.digests, m, id, listed.value, now).1.value.size == SumOfSizes(m.uploads[id].parts, count)
  {
    StagedTable(lib, calls, k, |calls|, id);
    var m := At(lib, calls, |calls|);
    assert UpTo(m.uploads[id].parts, count);
    FullTableCompletes(lib.digests, m, id, count, maxParts, now);
  }

  // ------------------------------------------------------------------ what completing promises

  // The staged contents 1..count, one after another.
  function StagedContent(calls: seq<Access>, k: nat, n: nat, id: string, count: nat): seq<byte>
    requires k <= n <= |calls| && forall i :: 1 <= i <= count ==> LastStaged(calls, k, n, id, i).Some?
  {
    if count == 0 then [] else StagedContent(calls, k, n, id, count - 1) + LastStaged(calls, k, n, id, count).value
  }

  ghost predicate AllEmpty(calls: seq<Access>, k: nat, n: nat, id: string, count: nat)
    requires k <= n <= |calls|
  {
    forall i :: 1 <= i <= count && LastStaged(calls, k, n, id, i).Some? ==> LastStaged(calls, k, n, id, i).value == []
  }

  lemma {:induction false} ContentEmptyIff(calls: seq<Access>, k: nat, n: nat, id: string, count: nat)
    requires k <= n <= |calls| && forall i :: 1 <= i <= count ==> LastStaged(calls, k, n, id, i).Some?
    ensures StagedContent(calls, k, n, id, count) == [] <==> AllEmpty(calls, k, n, id, count)
  {
    if count > 0 {
      hide LastStaged;
      ContentEmptyIff(calls, k, n, id, count - 1);
      var front, last := StagedContent(calls, k, n, id, count - 1), LastStaged(calls, k, n, id, count).value;
      assert |front + last| == |front| + |last|;
      assert AllEmpty(calls, k, n, id, count) <==> AllEmpty(calls, k, n, id, count - 1) && last == [];
    }
  }

  /** Completing concatenates the staged parts, as its comment says, if and only if every one of them is
      empty. */
  lemma ConcatenatesIff(lib: Library, calls: seq<Access>, k: nat, id: string, count: nat, parts: seq<PartETag>, now: int)
    requires IssuedAt(lib, calls, k, id) && SparedUpTo(calls, k + 1, |calls|, id) && StagedUpTo(calls, k + 1,
        |calls|, id, count)
    ensures var (after, result) := CompleteMultipart(lib.digests, At(lib, calls, |calls|), id, parts, now);
            && result.Ok? && calls[k].key in after.objects
            && (after.objects[calls[k].key].body == StagedContent(calls, k + 1, |calls|, id, count)
                <==> AllEmpty(calls, k + 1, |calls|, id, count))
  {
    StagedTable(lib, calls, k, |calls|, id);
    ContentEmptyIff(calls, k + 1, |calls|, id, count);
    hide At, LastStaged, StagedContent, TotalSize, MultipartETag;
    var (after, result) := CompleteMultipart(lib.digests, At(lib, calls, |calls|), id, parts, now);
    assert after.objects[calls[k].key].body == [];
  }

  /** The size that Complete returns is the size that a Head of the object reports afterwards if and only if
      the submitted sizes add up to zero. */
  lemma ReportedSizeIff(d: Digests, m: State, id: string, parts: seq<PartETag>, now: int)
    requires !m.closed && id in m.uploads
    ensures var (after, completed) := CompleteMultipart(d, m, id, parts, now);
            var head := HeadObject(after, m.uploads[id].key);
            completed.Ok? && head.Ok? && (completed.value.size == head.value.size <==> TotalSize(parts) == 0)
  {
    hide MultipartETag, TotalSize;
    var after := CompleteMultipart(d, m, id, parts, now).0;
    assert after.objects[m.uploads[id].key].body == [];
  }

  // The state with another table for the upload.
  function WithTable(m: State, id: string, table: map<int, PartETag>): State
    requires id in m.uploads
  {
    m.(uploads := m.uploads[id := m.uploads[id].(parts := table)])
  }

  /** Missing or inconsistent parts are not rejected: on an open adapter Complete succeeds if and only if the
      upload is live, for every part list, and what was staged makes no difference to its result or to what
      it leaves behind. */
  lemma StagedPartsIgnored(d: Digests, m: State, id: string, parts: seq<PartETag>, table: map<int, PartETag>, now: int)
    ensures CompleteMultipart(d, m, id, parts, now).1.Ok? <==> !m.closed && id in m.uploads
    ensures id in m.uploads && !m.closed ==>
              CompleteMultipart(d, WithTable(m, id, table), id, parts, now) == CompleteMultipart(d, m, id, parts, now)
  {
    hide MultipartETag, TotalSize;
    if id in m.uploads {
      assert WithTable(m, id, table).uploads - {id} == m.uploads - {id};
    }
  }

  /** So the promise of the session, that missing or inconsistent parts are rejected, fails on every list that
      Complete's own checks pass and that is not what ListParts gives: it is published all the same. It is
      kept exactly for the lists that those checks reject or that agree with the listing. */
  lemma InconsistentRejectedIff(cfg: Config, lib: Library, st: Spec.State, done: set<string>, id: string,
      parts: seq<PartETag>, env: Spec.Env)
    requires !st.closed && !st.mem.closed && id in st.mem.uploads && id !in done && Retry.NeverCancelled(env.ctx)
    requires Breaker.Admits(Spec.BreakerFor(cfg, st.breakers, "multipart_complete"), env.clock(0))
    ensures var result := Spec.Complete(cfg, lib, st, done, id, parts, env).2;
            var consistent := parts == OrderedParts(st.mem.uploads[id].parts);
            (!consistent ==> result.Err?) <==> consistent || !FullOrderedSet(parts, cfg.maxParts)
  {
    PartsAcceptedIff(parts, cfg.maxParts);
    if FullOrderedSet(parts, cfg.maxParts) { CompleteSucceeds(cfg, lib, st, done, id, parts, env); }
  }

  lemma CompleteSucceeds(cfg: Config, lib: Library, st: Spec.State, done: set<string>, id: string,
      parts: seq<PartETag>, env: Spec.Env)
    requires !st.closed && !st.mem.closed && id in st.mem.uploads && id !in done && Retry.NeverCancelled(env.ctx)
    requires Breaker.Admits(Spec.BreakerFor(cfg, st.breakers, "multipart_complete"), env.clock(0))
    requires PartsError(parts, cfg.maxParts).None?
    ensures var (after, marked, result) := Spec.Complete(cfg, lib, st, done, id, parts, env);
            var (m, info) := CompleteMultipart(lib.digests, st.mem, id, parts, env.clock(1));
            info.Ok? && result == Ok(Some(info.value)) && after.mem == m && marked == done + {id}
  {
    hide PartsError, MultipartETag, TotalSize;
    var fn, c := Spec.CompleteCall(lib, id, parts, env), Spec.Captured(st.mem, [], None);
    var (m, r) := CompleteMultipart(lib.digests, st.mem, id, parts, env.clock(1));
    assert fn(1, c) == Spec.Assign(m, [], r);
    FirstCall(cfg, st.breakers, "multipart_complete", env, 0, fn, c);
  }

  lemma ListPartsAnswers(cfg: Config, st: Spec.State, id: string, env: Spec.Env)
    requires !st.closed && !st.mem.closed && id in st.mem.uploads && Retry.NeverCancelled(env.ctx)
    requires Breaker.Admits(Spec.BreakerFor(cfg, st.breakers, "multipart_list_parts"), env.clock(0))
    ensures var (after, result) := Spec.ListParts(cfg, st, id, env);
            result == Ok(Some(OrderedParts(st.mem.uploads[id].parts))) && after.mem == st.mem && !after.closed
    ensures forall op :: op != "multipart_list_parts" ==>
              Spec.BreakerFor(cfg, Spec.ListParts(cfg, st, id, env).0.breakers, op) == Spec.BreakerFor(cfg, st.breakers, op)
  {
    var fn, c := Spec.ListPartsCall(id), Spec.Captured(st.mem, [], None);
    assert fn(1, c) == Spec.Assign(st.mem, [], ListParts(st.mem, id));
    FirstCall(cfg, st.breakers, "multipart_list_parts", env, 0, fn, c);
  }

  // ------------------------------------------------------------------ parts staged through sessions

  // How many of the next reads of a body fail before one does not, and what that one gives.
  function FailedReads(body: Body): (f: nat)
    ensures f <= |body| && forall i :: 0 <= i < f ==> body[i].failure.Some?
    ensures f < |body| ==> body[f].failure.None?
  {
    if body == [] || body[0].failure.None? then 0 else 1 + FailedReads(body[1..])
  }

  function GoodRead(body: Body): seq<byte> {
    if FailedReads(body) < |body| then body[FailedReads(body)].data else []
  }

  // What k calls of UploadPart's closure do when they all fail: they use up the body.
  lemma {:induction false} FailingReads(lib: Library, id: string, number: int, c: Spec.Captured<PartETag>, k: nat)
    requires Open(c.mem, id) && forall i :: 1 <= i <= k ==> Retry.CallError(Spec.UploadPartCall(lib, id, number), c, i).Some?
    ensures var t := Retry.After(Spec.UploadPartCall(lib, id, number), c, 1, k);
            k <= FailedReads(c.body) && t.mem == c.mem && t.body == c.body[k..]
    decreases k
  {
    if k > 0 {
      FailingReads(lib, id, number, c, k - 1);
      var fn := Spec.UploadPartCall(lib, id, number);
      var before := Retry.After(fn, c, 1, k - 1);
      Retry.AfterLast(fn, c, 1, k);
      assert Retry.CallError(fn, c, k).Some?;
      PartAttempt(lib, id, number, before, k);
    }
  }

  lemma PartAttempt(lib: Library, id: string, number: int, c: Spec.Captured<PartETag>, i: nat)
    requires Open(c.mem, id)
    ensures var (t, e) := Spec.UploadPartCall(lib, id, number)(i, c);
            var read := ReadAll(c.body).0;
            && (e.Some? <==> read.failure.Some?) && t.body == ReadAll(c.body).1
            && (e.Some? ==> Retry.RetryableFailure(e))
            && (e.Some? ==> t.mem == c.mem)
            && (e.None? ==> t.mem == WithTable(c.mem, id, c.mem.uploads[id].parts[number := PartOf(lib, number, read.data)])
                            && t.out == Some(PartOf(lib, number, read.data)))
  {
    hide PartETagText;
    var (m, b, r) := Memory.UploadPart(lib.digests, c.mem, id, number, c.body);
    assert Spec.UploadPartCall(lib, id, number)(i, c) == Spec.Assign(m, b, r);
  }

  /** Through a session, under every context, breaker and reader: UploadPart returns a part exactly when it
      staged one, that part is what the first read that did not fail gave, and otherwise nothing is staged. */
  lemma UploadPartEffect(cfg: Config, lib: Library, st: Spec.State, id: string, number: int, body: Body, env: Spec.Env)
    requires Open(st.mem, id)
    ensures var (after, rest, result) := Spec.UploadPart(cfg, lib, st, id, number, body, env);
            && after.closed == st.closed
            && (result.Err? ==> after.mem == st.mem)
            && (result.Ok? ==>
                  && result.value == Some(PartOf(lib, number, GoodRead(body)))
                  && after.mem == WithTable(st.mem, id, st.mem.uploads[id].parts[number := PartOf(lib, number, GoodRead(body))])
                  && 1 <= number && (cfg.maxParts > 0 ==> number <= cfg.maxParts))
  {
    if Spec.First(Spec.Entry(st.closed, env.ctx), Spec.PartNumberError(cfg, number)).None? {
      UploadPartRun(cfg, lib, st, id, number, body, env);
    }
  }

  lemma UploadPartRun(cfg: Config, lib: Library, st: Spec.State, id: string, number: int, body: Body, env: Spec.Env)
    requires Open(st.mem, id)
    ensures var r := Spec.RunOp(cfg, st.breakers, "multipart_upload_part", env, 0, Spec.UploadPartCall(lib, id,
        number), Spec.Captured(st.mem, body, None));
            && (r.err.Some? ==> r.captured.mem == st.mem)
            && (r.err.None? ==>
                  && r.captured.out == Some(PartOf(lib, number, GoodRead(body)))
                  && r.captured.mem == WithTable(st.mem, id, st.mem.uploads[id].parts[number := PartOf(lib, number,
                      GoodRead(body))]))
  {
    hide Spec.RunOp, Spec.UploadPartCall, PartOf;
    var fn, c := Spec.UploadPartCall(lib, id, number), Spec.Captured(st.mem, body, None);
    var r := Spec.RunOp(cfg, st.breakers, "multipart_upload_part", env, 0, fn, c);
    var n := RunShape(cfg, st.breakers, "multipart_upload_part", env, 0, fn, c);
    if r.err.Some? {
      FailingReads(lib, id, number, c, n);
    } else {
      FailingReads(lib, id, number, c, n - 1);
      Retry.AfterLast(fn, c, 1, n);
      var before := Retry.After(fn, c, 1, n - 1);
      PartAttempt(lib, id, number, before, n);
      assert before.body == body[n - 1..];
      assert FailedReads(body) == n - 1;
    }
  }

  predicate Fresh(up: Upload, key: string, opts: PutOptions) {
    up.key == key && up.opts == opts && up.parts == map[]
  }

  /** Where it starts: an Initiate that returns an id leaves an open upload with that key and those
      options and an empty table. */
  lemma InitiatedIsOpen(cfg: Config, lib: Library, st: Spec.State, key: string, opts: PutOptions, env: Spec.Env)
    ensures var (after, result) := Spec.Initiate(cfg, lib, st, key, opts, env);
            result.Ok? ==>
              && result.value.Some? && Open(after.mem, result.value.value)
                  && Fresh(after.mem.uploads[result.value.value], key, opts)
              && Spec.InitiateError(cfg, lib, key, opts).None?
  {
    hide Spec.RunOp;
    var fn, c := Spec.InitiateCall(key, opts, env), Spec.Captured(st.mem, [], None);
    var n := RunShape(cfg, st.breakers, "multipart_initiate", env, 0, fn, c);
    if Spec.RunOp(cfg, st.breakers, "multipart_initiate", env, 0, fn, c).err.None? {
      Retry.AfterLast(fn, c, 1, n);
      InitiateAttempt(key, opts, env, Retry.After(fn, c, 1, n - 1), n);
    }
  }

  lemma InitiateAttempt(key: string, opts: PutOptions, env: Spec.Env, c: Spec.Captured<string>, i: nat)
    ensures var (t, e) := Spec.InitiateCall(key, opts, env)(i, c);
            e.None? ==> t.out.Some? && Open(t.mem, t.out.value) && Fresh(t.mem.uploads[t.out.value], key, opts)
  {
    var (m, r) := InitiateMultipart(c.mem, key, opts, env.clock(i));
    assert Spec.InitiateCall(key, opts, env)(i, c) == Spec.Assign(m, c.body, r);
    assert r.Ok? ==> r.value == UploadIdText(m.issued, key);
  }

  /** And it does return one, whenever the store is open, the context is live, the breaker admits and the key and the
      metadata pass: valid key, metadata that fits, permitted key. */
  lemma InitiateSucceeds(cfg: Config, lib: Library, st: Spec.State, key: string, opts: PutOptions, env: Spec.Env)
    requires !st.closed && !st.mem.closed && Retry.NeverCancelled(env.ctx)
    requires Breaker.Admits(Spec.BreakerFor(cfg, st.breakers, "multipart_initiate"), env.clock(0))
    ensures Spec.Initiate(cfg, lib, st, key, opts, env).1.Ok?
            <==> WellFormed(lib, key) && WriteRefusal(cfg.permission, key).None? && Fits(opts.metadata)
  {
    hide Spec.RunOp, Spec.InitiateCall, Spec.InitiateError, WellFormed, WriteRefusal, Fits;
    var fn, c := Spec.InitiateCall(key, opts, env), Spec.Captured(st.mem, [], None);
    FirstInitiate(key, opts, env, c);
    FirstCall(cfg, st.breakers, "multipart_initiate", env, 0, fn, c);
    InitiateRefusalExact(cfg, lib, key, opts);
  }

  lemma FirstInitiate(key: string, opts: PutOptions, env: Spec.Env, c: Spec.Captured<string>)
    requires !c.mem.closed
    ensures Spec.InitiateCall(key, opts, env)(1, c).1.None?
  {
    var (m, r) := InitiateMultipart(c.mem, key, opts, env.clock(1));
    assert Spec.InitiateCall(key, opts, env)(1, c) == Spec.Assign(m, c.body, r);
  }

  /** A valid part is returned: on an open store with the upload live, a live context and an admitting breaker,
      UploadPart succeeds if and only if its number is at least 1 and at most MaxParts, provided that fewer reads
      fail than there are attempts. */
  lemma UploadPartSucceeds(cfg: Config, lib: Library, st: Spec.State, id: string, number: int, body: Body, env: Spec.Env)
    requires !st.closed && Open(st.mem, id) && Retry.NeverCancelled(env.ctx)
    requires Breaker.Admits(Spec.BreakerFor(cfg, st.breakers, "multipart_upload_part"), env.clock(0))
    requires FailedReads(body) < Retry.FromConfig(cfg.retry).maxAttempts
    ensures Spec.UploadPart(cfg, lib, st, id, number, body, env).2.Ok?
            <==> 1 <= number && (cfg.maxParts > 0 ==> number <= cfg.maxParts)
  {
    hide Spec.RunOp, Spec.UploadPartCall;
    UploadPartRun(cfg, lib, st, id, number, body, env);
    UploadRunSucceeds(cfg, lib, st, id, number, body, env);
  }

  lemma UploadRunSucceeds(cfg: Config, lib: Library, st: Spec.State, id: string, number: int, body: Body, env: Spec.Env)
    requires Open(st.mem, id) && Retry.NeverCancelled(env.ctx)
    requires Breaker.Admits(Spec.BreakerFor(cfg, st.breakers, "multipart_upload_part"), env.clock(0))
    requires FailedReads(body) < Retry.FromConfig(cfg.retry).maxAttempts
    ensures Spec.RunOp(cfg, st.breakers, "multipart_upload_part", env, 0, Spec.UploadPartCall(lib, id, number),
        Spec.Captured(st.mem, body, None)).err.None?
  {
    hide Spec.RunOp, Spec.UploadPartCall, PartETagText;
    var fn, c := Spec.UploadPartCall(lib, id, number), Spec.Captured(st.mem, body, None);
    var n := RunShape(cfg, st.breakers, "multipart_upload_part", env, 0, fn, c);
    FailingReads(lib, id, number, c, n - 1);
    PartAttempt(lib, id, number, Retry.After(fn, c, 1, n - 1), n);
    if Retry.CallError(fn, c, n).Some? { FailingReads(lib, id, number, c, n); }
  }

  // What happens to the store between Initiate and Complete of one upload: its own parts, through any
  // session, or anything else, which spares it and stages nothing under its id. Other operations leave
  // the breakers as they like.
  datatype Turn =
    | Upload(number: int, body: Body, env: Spec.Env)
    | Elsewhere(access: Access, breakers: map<string, Breaker.State>)

  // The store after the turns, and for each number the part that was returned last.
  function AfterTurns(cfg: Config, lib: Library, st: Spec.State, id: string, turns: seq<Turn>): (Spec.State, map<int,
      PartETag>) {
    if turns == [] then (st, map[])
    else
      var (s, returned) := AfterTurns(cfg, lib, st, id, turns[..|turns| - 1]);
      match turns[|turns| - 1]
      case Upload(number, body, env) =>
        var (after, _, result) := Spec.UploadPart(cfg, lib, s, id, number, body, env);
        (after, if result.Ok? && result.value.Some? then returned[number := result.value.value] else returned)
      case Elsewhere(a, breakers) => (s.(mem := Perform(lib, s.mem, a), breakers := breakers), returned)
  }

  ghost predicate LeftAlone(turns: seq<Turn>, id: string) {
    forall i :: 0 <= i < |turns| && turns[i].Elsewhere? ==>
      Spares(turns[i].access, id) && !(turns[i].access.PartAccess? && turns[i].access.id == id)
  }

  // Every returned part is filed under its number, within bounds, with a tag.
  ghost predicate InBounds(cfg: Config, parts: map<int, PartETag>) {
    forall i :: i in parts ==> 1 <= i && (cfg.maxParts > 0 ==> i <= cfg.maxParts) && parts[i].partNumber == i && parts[i].etag != ""
  }

  /** The staged table is exactly what the callers saw: for each number the part that UploadPart returned
      last, under every context, breaker and reader and whatever else happens to the store. */
  lemma {:induction false} TableIsReturned(cfg: Config, lib: Library, st: Spec.State, id: string, turns: seq<Turn>)
    requires Open(st.mem, id) && st.mem.uploads[id].parts == map[] && LeftAlone(turns, id)
    ensures var (after, returned) := AfterTurns(cfg, lib, st, id, turns);
            && Open(after.mem, id) && after.closed == st.closed && after.mem.uploads[id].parts == returned
                && InBounds(cfg, returned)
            && after.mem.uploads[id].key == st.mem.uploads[id].key && after.mem.uploads[id].opts == st.mem.uploads[id].opts
    decreases |turns|
  {
    hide Open, Spec.UploadPart, Perform, Spares, GoodRead;
    if turns != [] {
      var front, last := turns[..|turns| - 1], turns[|turns| - 1];
      TableIsReturned(cfg, lib, st, id, front);
      var s := AfterTurns(cfg, lib, st, id, front).0;
      match last
      case Upload(number, body, env) =>
        UploadPartEffect(cfg, lib, s, id, number, body, env);
        StillOpen(s.mem, id, number, PartOf(lib, number, GoodRead(body)));
        var (after, _, result) := Spec.UploadPart(cfg, lib, s, id, number, body, env);
        assert AfterTurns(cfg, lib, st, id, turns).0 == after;
      case Elsewhere(a, _) => StagingStep(lib, s.mem, a, id);
    }
  }

  lemma StillOpen(m: State, id: string, number: int, part: PartETag)
    requires Open(m, id)
    ensures id in m.uploads && Open(WithTable(m, id, m.uploads[id].parts[number := part]), id)
  {
  }

  /** A part with a number in bounds, uploaded at any point with a live context, an admitting breaker and fewer
      failed reads than attempts, is the one returned last for its number; no other number is concerned. */
  lemma TurnReturns(cfg: Config, lib: Library, st: Spec.State, id: string, turns: seq<Turn>, number: int, body: Body,
      env: Spec.Env)
    requires !st.closed && Open(st.mem, id) && st.mem.uploads[id].parts == map[] && LeftAlone(turns, id)
    requires 1 <= number && (cfg.maxParts > 0 ==> number <= cfg.maxParts) && Retry.NeverCancelled(env.ctx)
    requires Breaker.Admits(Spec.BreakerFor(cfg, AfterTurns(cfg, lib, st, id, turns).0.breakers, "multipart_upload_part"), env.clock(0))
    requires FailedReads(body) < Retry.FromConfig(cfg.retry).maxAttempts
    ensures AfterTurns(cfg, lib, st, id, turns + [Turn.Upload(number, body, env)]).1
            == AfterTurns(cfg, lib, st, id, turns).1[number := PartOf(lib, number, GoodRead(body))]
  {
    hide Open, Spec.UploadPart, PartOf, GoodRead, LeftAlone, FailedReads, Spec.BreakerFor;
    TableIsReturned(cfg, lib, st, id, turns);
    var s, all := AfterTurns(cfg, lib, st, id, turns).0, turns + [Turn.Upload(number, body, env)];
    assert all[..|all| - 1] == turns;
    UploadPartEffect(cfg, lib, s, id, number, body, env);
    UploadPartSucceeds(cfg, lib, s, id, number, body, env);
  }

  /** So if parts 1..count have been returned, in any order and with any re-uploads, then with a live context and
      admitting breakers the session's ListParts gives exactly those parts, ascending, and its Complete of that
      list succeeds with the sum of their sizes. */
  lemma SessionCompletes(cfg: Config, lib: Library, st: Spec.State, id: string, turns: seq<Turn>, count: nat, done: set<string>,
                         listEnv: Spec.Env, completeEnv: Spec.Env)
    requires !st.closed && Open(st.mem, id) && st.mem.uploads[id].parts == map[] && LeftAlone(turns, id)
    requires UpTo(AfterTurns(cfg, lib, st, id, turns).1, count) && count >= 1 && id !in done
    requires Retry.NeverCancelled(listEnv.ctx) && Retry.NeverCancelled(completeEnv.ctx)
    requires var s := AfterTurns(cfg, lib, st, id, turns).0;
             && Breaker.Admits(Spec.BreakerFor(cfg, s.breakers, "multipart_list_parts"), listEnv.clock(0))
             && Breaker.Admits(Spec.BreakerFor(cfg, s.breakers, "multipart_complete"), completeEnv.clock(0))
    ensures var (s, returned) := AfterTurns(cfg, lib, st, id, turns);
            var (after, listed) := Spec.ListParts(cfg, s, id, listEnv);
            && listed.Ok? && listed.value.Some?
            && |listed.value.value| == count && (forall i :: 0 <= i < count ==> listed.value.value[i] == returned[i + 1])
            && (var completed := Spec.Complete(cfg, lib, after, done, id, listed.value.value, completeEnv).2;
                completed.Ok? && completed.value.Some? && completed.value.value.size == SumOfSizes(returned, count))
  {
    hide AfterTurns, Spec.ListParts, Spec.Complete, OrderedParts, PartsError, SumOfSizes, LeftAlone;
    TableIsReturned(cfg, lib, st, id, turns);
    var (s, returned) := AfterTurns(cfg, lib, st, id, turns);
    assert count in returned;
    FullTableCompletes(lib.digests, s.mem, id, count, cfg.maxParts, completeEnv.clock(1));
    ListPartsAnswers(cfg, s, id, listEnv);
    var after := Spec.ListParts(cfg, s, id, listEnv).0;
    CompleteSucceeds(cfg, lib, after, done, id, OrderedParts(returned), completeEnv);
  }

  /** UploadPart retries with the same reader and does not rewind it: the part it returns has the size of
      everything the reader delivered if and only if no failed read delivered a byte. */
  lemma PartCompleteIff(cfg: Config, lib: Library, st: Spec.State, id: string, number: int, body: Body, env: Spec.Env)
    requires Open(st.mem, id)
    ensures var result := Spec.UploadPart(cfg, lib, st, id, number, body, env).2;
            result.Ok? ==>
              && result.value.Some?
              && (result.value.value.size == |Refinement.Delivered(body, FailedReads(body))| + |GoodRead(body)|
                  <==> forall i :: 0 <= i < FailedReads(body) ==> body[i].data == [])
  {
    hide Spec.UploadPart;
    UploadPartEffect(cfg, lib, st, id, number, body, env);
    Refinement.DeliveredLength(body, FailedReads(body));
  }

  // ------------------------------------------------------------------ the published object

  // What Complete publishes at the given time.
  ghost predicate PublishedAs(m: State, key: string, opts: PutOptions, at: int) {
    && !m.closed && key in m.objects
    && (var o := m.objects[key];
        o.contentType == opts.contentType && o.metadata == opts.metadata && o.tags == opts.tags && o.createdAt == at && o.checksum == "")
  }

  /** A Complete of a live upload that succeeds, under whatever context, publishes under the upload's key an object
      with the content type, metadata and tags of its Initiate, created when Complete called the adapter, and
      returns its description; one that fails publishes nothing. */
  lemma CompletePublishes(cfg: Config, lib: Library, st: Spec.State, done: set<string>, id: string,
      parts: seq<PartETag>, env: Spec.Env)
    requires !st.mem.closed && id in st.mem.uploads
    ensures var (after, marked, result) := Spec.Complete(cfg, lib, st, done, id, parts, env);
            var up := st.mem.uploads[id];
            && after.closed == st.closed
            && (result.Err? ==> after.mem == st.mem)
            && (result.Ok? ==>
                  && PublishedAs(after.mem, up.key, up.opts, env.clock(1)) && id !in after.mem.uploads
                  && (forall k :: k != up.key ==> (k in after.mem.objects <==> k in st.mem.objects))
                  && (forall k :: k in st.mem.objects && k != up.key ==> after.mem.objects[k] == st.mem.objects[k])
                  && result.value.Some?
                  && result.value.value == InfoOf(up.key, after.mem.objects[up.key]).(size := TotalSize(parts)))
  {
    hide Spec.RunOp, Spec.CompleteCall, PartsError, TotalSize, MultipartETag, Spec.ContextError;
    var fn, c := Spec.CompleteCall(lib, id, parts, env), Spec.Captured(st.mem, [], None);
    CompleteAttempt(lib, id, parts, env, c);
    var n := RunShape(cfg, st.breakers, "multipart_complete", env, 0, fn, c);
    assert n >= 1 ==> !Retry.RetryableFailure(Retry.CallError(fn, c, 1));
    if n == 1 { Retry.AfterLast(fn, c, 1, 1); }
  }

  lemma CompleteAttempt(lib: Library, id: string, parts: seq<PartETag>, env: Spec.Env, c: Spec.Captured<ObjectInfo>)
    requires !c.mem.closed && id in c.mem.uploads
    ensures var (t, e) := Spec.CompleteCall(lib, id, parts, env)(1, c);
            var up := c.mem.uploads[id];
            && e.None? && t.mem == c.mem.(objects := c.mem.objects[up.key := Object([], up.opts.contentType,
                up.opts.metadata, up.opts.tags,
                                                                                    MultipartETag(lib.digests), "", env.clock(1))],
                                          uploads := c.mem.uploads - {id})
            && t.out == Some(InfoOf(up.key, t.mem.objects[up.key]).(size := TotalSize(parts)))
  {
    var (m, r) := CompleteMultipart(lib.digests, c.mem, id, parts, env.clock(1));
    assert Spec.CompleteCall(lib, id, parts, env)(1, c) == Spec.Assign(m, c.body, r);
  }

  /** The whole life of an upload: an Initiate that returns an id, anything that leaves the upload alone, and a
      Complete that succeeds. Head of the key then describes an object with the options given to Initiate and the
      time of the Complete; with retention on, Delete refuses it for MaxDays days from the Complete, however long
      the upload was open. */
  lemma UploadPublishes(cfg: Config, lib: Library, st: Spec.State, key: string, opts: PutOptions,
      initiateEnv: Spec.Env, turns: seq<Turn>,
                        done: set<string>, parts: seq<PartETag>, completeEnv: Spec.Env, headEnv: Spec.Env,
                            deleteEnv: Spec.Env, strict: bool)
    requires var (started, id) := Spec.Initiate(cfg, lib, st, key, opts, initiateEnv);
             id.Ok? && id.value.Some? && LeftAlone(turns, id.value.value) && !started.closed
             && Spec.Complete(cfg, lib, AfterTurns(cfg, lib, started, id.value.value, turns).0, done, id.value.value,
                 parts, completeEnv).2.Ok?
    requires Retry.NeverCancelled(headEnv.ctx) && Retry.NeverCancelled(deleteEnv.ctx)
    requires var (started, id) := Spec.Initiate(cfg, lib, st, key, opts, initiateEnv);
             var after := Spec.Complete(cfg, lib, AfterTurns(cfg, lib, started, id.value.value, turns).0, done,
                 id.value.value, parts, completeEnv).0;
             Breaker.Admits(Spec.BreakerFor(cfg, after.breakers, "head"), headEnv.clock(0))
             && Breaker.Admits(Spec.BreakerFor(cfg, after.breakers, "head"), deleteEnv.clock(0))
    ensures var (started, id) := Spec.Initiate(cfg, lib, st, key, opts, initiateEnv);
            var after := Spec.Complete(cfg, lib, AfterTurns(cfg, lib, started, id.value.value, turns).0, done,
                id.value.value, parts, completeEnv).0;
            && PublishedAs(after.mem, key, opts, completeEnv.clock(1))
            && Spec.Head(cfg, lib, after, key, headEnv).1 == Ok(Some(InfoOf(key, after.mem.objects[key])))
            && (cfg.retention.Enabled() && 1 <= cfg.retention.maxDays <= LONGEST_RETENTION_DAYS
                && deleteEnv.clock(Spec.SecondLook(cfg) - 1) - completeEnv.clock(1) < cfg.retention.maxDays * DAY ==>
                  Spec.Delete(cfg, lib, after, key, strict, deleteEnv) == (Spec.Delete(cfg, lib, after, key, strict,
                      deleteEnv).0, Some(TOO_YOUNG))
                  && Spec.Delete(cfg, lib, after, key, strict, deleteEnv).0.mem == after.mem)
  {
    hide Spec.Initiate, Spec.Complete, Spec.Head, Spec.Delete, AfterTurns, LeftAlone, Spec.InitiateError, Spec.BreakerFor;
    InitiatedIsOpen(cfg, lib, st, key, opts, initiateEnv);
    var (started, result) := Spec.Initiate(cfg, lib, st, key, opts, initiateEnv);
    var id := result.value.value;
    TableIsReturned(cfg, lib, started, id, turns);
    var s := AfterTurns(cfg, lib, started, id, turns).0;
    CompletePublishes(cfg, lib, s, done, id, parts, completeEnv);
    var after := Spec.Complete(cfg, lib, s, done, id, parts, completeEnv).0;
    InitiateGate(cfg, lib, key, opts);
    HeadAnswers(cfg, lib, after, key, headEnv);
    if cfg.retention.Enabled() && 1 <= cfg.retention.maxDays <= LONGEST_RETENTION_DAYS
       && deleteEnv.clock(Spec.SecondLook(cfg) - 1) - completeEnv.clock(1) < cfg.retention.maxDays * DAY {
      Refinement.YoungIsKept(cfg, lib, after, key, strict, deleteEnv);
    }
  }

  lemma InitiateGate(cfg: Config, lib: Library, key: string, opts: PutOptions)
    ensures Spec.InitiateError(cfg, lib, key, opts).None? ==> ValidKey(lib, key)
  {
    hide NewKey, ValidateMetadata;
  }

  lemma HeadAnswers(cfg: Config, lib: Library, st: Spec.State, key: string, env: Spec.Env)
    requires !st.closed && !st.mem.closed && ValidKey(lib, key) && key in st.mem.objects && Retry.NeverCancelled(env.ctx)
    requires Breaker.Admits(Spec.BreakerFor(cfg, st.breakers, "head"), env.clock(0))
    ensures Spec.Head(cfg, lib, st, key, env).1 == Ok(Some(InfoOf(key, st.mem.objects[key])))
  {
    hide NewKey;
    var fn, c := Spec.HeadCall(key), Spec.Captured(st.mem, [], None);
    assert fn(1, c) == Spec.Assign(st.mem, [], HeadObject(st.mem, key));
    FirstCall(cfg, st.breakers, "head", env, 0, fn, c);
  }
}
