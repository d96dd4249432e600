/** Token walks through Store.List (pkg/ossx/blobstore.go) in the states that a store can reach. */
module Walks {
  import opened Wrappers
  import opened Errors
  import opened Keys
  import opened Config
  import opened Memory
  import opened Retry
  import Breaker
  import Invariants
  import Isolation
  import Listing
  import Runs
  import Spec = StoreSpec

  /** In a reachable state of an open store, List with a live context answers each token with the page of
      the adapter, whatever has failed before, and changes nothing stored. */
  lemma ListAnswers(cfg: Config, lib: Library, events: seq<Invariants.Event>, prefix: string, maxKeys: int, token: string, env: Spec.Env)
    requires var st := Invariants.Execute(cfg, lib, Invariants.START, events).store; !st.closed && !st.mem.closed
    requires NeverCancelled(env.ctx)
    ensures var st := Invariants.Execute(cfg, lib, Invariants.START, events).store;
            var (after, answer) := Spec.List(cfg, st, prefix, maxKeys, token, env);
            after.mem == st.mem && answer == Ok(Some(Listing.Lister(st.mem.objects, prefix, maxKeys)(token)))
  {
    hide Invariants.Execute, PageOf;
    var st := Invariants.Execute(cfg, lib, Invariants.START, events).store;
    Isolation.OnlyReadersCanTrip(cfg, lib, events, "list", env.clock(0));
    var fn, c := Spec.ListCall(prefix, PageSize(maxKeys), token), Spec.Captured(st.mem, [], None);
    assert fn(1, c) == Spec.Assign(st.mem, [], ListObjects(st.mem, prefix, PageSize(maxKeys), token));
    Runs.FirstCall(cfg, st.breakers, "list", env, 0, fn, c);
  }

  /** So in a reachable state, following tokens through List covers the matching keys exactly, in sorted
      order, in as many pages as they fill: no stored key is empty, so a token never means the start. */
  lemma ReachableWalk(raw: Config, lib: Library, events: seq<Invariants.Event>, prefix: string, maxKeys: int)
    requires Construct(raw).Ok?
    ensures var objects := Invariants.Execute(Construct(raw).value, lib, Invariants.START, events).store.mem.objects;
            var list, ks, size := Listing.Lister(objects, prefix, maxKeys), Matching(objects, prefix), PageSize(maxKeys);
            && Listing.Serves(list, ks, size)
            && Listing.Complete(Listing.Walk(list, ks, size, ""), ks, Listing.PageCount(|ks|, size))
  {
    var m := Invariants.Execute(Construct(raw).value, lib, Invariants.START, events).store.mem;
    Invariants.GateInvariant(raw, lib, events);
    assert !Invariants.Writable(Construct(raw).value, lib, "");
    Listing.WalkOfFixedStore(m.objects, prefix, maxKeys);
  }
}
