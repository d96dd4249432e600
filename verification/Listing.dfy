/** Token pagination over the in-memory adapter: a walk over a changing store, and over a fixed one. */
module Listing {
  import opened Wrappers
  import opened Arith
  import opened Errors
  import opened Keys
  import opened Text
  import opened Memory

  function KeysOf(items: seq<ObjectInfo>): (ks: seq<string>)
    ensures |ks| == |items|
    ensures forall i :: 0 <= i < |ks| ==> ks[i] == items[i].key
  {
    if items == [] then [] else [items[0].key] + KeysOf(items[1..])
  }

  // Where a token stands: before every key, or at a key.
  predicate Beyond(token: string, key: string) {
    token == "" || Less(token, key)
  }

  lemma {:induction false} InfosKeys(objects: map<string, Object>, ks: seq<string>)
    requires forall k :: k in ks ==> k in objects
    ensures KeysOf(Infos(objects, ks)) == ks
  {
  }

  lemma {:induction false} AfterTokenSplits(ks: seq<string>, token: string)
    requires Ascending(ks) && token in ks
    ensures AfterToken(ks, token) > 0
    ensures forall i :: 0 <= i < |ks| ==> (i >= AfterToken(ks, token) <==> Less(token, ks[i]))
  {
    var at := AfterToken(ks, token) - 1;
    forall i | 0 <= i < |ks| ensures i > at <==> Less(token, ks[i]) {
      if i == at {
        LessIrreflexive(token);
      } else if i < at && Less(token, ks[i]) {
        LessTransitive(token, ks[i], token);
        LessIrreflexive(token);
      }
    }
  }

  /** A page is a slice of the sorted matching keys: from after the token to the page size. */
  lemma PageIsSlice(objects: map<string, Object>, prefix: string, max: int, token: string)
    ensures var page := PageOf(objects, prefix, max, token);
            var ks := Matching(objects, prefix);
            var start := StartIndex(ks, token);
            var end := EndIndex(ks, start, max);
            CutFrom(page, ks, start, end)
  {
    var ks := Matching(objects, prefix);
    var start := StartIndex(ks, token);
    InfosKeys(objects, ks[start..EndIndex(ks, start, max)]);
  }

  /** What one page with a listed token holds. */
  ghost predicate GoodPage(objects: map<string, Object>, prefix: string, token: string, page: ListPage) {
    var ks := KeysOf(page.items);
    && Ascending(ks)
    && (forall k :: k in ks ==> k in objects && HasPrefix(k, prefix) && Beyond(token, k))
    && (page.truncated ==> |ks| > 0 && page.next == ks[|ks| - 1])
    && (forall k :: k in objects && HasPrefix(k, prefix) && Beyond(token, k) ==>
          k in ks || (page.truncated && Less(page.next, k)))
  }

  // A page cut from the sorted matching keys ks.
  ghost predicate CutFrom(page: ListPage, ks: seq<string>, start: nat, end: nat) {
    && start <= end <= |ks|
    && KeysOf(page.items) == ks[start..end]
    && page.truncated == (end < |ks|)
    && (end < |ks| ==> start < end && page.next == ks[end - 1])
  }

  lemma SliceFacts(ks: seq<string>, token: string, start: nat, end: nat)
    requires Ascending(ks) && start <= end <= |ks|
    requires forall i :: 0 <= i < |ks| ==> (i >= start <==> Beyond(token, ks[i]))
    ensures Ascending(ks[start..end])
    ensures forall k :: k in ks[start..end] ==> k in ks && Beyond(token, k)
  {
    var slice := ks[start..end];
    forall k | k in slice ensures k in ks && Beyond(token, k) {
      var i :| 0 <= i < |slice| && slice[i] == k;
      assert ks[start + i] == k;
    }
  }

  lemma SliceMissesNone(ks: seq<string>, token: string, start: nat, end: nat)
    requires Ascending(ks) && start <= end <= |ks| && (end < |ks| ==> start < end)
    requires forall i :: 0 <= i < |ks| ==> (i >= start <==> Beyond(token, ks[i]))
    ensures forall k :: k in ks && Beyond(token, k) ==> k in ks[start..end] || (end < |ks| && Less(ks[end - 1], k))
  {
    forall k | k in ks && Beyond(token, k)
      ensures k in ks[start..end] || (end < |ks| && Less(ks[end - 1], k))
    {
      var i :| 0 <= i < |ks| && ks[i] == k;
      if i < end {
        assert ks[start..end][i - start] == k;
      }
    }
  }

  lemma CutIsGood(objects: map<string, Object>, prefix: string, token: string, page: ListPage,
                  ks: seq<string>, start: nat, end: nat)
    requires Ascending(ks) && CutFrom(page, ks, start, end)
    requires forall k :: k in ks <==> k in objects && HasPrefix(k, prefix)
    requires forall i :: 0 <= i < |ks| ==> (i >= start <==> Beyond(token, ks[i]))
    ensures GoodPage(objects, prefix, token, page)
  {
    hide Ascending, Beyond, HasPrefix, Less;
    SliceFacts(ks, token, start, end);
    SliceMissesNone(ks, token, start, end);
  }

  lemma StartSplits(ks: seq<string>, token: string)
    requires Ascending(ks) && (token != "" ==> token in ks)
    ensures forall i :: 0 <= i < |ks| ==> (i >= StartIndex(ks, token) <==> Beyond(token, ks[i]))
  {
    if token != "" { AfterTokenSplits(ks, token); }
  }

  /** One page whose token, if any, is still listed: ascending keys of stored matching objects beyond
      the token, all of them up to the next token, or all of them when there is none. */
  lemma PageLaw(objects: map<string, Object>, prefix: string, max: int, token: string)
    requires token != "" ==> token in objects && HasPrefix(token, prefix)
    ensures GoodPage(objects, prefix, token, PageOf(objects, prefix, max, token))
  {
    var ks := Matching(objects, prefix);
    var start := StartIndex(ks, token);
    PageIsSlice(objects, prefix, max, token);
    StartSplits(ks, token);
    CutIsGood(objects, prefix, token, PageOf(objects, prefix, max, token), ks, start, EndIndex(ks, start, max));
  }

  // ------------------------------------------------------------------ the store changes between pages

  // What one page request sees: the stored objects at that moment, and its page size.
  datatype Fetch = Fetch(objects: map<string, Object>, max: int)

  // The pages of a client that passes each returned token to its next request.
  function Pages(fetches: seq<Fetch>, prefix: string, token: string): (pages: seq<ListPage>)
    ensures |pages| == |fetches|
    decreases |fetches|
  {
    if fetches == [] then []
    else
      var page := PageOf(fetches[0].objects, prefix, fetches[0].max, token);
      [page] + Pages(fetches[1..], prefix, page.next)
  }

  function KeysOfPages(pages: seq<ListPage>): seq<string> {
    if pages == [] then [] else KeysOf(pages[0].items) + KeysOfPages(pages[1..])
  }

  /** A walk: it goes on only after truncated pages, and each token key is stored when it is used. */
  ghost predicate TokenWalk(fetches: seq<Fetch>, prefix: string, token: string)
    decreases |fetches|
  {
    fetches != [] ==>
      var page := PageOf(fetches[0].objects, prefix, fetches[0].max, token);
      && "" !in fetches[0].objects
      && (token != "" ==> token in fetches[0].objects)
      && (|fetches| > 1 ==> page.truncated)
      && TokenWalk(fetches[1..], prefix, page.next)
  }

  ghost predicate StoredThroughout(fetches: seq<Fetch>, key: string) {
    forall i :: 0 <= i < |fetches| ==> key in fetches[i].objects
  }

  lemma {:induction false} WalkFrom(fetches: seq<Fetch>, prefix: string, token: string)
    requires fetches != [] && TokenWalk(fetches, prefix, token)
    requires token != "" ==> HasPrefix(token, prefix)
    ensures var pages := Pages(fetches, prefix, token);
            Returned(fetches, prefix, token, KeysOfPages(pages), !pages[|pages| - 1].truncated)
    decreases |fetches|
  {
    var f, rest := fetches[0], fetches[1..];
    var page := PageOf(f.objects, prefix, f.max, token);
    var pages := Pages(fetches, prefix, token);
    PageLaw(f.objects, prefix, f.max, token);
    assert pages[0] == page && pages[1..] == Pages(rest, prefix, page.next);
    if rest == [] {
      assert KeysOfPages(pages) == KeysOf(page.items) + [];
      LastPage(fetches, prefix, token, page);
    } else {
      var first := KeysOf(page.items);
      assert page.next in first && page.next in f.objects;
      WalkFrom(rest, prefix, page.next);
      assert pages[|pages| - 1] == pages[1..][|pages[1..]| - 1];
      PagePrepended(fetches, prefix, token, page, KeysOfPages(pages[1..]), pages[|pages| - 1].truncated);
    }
  }

  /** What a walk has returned so far: increasing keys beyond the start; when done, nothing missing. */
  ghost predicate Returned(fetches: seq<Fetch>, prefix: string, token: string, ks: seq<string>, done: bool) {
    && Ascending(ks)
    && (forall k :: k in ks ==> Beyond(token, k) && HasPrefix(k, prefix))
    && (done ==> forall k :: StoredThroughout(fetches, k) && HasPrefix(k, prefix) && Beyond(token, k) ==> k in ks)
  }

  lemma LastPage(fetches: seq<Fetch>, prefix: string, token: string, page: ListPage)
    requires fetches != [] && GoodPage(fetches[0].objects, prefix, token, page)
    ensures Returned(fetches, prefix, token, KeysOf(page.items), !page.truncated)
  {
    forall k | StoredThroughout(fetches, k) ensures k in fetches[0].objects {
    }
  }

  lemma PagePrepended(fetches: seq<Fetch>, prefix: string, token: string, page: ListPage, later: seq<string>, truncated: bool)
    requires fetches != [] && page.truncated && GoodPage(fetches[0].objects, prefix, token, page)
    requires page.next != "" && Returned(fetches[1..], prefix, page.next, later, !truncated)
    ensures Returned(fetches, prefix, token, KeysOf(page.items) + later, !truncated)
  {
    var first := KeysOf(page.items);
    assert page.next in first;
    forall k | k in later ensures Beyond(token, k) && Less(page.next, k) && HasPrefix(k, prefix) {
      if token != "" { LessTransitive(token, page.next, k); }
    }
    Concatenated(first, later, page.next);
    if !truncated {
      forall k | StoredThroughout(fetches, k) && HasPrefix(k, prefix) && Beyond(token, k)
        ensures k in first + later
      {
        assert k in fetches[0].objects;
        if k !in first {
          StoredLater(fetches, k);
        }
      }
    }
  }

  lemma StoredLater(fetches: seq<Fetch>, key: string)
    requires fetches != [] && StoredThroughout(fetches, key)
    ensures StoredThroughout(fetches[1..], key)
  {
    forall i | 0 <= i < |fetches[1..]| ensures key in fetches[1..][i].objects {
      assert fetches[1..][i] == fetches[i + 1];
    }
  }

  lemma Concatenated(first: seq<string>, later: seq<string>, next: string)
    requires Ascending(first) && Ascending(later) && first != [] && next == first[|first| - 1]
    requires forall k :: k in later ==> Less(next, k)
    ensures Ascending(first + later)
  {
    var ks := first + later;
    forall i, j | 0 <= i < j < |ks| ensures Less(ks[i], ks[j]) {
      if i < |first| <= j {
        assert ks[j] in later;
        if i < |first| - 1 { LessTransitive(ks[i], next, ks[j]); }
      }
    }
  }

  ghost predicate ExactlyOnce(k: string, ks: seq<string>) {
    exists i :: 0 <= i < |ks| && ks[i] == k && forall j :: 0 <= j < |ks| && ks[j] == k ==> j == i
  }

  lemma OnceWhenAscending(k: string, ks: seq<string>)
    requires Ascending(ks) && k in ks
    ensures ExactlyOnce(k, ks)
  {
    var i :| 0 <= i < |ks| && ks[i] == k;
    forall j | 0 <= j < |ks| && ks[j] == k ensures j == i {
      AscendingDistinct(ks, i, j);
    }
  }

  /** However the store is changed between pages, a token walk that finds each token key still stored
      returns strictly increasing keys, and once the last page is reached every matching key that
      was stored at all page requests has been returned, at exactly one position. */
  lemma WalkUnderChange(fetches: seq<Fetch>, prefix: string)
    requires fetches != [] && TokenWalk(fetches, prefix, "")
    ensures var pages := Pages(fetches, prefix, "");
            && Ascending(KeysOfPages(pages))
            && (!pages[|pages| - 1].truncated ==>
                  forall k :: StoredThroughout(fetches, k) && HasPrefix(k, prefix) ==> ExactlyOnce(k, KeysOfPages(pages)))
  {
    WalkFrom(fetches, prefix, "");
    var pages := Pages(fetches, prefix, "");
    if !pages[|pages| - 1].truncated {
      forall k | StoredThroughout(fetches, k) && HasPrefix(k, prefix) ensures ExactlyOnce(k, KeysOfPages(pages)) {
        OnceWhenAscending(k, KeysOfPages(pages));
      }
    }
  }

  ghost predicate AllBeyond(token: string, ks: seq<string>) {
    forall k :: k in ks ==> Less(token, k)
  }

  /** A token that is no longer listed restarts the listing: the page has only keys beyond its token
      if and only if the token is still listed or no listed key precedes it. */
  lemma TokenHonouredIff(objects: map<string, Object>, prefix: string, max: int, token: string)
    requires token != ""
    ensures AllBeyond(token, KeysOf(PageOf(objects, prefix, max, token).items))
            <==> (token in Matching(objects, prefix) || AllBeyond(token, Matching(objects, prefix)))
  {
    var ks, page := Matching(objects, prefix), PageOf(objects, prefix, max, token);
    var start := StartIndex(ks, token);
    PageIsSlice(objects, prefix, max, token);
    if token in ks {
      PageLaw(objects, prefix, max, token);
    } else {
      RestartedPage(page, ks, token, EndIndex(ks, start, max));
    }
  }

  lemma RestartedPage(page: ListPage, ks: seq<string>, token: string, end: nat)
    requires Ascending(ks) && CutFrom(page, ks, 0, end)
    ensures AllBeyond(token, KeysOf(page.items)) <==> AllBeyond(token, ks)
  {
    var slice := ks[0..end];
    if ks != [] {
      assert slice[0] == ks[0] && slice[0] in slice;
      if Less(token, ks[0]) { FirstIsLeast(ks, token); }
      assert forall k :: k in slice ==> k in ks;
    }
  }

  lemma FirstIsLeast(all: seq<string>, token: string)
    requires Ascending(all) && all != [] && Less(token, all[0])
    ensures AllBeyond(token, all)
  {
    forall k | k in all ensures Less(token, k) {
      var i :| 0 <= i < |all| && all[i] == k;
      if i > 0 { LessTransitive(token, all[0], all[i]); }
    }
  }

  // ------------------------------------------------------------------ the store does not change

  // What List answers to each token while the store does not change.
  type Server = string -> ListPage

  ghost predicate Serves(list: Server, ks: seq<string>, size: int) {
    && size >= 1 && Ascending(ks) && "" !in ks
    && forall t :: ServesAt(list, ks, size, t)
  }

  ghost predicate ServesAt(list: Server, ks: seq<string>, size: int, token: string) {
    CutFrom(list(token), ks, StartIndex(ks, token), EndIndex(ks, StartIndex(ks, token), size))
  }

  lemma NextStart(page: ListPage, ks: seq<string>, start: nat, end: nat)
    requires Ascending(ks) && "" !in ks && CutFrom(page, ks, start, end)
    ensures page.truncated ==> page.next != "" && StartIndex(ks, page.next) == end
  {
    if page.truncated {
      assert page.next in ks;
      SliceEndFound(ks, end - 1);
    }
  }

  lemma SliceEndFound(ks: seq<string>, at: nat)
    requires Ascending(ks) && at < |ks|
    ensures AfterToken(ks, ks[at]) == at + 1
  {
    AfterTokenSplits(ks, ks[at]);
    AscendingDistinct(ks, AfterToken(ks, ks[at]) - 1, at);
  }

  // How many keys the token leaves.
  ghost function Remaining(ks: seq<string>, token: string): nat {
    |ks| - StartIndex(ks, token)
  }

  /** Following tokens to the end; the number of keys still to come shows that it ends. */
  function Walk(list: Server, ghost ks: seq<string>, ghost size: int, token: string): (pages: seq<ListPage>)
    requires Serves(list, ks, size)
    ensures |pages| >= 1
    decreases Remaining(ks, token)
  {
    var page := list(token);
    assert ServesAt(list, ks, size, token);
    NextStart(page, ks, StartIndex(ks, token), EndIndex(ks, StartIndex(ks, token), size));
    if page.truncated then [page] + Walk(list, ks, size, page.next) else [page]
  }

  // The number of pages of the given size that n keys fill, by counting.
  function PageCount(n: nat, size: int): nat
    requires size >= 1
  {
    if n <= size then 1 else 1 + PageCount(n - size, size)
  }

  // The pages hold exactly the keys ks, there are count of them, and the last says so.
  ghost predicate Complete(pages: seq<ListPage>, ks: seq<string>, count: nat) {
    KeysOfPages(pages) == ks && |pages| == count && pages != [] && !pages[|pages| - 1].truncated
  }

  lemma CompleteOne(page: ListPage)
    requires !page.truncated
    ensures Complete([page], KeysOf(page.items), 1)
  {
    assert [page][1..] == [];
    assert KeysOf(page.items) + [] == KeysOf(page.items);
  }

  lemma CompleteCons(page: ListPage, rest: seq<ListPage>, ks: seq<string>, i: nat, j: nat, count: nat)
    requires i <= j <= |ks| && KeysOf(page.items) == ks[i..j] && Complete(rest, ks[j..], count)
    ensures Complete([page] + rest, ks[i..], count + 1)
  {
    assert ([page] + rest)[1..] == rest;
    assert ks[i..j] + ks[j..] == ks[i..];
  }

  lemma {:induction false} WalkCovers(list: Server, ks: seq<string>, size: int, token: string)
    requires Serves(list, ks, size)
    ensures Complete(Walk(list, ks, size, token), ks[StartIndex(ks, token)..], PageCount(Remaining(ks, token), size))
    decreases Remaining(ks, token)
  {
    hide StartIndex, EndIndex, CutFrom, ServesAt, Complete;
    var page, start := list(token), StartIndex(ks, token);
    PageStep(list, ks, size, token);
    if page.truncated {
      WalkCovers(list, ks, size, page.next);
      CoverStep(page, Walk(list, ks, size, page.next), ks, start, size);
    } else {
      CompleteOne(page);
    }
  }

  lemma PageStep(list: Server, ks: seq<string>, size: int, token: string)
    requires Serves(list, ks, size)
    ensures var page, start := list(token), StartIndex(ks, token);
            if page.truncated
            then start + size < |ks| && StartIndex(ks, page.next) == start + size && KeysOf(page.items) == ks[start..start + size]
            else |ks| - start <= size && KeysOf(page.items) == ks[start..]
  {
    var page, start := list(token), StartIndex(ks, token);
    var end := EndIndex(ks, start, size);
    assert ServesAt(list, ks, size, token);
    NextStart(page, ks, start, end);
    assert ks[start..|ks|] == ks[start..];
  }

  lemma CoverStep(page: ListPage, rest: seq<ListPage>, ks: seq<string>, start: nat, size: int)
    requires size >= 1 && start + size < |ks| && KeysOf(page.items) == ks[start..start + size]
    requires Complete(rest, ks[start + size..], PageCount(|ks| - (start + size), size))
    ensures Complete([page] + rest, ks[start..], PageCount(|ks| - start, size))
  {
    CompleteCons(page, rest, ks, start, start + size, PageCount(|ks| - (start + size), size));
    assert |ks| - start - size == |ks| - (start + size);
  }

  lemma CeilingStep(n: nat, size: int)
    requires size >= 1 && n > 0
    ensures (n + size + size - 1) / size == (n + size - 1) / size + 1
  {
    var x := n + size - 1;
    var q, r := x / size, x % size;
    assert x == q * size + r;
    assert (q + 1) * size == q * size + size;
    QuotientOf(x + size, size, q + 1, r);
  }

  /** PageCount is max(1, ceil(n / size)). */
  lemma {:induction false} PageCountIsCeiling(n: nat, size: int)
    requires size >= 1
    ensures PageCount(n, size) == if n == 0 then 1 else (n + size - 1) / size
  {
    if n > size {
      PageCountIsCeiling(n - size, size);
      CeilingStep(n - size, size);
    } else if n > 0 {
      QuotientOf(n + size - 1, size, 1, n - 1);
    }
  }

  // Store.List over a store that does not change.
  function Lister(objects: map<string, Object>, prefix: string, maxKeys: int): Server {
    token => PageOf(objects, prefix, PageSize(maxKeys), token)
  }

  lemma ListerServes(objects: map<string, Object>, prefix: string, maxKeys: int)
    requires "" !in objects
    ensures Serves(Lister(objects, prefix, maxKeys), Matching(objects, prefix), PageSize(maxKeys))
  {
    forall t ensures ServesAt(Lister(objects, prefix, maxKeys), Matching(objects, prefix), PageSize(maxKeys), t) {
      PageIsSlice(objects, prefix, PageSize(maxKeys), t);
    }
  }

  // The matching keys that a listed token leaves.
  ghost function Left(objects: map<string, Object>, prefix: string, token: string): set<string> {
    set k | k in objects && HasPrefix(k, prefix) && Beyond(token, k)
  }

  lemma LeftIsSuffix(objects: map<string, Object>, prefix: string, token: string)
    requires token != "" ==> token in objects && HasPrefix(token, prefix)
    ensures var ks := Matching(objects, prefix); |Left(objects, prefix, token)| == |ks| - StartIndex(ks, token)
  {
    hide Matching, StartIndex, Beyond, HasPrefix, Less;
    var ks := Matching(objects, prefix);
    var start := StartIndex(ks, token);
    StartSplits(ks, token);
    SliceFacts(ks, token, start, |ks|);
    SliceMissesNone(ks, token, start, |ks|);
    SortedUnique(ks[start..], Left(objects, prefix, token));
  }

  /** A page of Store.List holds as many of the keys left as the requested size has room for, 1000 when that
      is not 1 to 1000, each described as it is stored, and says whether any are left out. */
  lemma PageFills(objects: map<string, Object>, prefix: string, maxKeys: int, token: string)
    requires token != "" ==> token in objects && HasPrefix(token, prefix)
    ensures var page := Lister(objects, prefix, maxKeys)(token);
            var size, left := if 1 <= maxKeys <= 1000 then maxKeys else 1000, |Left(objects, prefix, token)|;
            && |page.items| == (if left <= size then left else size)
            && (page.truncated <==> left > size)
            && forall i :: 0 <= i < |page.items| ==>
                 page.items[i].key in objects && page.items[i] == InfoOf(page.items[i].key, objects[page.items[i].key])
  {
    hide Less, Beyond, HasPrefix, Matching, StartIndex, Left, Infos;
    LeftIsSuffix(objects, prefix, token);
    var ks := Matching(objects, prefix);
    var start := StartIndex(ks, token);
    assert PageOf(objects, prefix, PageSize(maxKeys), token) == PageSlice(objects, ks, start, EndIndex(ks, start, PageSize(maxKeys)));
  }

  /** On an unchanged store with n matching keys, following tokens through Store.List ends after
      exactly PageCount(n, page size) pages, whose items are the sorted list of matching keys. */
  lemma WalkOfFixedStore(objects: map<string, Object>, prefix: string, maxKeys: int)
    requires "" !in objects
    ensures var list, ks, size := Lister(objects, prefix, maxKeys), Matching(objects, prefix), PageSize(maxKeys);
            && Serves(list, ks, size)
            && Complete(Walk(list, ks, size, ""), ks, PageCount(|ks|, size))
  {
    ListerServes(objects, prefix, maxKeys);
    var list, ks, size := Lister(objects, prefix, maxKeys), Matching(objects, prefix), PageSize(maxKeys);
    WalkCovers(list, ks, size, "");
    assert ks[0..] == ks;
  }
}
