/** Staged parts: the in-place sort and listing of pkg/ossx/inmemory.go and the checks that
    pkg/ossx/multipart.go makes before completing. */
module Parts {
  import opened Wrappers
  import opened Errors
  import opened Digests
  import opened Memory

  // ------------------------------------------------------------------ sortParts

  ghost predicate SortedByNumber(parts: seq<PartETag>) {
    forall i, j :: 0 <= i < j < |parts| ==> parts[i].partNumber <= parts[j].partNumber
  }

  /** The nested loops of sortParts, swapping neighbours in place. */
  method SortParts(parts: array<PartETag>)
    modifies parts
    ensures SortedByNumber(parts[..])
    ensures multiset(parts[..]) == multiset(old(parts[..]))
  {
    var i := 1;
    while i < parts.Length
      invariant 1 <= i
      invariant forall x, y :: 0 <= x < y < i && y < parts.Length ==> parts[x].partNumber <= parts[y].partNumber
      invariant multiset(parts[..]) == multiset(old(parts[..]))
    {
      var j := i;
      // Sorted up to position i, except that the element at j may still have to move down.
      while j > 0 && parts[j - 1].partNumber > parts[j].partNumber
        invariant 0 <= j <= i
        invariant forall x, y :: 0 <= x < y <= i && y != j ==> parts[x].partNumber <= parts[y].partNumber
        invariant multiset(parts[..]) == multiset(old(parts[..]))
      {
        SwapNeighbours(parts, j);
        j := j - 1;
      }
      i := i + 1;
    }
  }

  method SwapNeighbours(parts: array<PartETag>, j: int)
    requires 0 < j < parts.Length
    modifies parts
    ensures parts[j] == old(parts[j - 1]) && parts[j - 1] == old(parts[j])
    ensures forall x :: 0 <= x < parts.Length && x != j && x != j - 1 ==> parts[x] == old(parts[x])
    ensures multiset(parts[..]) == multiset(old(parts[..]))
  {
    parts[j - 1], parts[j] := parts[j], parts[j - 1];
  }

  // ------------------------------------------------------------------ listing

  /** Every part is filed under its own number. */
  ghost predicate Filed(parts: map<int, PartETag>) {
    forall k :: k in parts ==> parts[k].partNumber == k
  }

  ghost predicate Increasing(r: seq<PartETag>) {
    forall i, j :: 0 <= i < j < |r| ==> r[i].partNumber < r[j].partNumber
  }

  ghost predicate ListingOf(r: seq<PartETag>, parts: map<int, PartETag>) {
    && Increasing(r)
    && (forall i :: 0 <= i < |r| ==> r[i].partNumber in parts && r[i] == parts[r[i].partNumber])
    && (forall k :: k in parts ==> parts[k] in r)
  }

  lemma {:induction false} OrderedPartsLaw(parts: map<int, PartETag>)
    requires Filed(parts)
    ensures ListingOf(OrderedParts(parts), parts)
    decreases |parts|
  {
    hide ListingOf;
    if parts == map[] {
      EmptyIsListing();
    } else {
      var k := LeastInt(parts.Keys);
      assert |parts.Keys - {k}| == |parts.Keys| - 1;
      assert (parts - {k}).Keys == parts.Keys - {k};
      OrderedPartsLaw(parts - {k});
      LeastFirst(k, OrderedParts(parts - {k}), parts);
    }
  }

  lemma EmptyIsListing()
    ensures ListingOf([], map[])
  {
  }

  lemma LeastFirst(k: int, q: seq<PartETag>, parts: map<int, PartETag>)
    requires Filed(parts) && k in parts && (forall m :: m in parts ==> k <= m) && ListingOf(q, parts - {k})
    ensures ListingOf([parts[k]] + q, parts)
  {
    var r, rest := [parts[k]] + q, parts - {k};
    forall i | 0 <= i < |r| ensures r[i].partNumber in parts && r[i] == parts[r[i].partNumber] {
      if i > 0 { assert r[i] == q[i - 1]; }
    }
    forall i, j | 0 <= i < j < |r| ensures r[i].partNumber < r[j].partNumber {
      assert r[j] == q[j - 1] && r[j].partNumber in rest;
      if i > 0 { assert r[i] == q[i - 1]; }
    }
    forall m | m in parts ensures parts[m] in r {
      if m == k { assert r[0] == parts[k]; } else { assert m in rest && parts[m] in q; }
    }
  }

  lemma {:induction false} ListingUnique(r: seq<PartETag>, q: seq<PartETag>, parts: map<int, PartETag>)
    requires Filed(parts) && ListingOf(r, parts) && ListingOf(q, parts)
    ensures r == q
    decreases |r|
  {
    EmptyListing(r, parts);
    EmptyListing(q, parts);
    if r != [] {
      HeadIsLeast(r, parts);
      HeadIsLeast(q, parts);
      assert r[0] == q[0];
      Tail(r, parts);
      Tail(q, parts);
      ListingUnique(r[1..], q[1..], parts - {r[0].partNumber});
      assert r == [r[0]] + r[1..] && q == [q[0]] + q[1..];
    }
  }

  lemma EmptyListing(r: seq<PartETag>, parts: map<int, PartETag>)
    requires ListingOf(r, parts)
    ensures r == [] <==> forall k :: k !in parts
  {
    forall k | k in parts ensures r != [] {
      assert parts[k] in r;
    }
    if r != [] {
      assert r[0].partNumber in parts;
    }
  }

  lemma HeadIsLeast(r: seq<PartETag>, parts: map<int, PartETag>)
    requires r != [] && Filed(parts) && ListingOf(r, parts)
    ensures r[0].partNumber in parts && forall k :: k in parts ==> r[0].partNumber <= k
  {
    forall k | k in parts ensures r[0].partNumber <= k {
      assert parts[k] in r;
      var i :| 0 <= i < |r| && r[i] == parts[k];
    }
  }

  lemma Tail(r: seq<PartETag>, parts: map<int, PartETag>)
    requires r != [] && Filed(parts) && ListingOf(r, parts)
    ensures Filed(parts - {r[0].partNumber}) && ListingOf(r[1..], parts - {r[0].partNumber})
  {
    forall k | k in parts - {r[0].partNumber} ensures parts[k] in r[1..] {
      var i :| 0 <= i < |r| && r[i] == parts[k];
      assert r[1..][i - 1] == parts[k];
    }
  }

  /** ListParts of the adapter: whatever order the map is iterated in, the sorted result is the one
      ascending listing of the staged parts. */
  method CollectParts(parts: map<int, PartETag>) returns (r: seq<PartETag>)
    requires Filed(parts)
    ensures r == OrderedParts(parts)
  {
    var collected: seq<PartETag> := [];
    var left := parts.Keys;
    while left != {}
      invariant left <= parts.Keys
      invariant forall k :: k in parts && k !in left ==> multiset(collected)[parts[k]] == 1
      invariant forall p :: p in collected ==> p.partNumber in parts && p.partNumber !in left && p == parts[p.partNumber]
      decreases |left|
    {
      var k := PickInt(left);
      assert parts[k] !in collected;
      collected := collected + [parts[k]];
      left := left - {k};
    }
    var a := new PartETag[|collected|](i requires 0 <= i < |collected| => collected[i]);
    assert a[..] == collected;
    SortParts(a);
    r := a[..];
    SortedIsListing(r, collected, parts);
    OrderedPartsLaw(parts);
    ListingUnique(r, OrderedParts(parts), parts);
  }

  // Some key of a non-empty key set: the next one in an unspecified iteration order.
  method PickInt(s: set<int>) returns (k: int)
    requires s != {}
    ensures k in s
  {
    AnIntExists(s);
    k :| k in s;
  }

  lemma AnIntExists(s: set<int>)
    requires s != {}
    ensures exists k :: k in s
  {
    var k := AnElement(s);
  }

  lemma SortedIsListing(r: seq<PartETag>, collected: seq<PartETag>, parts: map<int, PartETag>)
    requires SortedByNumber(r) && multiset(r) == multiset(collected)
    requires forall k :: k in parts ==> multiset(collected)[parts[k]] == 1
    requires forall p :: p in collected ==> p.partNumber in parts && p == parts[p.partNumber]
    ensures ListingOf(r, parts)
  {
    forall i | 0 <= i < |r| ensures r[i].partNumber in parts && r[i] == parts[r[i].partNumber] {
      assert r[i] in multiset(r) && r[i] in collected;
    }
    forall i, j | 0 <= i < j < |r| ensures r[i].partNumber < r[j].partNumber {
      CountTwice(r, i, j);
      assert r[i] in multiset(r) && r[j] in multiset(r);
      assert multiset(r)[parts[r[i].partNumber]] == 1;
    }
    forall k | k in parts ensures parts[k] in r {
      assert parts[k] in multiset(r);
    }
  }

  lemma CountTwice<T>(s: seq<T>, i: int, j: int)
    requires 0 <= i < j < |s|
    ensures s[i] == s[j] ==> multiset(s)[s[i]] >= 2
  {
    assert s == s[..j] + [s[j]] + s[j + 1..];
    assert s[..j][i] == s[i] && s[i] in s[..j];
    assert multiset(s) == multiset(s[..j]) + multiset([s[j]]) + multiset(s[j + 1..]);
    assert multiset([s[j]])[s[j]] == 1;
  }

  // ------------------------------------------------------------------ what Complete checks

  const NO_PARTS := NewError(Validation, "Complete", "no parts provided")
  const NOT_CONTIGUOUS := NewError(Validation, "Complete", "part numbers must be contiguous starting at 1")
  const MISSING_ETAG := NewError(Validation, "Complete", "part missing ETag")
  const TOO_MANY_PARTS := NewError(Validation, "Complete", "part count exceeds MaxParts")

  // The first offending entry from position i decides.
  function EntryError(parts: seq<PartETag>, i: nat): Option<GoError>
    requires i <= |parts|
    decreases |parts| - i
  {
    if i == |parts| then None
    else if parts[i].partNumber != i + 1 then Some(NOT_CONTIGUOUS)
    else if parts[i].etag == "" then Some(MISSING_ETAG)
    else EntryError(parts, i + 1)
  }

  function PartsError(parts: seq<PartETag>, maxParts: int): Option<GoError> {
    if |parts| == 0 then Some(NO_PARTS)
    else if EntryError(parts, 0).Some? then EntryError(parts, 0)
    else if maxParts > 0 && |parts| > maxParts then Some(TOO_MANY_PARTS)
    else None
  }

  /** The part list is the full ordered set 1..n with tags. */
  ghost predicate FullOrderedSet(parts: seq<PartETag>, maxParts: int) {
    && 1 <= |parts| && (maxParts > 0 ==> |parts| <= maxParts)
    && forall i :: 0 <= i < |parts| ==> parts[i].partNumber == i + 1 && parts[i].etag != ""
  }

  lemma {:induction false} EntryErrorIff(parts: seq<PartETag>, i: nat)
    requires i <= |parts|
    ensures EntryError(parts, i).None? <==> forall k :: i <= k < |parts| ==> parts[k].partNumber == k + 1 && parts[k].etag != ""
    decreases |parts| - i
  {
    if i < |parts| { EntryErrorIff(parts, i + 1); }
  }

  lemma PartsAcceptedIff(parts: seq<PartETag>, maxParts: int)
    ensures PartsError(parts, maxParts).None? <==> FullOrderedSet(parts, maxParts)
  {
    EntryErrorIff(parts, 0);
  }

  // The entry at i offends, and those before it do not.
  ghost predicate FirstOffence(parts: seq<PartETag>, i: nat, e: GoError) {
    && i < |parts| && (parts[i].partNumber != i + 1 || parts[i].etag == "")
    && (forall k :: 0 <= k < i ==> parts[k].partNumber == k + 1 && parts[k].etag != "")
    && e == NewError(Validation, "Complete",
                     if parts[i].partNumber != i + 1 then "part numbers must be contiguous starting at 1" else "part missing ETag")
  }

  lemma {:induction false} OffenceFound(parts: seq<PartETag>, i: nat) returns (j: nat)
    requires i <= |parts| && EntryError(parts, i).Some?
    requires forall k :: 0 <= k < i ==> parts[k].partNumber == k + 1 && parts[k].etag != ""
    ensures FirstOffence(parts, j, EntryError(parts, i).value)
    decreases |parts| - i
  {
    if parts[i].partNumber != i + 1 || parts[i].etag == "" { j := i; } else { j := OffenceFound(parts, i + 1); }
  }

  /** Complete refuses a part list for being empty, else for its first entry with a wrong number or without a
      tag, else for being longer than MaxParts. */
  lemma PartsRefused(parts: seq<PartETag>, maxParts: int)
    requires PartsError(parts, maxParts).Some?
    ensures var e := PartsError(parts, maxParts).value;
            if parts == [] then e == NewError(Validation, "Complete", "no parts provided")
            else (exists i: nat :: FirstOffence(parts, i, e))
                 || (FullOrderedSet(parts, 0) && 0 < maxParts < |parts|
                     && e == NewError(Validation, "Complete", "part count exceeds MaxParts"))
  {
    EntryErrorIff(parts, 0);
    if parts != [] && EntryError(parts, 0).Some? { var j := OffenceFound(parts, 0); }
  }

  method ValidateParts(parts: seq<PartETag>, maxParts: int) returns (err: Option<GoError>)
    ensures err == PartsError(parts, maxParts)
  {
    if |parts| == 0 {
      return Some(NO_PARTS);
    }
    for i := 0 to |parts|
      invariant EntryError(parts, 0) == EntryError(parts, i)
    {
      if parts[i].partNumber != i + 1 {
        return Some(NOT_CONTIGUOUS);
      }
      if parts[i].etag == "" {
        return Some(MISSING_ETAG);
      }
    }
    if maxParts > 0 && |parts| > maxParts {
      return Some(TOO_MANY_PARTS);
    }
    return None;
  }

  // ------------------------------------------------------------------ a full table

  ghost predicate UpTo(parts: map<int, PartETag>, n: nat) {
    forall k :: k in parts <==> 1 <= k <= n
  }

  lemma {:induction false} ContiguousListing(r: seq<PartETag>, parts: map<int, PartETag>, n: nat)
    requires Filed(parts) && ListingOf(r, parts) && UpTo(parts, n)
    ensures |r| == n && forall i :: 0 <= i < n ==> i + 1 in parts && r[i] == parts[i + 1]
    decreases n
  {
    EmptyListing(r, parts);
    if n > 0 {
      assert n in parts;
      LastIsGreatest(r, parts, n);
      var front, smaller := r[..|r| - 1], parts - {n};
      AllButLast(r, parts, n);
      assert UpTo(smaller, n - 1);
      ContiguousListing(front, smaller, n - 1);
      forall i | 0 <= i < n ensures i + 1 in parts && r[i] == parts[i + 1] {
        if i < n - 1 { assert r[i] == front[i] && smaller[i + 1] == parts[i + 1]; }
      }
    }
  }

  lemma LastIsGreatest(r: seq<PartETag>, parts: map<int, PartETag>, n: int)
    requires Filed(parts) && ListingOf(r, parts) && n in parts && forall k :: k in parts ==> k <= n
    ensures r != [] && r[|r| - 1] == parts[n]
  {
    assert parts[n] in r;
    var i :| 0 <= i < |r| && r[i] == parts[n];
    assert r[|r| - 1].partNumber in parts;
  }

  lemma AllButLast(r: seq<PartETag>, parts: map<int, PartETag>, n: int)
    requires Filed(parts) && ListingOf(r, parts) && n in parts && r != [] && r[|r| - 1] == parts[n]
    ensures Filed(parts - {n}) && ListingOf(r[..|r| - 1], parts - {n})
  {
    var front, smaller := r[..|r| - 1], parts - {n};
    forall i | 0 <= i < |front| ensures front[i].partNumber in smaller && front[i] == smaller[front[i].partNumber] {
      assert front[i] == r[i];
    }
    forall k | k in smaller ensures smaller[k] in front {
      assert parts[k] in r;
      var j :| 0 <= j < |r| && r[j] == parts[k];
      assert front[j] == r[j];
    }
  }

  function SumOfSizes(parts: map<int, PartETag>, n: nat): int
    requires forall k :: 1 <= k <= n ==> k in parts
  {
    if n == 0 then 0 else SumOfSizes(parts, n - 1) + parts[n].size
  }

  lemma {:induction false} TotalOfListing(r: seq<PartETag>, parts: map<int, PartETag>)
    requires forall k :: 1 <= k <= |r| ==> k in parts && r[k - 1] == parts[k]
    ensures TotalSize(r) == SumOfSizes(parts, |r|)
    decreases |r|
  {
    if r != [] {
      TotalOfListing(r[..|r| - 1], parts);
    }
  }

  /** A table that holds exactly the parts 1..n, all with tags: ListParts gives exactly n parts in strictly
      ascending order, Complete accepts that list, and the size it reports is the sum of their sizes. */
  lemma FullTableCompletes(d: Digests, st: State, id: string, n: nat, maxParts: int, now: int)
    requires !st.closed && id in st.uploads && Filed(st.uploads[id].parts) && UpTo(st.uploads[id].parts, n)
    requires forall k :: k in st.uploads[id].parts ==> st.uploads[id].parts[k].etag != ""
    requires 1 <= n && (maxParts > 0 ==> n <= maxParts)
    ensures var table, listed := st.uploads[id].parts, ListParts(st, id);
            && listed.Ok? && |listed.value| == n && (forall i :: 0 <= i < n ==> listed.value[i] == table[i + 1])
            && PartsError(listed.value, maxParts).None?
            && CompleteMultipart(d, st, id, listed.value, now).1.Ok?
            && CompleteMultipart(d, st, id, listed.value, now).1.value.size == SumOfSizes(table, n)
  {
    hide OrderedParts, PartsError, ListingOf, SumOfSizes, TotalSize, MultipartETag;
    var table := st.uploads[id].parts;
    var r := OrderedParts(table);
    OrderedPartsLaw(table);
    ContiguousListing(r, table, n);
    PartsAcceptedIff(r, maxParts);
    TotalOfListing(r, table);
  }
}
