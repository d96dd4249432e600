/** The in-memory adapter of pkg/ossx/inmemory.go as the object it is: byte slices and maps live on the
    heap, so who shares them with whom can be stated. Each method implements the function of the same
    name in Memory. */
module InMemory {
  import opened Wrappers
  import opened Errors
  import opened Digests
  import opened Keys
  import opened Text
  import opened Memory
  import Parts

  // A Go map[string]string. A nil map is a null reference.
  class StringMap {
    var entries: map<string, string>

    constructor (entries: map<string, string>)
      ensures this.entries == entries
    {
      this.entries := entries;
    }
  }

  ghost function Value(m: StringMap?): Meta
    reads m
  {
    if m == null then None else Some(m.entries)
  }

  // copyStringMap
  method CopyStringMap(m: StringMap?) returns (out: StringMap?)
    ensures m == null <==> out == null
    ensures m != null ==> fresh(out) && out.entries == m.entries
  {
    if m == null {
      return null;
    }
    var copied := new StringMap(map[]);
    var left := m.entries.Keys;
    while left != {}
      invariant left <= m.entries.Keys
      invariant fresh(copied)
      invariant copied.entries == map k | k in m.entries && k !in left :: m.entries[k]
      decreases |left|
    {
      var k :| k in left;
      copied.entries := copied.entries[k := m.entries[k]];
      left := left - {k};
    }
    assert copied.entries == m.entries;
    return copied;
  }

  // append([]byte(nil), b...)
  method CopyBytes(b: array<byte>) returns (c: array<byte>)
    ensures fresh(c) && c[..] == b[..]
  {
    c := new byte[b.Length];
    forall i | 0 <= i < b.Length { c[i] := b[i]; }
    assert c[..] == b[..];
  }

  // The reader a caller passes in.
  class BodyReader {
    var episodes: Body

    // io.ReadAll
    method ReadAll() returns (data: array<byte>, failure: Option<GoError>)
      modifies this
      ensures var (read, rest) := Memory.ReadAll(old(episodes));
              data[..] == read.data && failure == read.failure && episodes == rest
      ensures fresh(data)
    {
      var (read, rest) := Memory.ReadAll(episodes);
      data := new byte[|read.data|](i requires 0 <= i < |read.data| => read.data[i]);
      assert data[..] == read.data;
      failure, episodes := read.failure, rest;
    }
  }

  datatype Options = Options(contentType: string, metadata: StringMap?, tags: StringMap?, algorithm: Algorithm)

  datatype StoredObject = StoredObject(body: array<byte>, contentType: string, metadata: StringMap?, tags: StringMap?,
                                       etag: string, checksum: string, createdAt: int)

  datatype StoredUpload = StoredUpload(key: string, opts: Options, parts: map<int, PartETag>, createdAt: int)

  // An ObjectInfo whose maps are references.
  type InfoRef = Info<StringMap?>

  ghost function OptionsValue(o: Options): PutOptions
    reads o.metadata, o.tags
  {
    PutOptions(o.contentType, Value(o.metadata), Value(o.tags), o.algorithm)
  }

  ghost function InfoValue(i: InfoRef): ObjectInfo
    reads MapsOf(i)
  {
    Info(i.key, i.size, i.contentType, Value(i.metadata), Value(i.tags), i.checksumAlgo, i.checksumHex, i.etag, i.createdAt)
  }

  ghost function ObjectValue(o: StoredObject): Object
    reads o.body, o.metadata, o.tags
  {
    Object(o.body[..], o.contentType, Value(o.metadata), Value(o.tags), o.etag, o.checksum, o.createdAt)
  }

  ghost function UploadValue(u: StoredUpload): Upload
    reads u.opts.metadata, u.opts.tags
  {
    Upload(u.key, OptionsValue(u.opts), u.parts, u.createdAt)
  }

  // The maps that an info hands to the caller.
  ghost function MapsOf(i: InfoRef): set<object> {
    (if i.metadata == null then {} else {i.metadata as object}) + (if i.tags == null then {} else {i.tags as object})
  }

  // Every reference that a stored object consists of is in repr.
  ghost predicate Owned(o: StoredObject, repr: set<object>) {
    o.body in repr && (o.metadata != null ==> o.metadata in repr) && (o.tags != null ==> o.tags in repr)
  }

  ghost predicate AllOwned(objects: map<string, StoredObject>, repr: set<object>) {
    forall k :: k in objects ==> Owned(objects[k], repr)
  }

  ghost function OptionMaps(o: Options): set<object> {
    (if o.metadata == null then {} else {o.metadata as object}) + (if o.tags == null then {} else {o.tags as object})
  }

  ghost function PartsOf(o: StoredObject): set<object> {
    {o.body as object} + (if o.metadata == null then {} else {o.metadata as object})
    + (if o.tags == null then {} else {o.tags as object})
  }

  ghost function ObjectValues(objects: map<string, StoredObject>, repr: set<object>): map<string, Object>
    requires AllOwned(objects, repr)
    reads repr
  {
    map k | k in objects :: ObjectValue(objects[k])
  }

  // Every map that an upload still refers to is in lent.
  ghost predicate AllLent(uploads: map<string, StoredUpload>, lent: set<object>) {
    forall id :: id in uploads ==>
      (uploads[id].opts.metadata != null ==> uploads[id].opts.metadata in lent)
      && (uploads[id].opts.tags != null ==> uploads[id].opts.tags in lent)
  }

  ghost function UploadValues(uploads: map<string, StoredUpload>, lent: set<object>): map<string, Upload>
    requires AllLent(uploads, lent)
    reads lent
  {
    map id | id in uploads :: UploadValue(uploads[id])
  }

  lemma ValueAt(objects: map<string, StoredObject>, repr: set<object>, key: string)
    requires AllOwned(objects, repr)
    ensures key in ObjectValues(objects, repr) <==> key in objects
    ensures key in objects ==> ObjectValues(objects, repr)[key] == ObjectValue(objects[key])
  {}

  lemma SameKeys(objects: map<string, StoredObject>, repr: set<object>)
    requires AllOwned(objects, repr)
    ensures forall k :: k in ObjectValues(objects, repr) <==> k in objects
  {}

  lemma UploadAt(uploads: map<string, StoredUpload>, lent: set<object>, id: string)
    requires AllLent(uploads, lent)
    ensures id in UploadValues(uploads, lent) <==> id in uploads
    ensures id in uploads ==> UploadValues(uploads, lent)[id] == UploadValue(uploads[id])
  {}

  lemma StoreOne(objects: map<string, StoredObject>, repr: set<object>, key: string, obj: StoredObject)
    requires AllOwned(objects, repr)
    ensures AllOwned(objects[key := obj], repr + PartsOf(obj))
    ensures ObjectValues(objects[key := obj], repr + PartsOf(obj)) == ObjectValues(objects, repr)[key := ObjectValue(obj)]
  {}

  lemma DropOne(objects: map<string, StoredObject>, repr: set<object>, key: string)
    requires AllOwned(objects, repr)
    ensures AllOwned(objects - {key}, repr)
    ensures ObjectValues(objects - {key}, repr) == ObjectValues(objects, repr) - {key}
  {}

  lemma StageOne(uploads: map<string, StoredUpload>, lent: set<object>, id: string, up: StoredUpload)
    requires AllLent(uploads, lent)
    ensures AllLent(uploads[id := up], lent + OptionMaps(up.opts))
    ensures UploadValues(uploads[id := up], lent + OptionMaps(up.opts)) == UploadValues(uploads, lent)[id := UploadValue(up)]
  {}

  lemma Restage(uploads: map<string, StoredUpload>, lent: set<object>, id: string, up: StoredUpload)
    requires AllLent(uploads, lent) && id in uploads && up.opts == uploads[id].opts
    ensures AllLent(uploads[id := up], lent)
    ensures UploadValues(uploads[id := up], lent) == UploadValues(uploads, lent)[id := UploadValue(up)]
  {}

  lemma ReleaseOne(uploads: map<string, StoredUpload>, lent: set<object>, id: string)
    requires AllLent(uploads, lent)
    ensures AllLent(uploads - {id}, lent)
    ensures UploadValues(uploads - {id}, lent) == UploadValues(uploads, lent) - {id}
  {}

  // An ObjectInfo with copies of the given maps.
  method Describe(info: InfoRef) returns (copied: InfoRef)
    ensures InfoValue(copied) == InfoValue(info) && fresh(MapsOf(copied))
  {
    var metadata := CopyStringMap(info.metadata);
    var tags := CopyStringMap(info.tags);
    copied := info.(metadata := metadata, tags := tags);
  }

  // A heap answer that stands for the given one.
  ghost predicate Answers(result: Result<InfoRef, GoError>, answer: Result<ObjectInfo, GoError>)
    reads if result.Ok? then MapsOf(result.value) else {}
  {
    match result
    case Ok(info) => answer == Ok(InfoValue(info))
    case Err(e) => answer == Err(e)
  }

  function InfoOfStored(key: string, obj: StoredObject): InfoRef
    reads obj.body
  {
    Info(key, obj.body.Length, obj.contentType, obj.metadata, obj.tags,
         InferAlgorithm(obj.checksum), obj.checksum, obj.etag, Some(obj.createdAt))
  }

  // The loop of CompleteMultipart over the submitted parts.
  method SumSizes(parts: seq<PartETag>) returns (total: int)
    ensures total == TotalSize(parts)
  {
    total := 0;
    for i := 0 to |parts|
      invariant total == TotalSize(parts[..i])
    {
      assert parts[..i + 1][..i] == parts[..i];
      total := total + parts[i].size;
    }
    assert parts[..|parts|] == parts;
  }

  ghost predicate DistinctKeys<M>(items: seq<Info<M>>) {
    forall i, j :: 0 <= i < j < |items| ==> items[i].key != items[j].key
  }

  ghost predicate AscendingKeys<M>(items: seq<Info<M>>) {
    forall i, j :: 0 <= i < j < |items| ==> Less(items[i].key, items[j].key)
  }

  ghost predicate InKeyOrder<M>(items: seq<Info<M>>) {
    forall i, j :: 0 <= i < j < |items| ==> !Less(items[j].key, items[i].key)
  }

  /** sortedObjectInfos: a sorted permutation of its argument. sort.Slice promises no order among equal
      keys; this insertion sort keeps the one they come in. */
  method SortedInfos<M(==)>(items: seq<Info<M>>) returns (out: seq<Info<M>>)
    ensures InKeyOrder(out) && multiset(out) == multiset(items)
    ensures DistinctKeys(items) ==> AscendingKeys(out)
    ensures forall x :: x in out <==> x in items
  {
    out := [];
    for n := 0 to |items|
      invariant InKeyOrder(out)
      invariant multiset(out) == multiset(items[..n])
    {
      assert items[..n + 1] == items[..n] + [items[n]];
      out := Insert(out, items[n]);
    }
    assert items[..|items|] == items;
    forall x ensures x in out <==> x in items {
      assert x in out <==> x in multiset(out);
      assert x in items <==> x in multiset(items);
    }
    if DistinctKeys(items) { StrictWhenDistinct(out, items); }
  }

  method Insert<M(==)>(sorted: seq<Info<M>>, x: Info<M>) returns (out: seq<Info<M>>)
    requires InKeyOrder(sorted)
    ensures InKeyOrder(out) && multiset(out) == multiset(sorted) + multiset{x}
  {
    var p := 0;
    while p < |sorted| && !Less(x.key, sorted[p].key)
      invariant 0 <= p <= |sorted|
      invariant forall i :: 0 <= i < p ==> !Less(x.key, sorted[i].key)
    {
      p := p + 1;
    }
    forall i | p <= i < |sorted| ensures !Less(sorted[i].key, x.key) {
      if Less(sorted[i].key, x.key) {
        LessTransitive(sorted[i].key, x.key, sorted[p].key);
        if p == i { LessIrreflexive(sorted[p].key); }
      }
    }
    out := sorted[..p] + [x] + sorted[p..];
    assert sorted == sorted[..p] + sorted[p..];
  }

  lemma StrictWhenDistinct<M>(out: seq<Info<M>>, items: seq<Info<M>>)
    requires InKeyOrder(out) && multiset(out) == multiset(items) && DistinctKeys(items)
    ensures AscendingKeys(out)
  {
    forall i, j | 0 <= i < j < |out| ensures Less(out[i].key, out[j].key) {
      assert out[i] in multiset(out) && out[j] in multiset(out);
      var k :| 0 <= k < |items| && items[k] == out[i];
      var l :| 0 <= l < |items| && items[l] == out[j];
      LessTotal(out[i].key, out[j].key);
      if out[i].key == out[j].key {
        assert k == l;
        Parts.CountTwice(out, i, j);
        OnceOnly(items, k);
      }
    }
  }

  lemma OnceOnly<M>(items: seq<Info<M>>, k: int)
    requires DistinctKeys(items) && 0 <= k < |items|
    ensures multiset(items)[items[k]] == 1
  {
    assert items == items[..k] + [items[k]] + items[k + 1..];
    assert items[k] !in items[..k] && items[k] !in items[k + 1..];
  }

  // The loop of ListObjects that looks for the token.
  method FindStart<M>(items: seq<Info<M>>, token: string) returns (start: nat)
    requires AscendingKeys(items)
    ensures start == StartIndex(KeysIn(items), token)
  {
    if token != "" {
      for i := 0 to |items|
        invariant forall j :: 0 <= j < i ==> items[j].key != token
      {
        if items[i].key == token {
          AfterTokenIs(KeysIn(items), token, i + 1);
          return i + 1;
        }
      }
      AfterTokenIs(KeysIn(items), token, 0);
    }
    return 0;
  }

  ghost function KeysIn<M>(items: seq<Info<M>>): (ks: seq<string>)
    ensures |ks| == |items| && forall i :: 0 <= i < |ks| ==> ks[i] == items[i].key
  {
    seq(|items|, i requires 0 <= i < |items| => items[i].key)
  }

  lemma AfterTokenIs(ks: seq<string>, token: string, i: nat)
    requires Ascending(ks) && i <= |ks|
    requires if i == 0 then token !in ks else ks[i - 1] == token
    ensures AfterToken(ks, token) == i
  {
    var j := AfterToken(ks, token);
    if i > 0 && j > 0 { AscendingDistinct(ks, i - 1, j - 1); }
  }

  lemma KeysMatch<M>(gathered: seq<Info<M>>, all: seq<Info<M>>, objects: map<string, Object>, prefix: string)
    requires AscendingKeys(all) && forall x :: x in all <==> x in gathered
    requires forall k :: (k in objects && HasPrefix(k, prefix)) <==> (exists i :: 0 <= i < |gathered| && gathered[i].key == k)
    ensures KeysIn(all) == Matching(objects, prefix)
  {
    hide HasPrefix;
    var ks, s := KeysIn(all), set k | k in objects && HasPrefix(k, prefix);
    forall k ensures k in ks <==> k in s {
      if k in ks {
        var i :| 0 <= i < |ks| && ks[i] == k;
        assert all[i] in gathered;
      }
      if k in s {
        var i :| 0 <= i < |gathered| && gathered[i].key == k;
        assert gathered[i] in all;
        var j :| 0 <= j < |all| && all[j] == gathered[i];
        assert ks[j] == k;
      }
    }
    SortedUnique(ks, s);
  }

  ghost predicate CutOf<M>(all: seq<Info<M>>, max: int, token: string, page: Page<M>) {
    var start := StartIndex(KeysIn(all), token);
    var end := EndIndex(KeysIn(all), start, max);
    && page.items == all[start..end]
    && page.truncated == (end < |all|)
    && page.next == if end < |all| then all[end - 1].key else ""
  }

  // ListObjects after sorting: from the token on, max items.
  method CutPage<M>(all: seq<Info<M>>, max: int, token: string) returns (page: Page<M>)
    requires AscendingKeys(all)
    ensures CutOf(all, max, token, page)
    ensures forall x :: x in page.items ==> x in all
  {
    hide StartIndex;
    var start := FindStart(all, token);
    var size := if max <= 0 then 1000 else max;
    var end, next, truncated := start + size, "", false;
    if end < |all| {
      next, truncated := all[end - 1].key, true;
    } else {
      end := |all|;
    }
    page := Page(all[start..end], next, truncated);
  }

  // A page of heap infos that stands for the given one.
  ghost predicate PageStands(page: Page<StringMap?>, value: ListPage)
    reads set i, o | 0 <= i < |page.items| && o in MapsOf(page.items[i]) :: o
  {
    && |page.items| == |value.items| && page.next == value.next && page.truncated == value.truncated
    && forall i :: 0 <= i < |page.items| ==> InfoValue(page.items[i]) == value.items[i]
  }

  class InMemoryAdapter {
    const digests: Digests
    var objects: map<string, StoredObject>
    var uploads: map<string, StoredUpload>
    var closed: bool
    var issued: nat
    // Every slice and map that a stored object consists of.
    ghost var Repr: set<object>
    // Every map that callers handed to InitiateMultipart and may still change.
    ghost var Lent: set<object>

    ghost predicate Valid()
      reads this
    {
      && this !in Repr && this !in Lent && Repr !! Lent
      && AllOwned(objects, Repr) && AllLent(uploads, Lent)
      && forall id :: id in uploads ==> Parts.Filed(uploads[id].parts)
    }

    ghost function Contents(): Memory.State
      requires Valid()
      reads this, Repr, Lent
    {
      Memory.State.State(ObjectValues(objects, Repr), UploadValues(uploads, Lent), closed, issued)
    }

    // NewInMemoryAdapter
    constructor (digests: Digests)
      ensures Valid() && Contents() == EMPTY && Repr == {} && Lent == {}
      ensures this.digests == digests
    {
      this.digests := digests;
      objects, uploads, closed, issued, Repr, Lent := map[], map[], false, 0, {}, {};
    }

    // a.objects[key] = inMemoryObject{...}: the maps are copied, the body is kept.
    method Keep(key: string, obj: StoredObject)
      requires Valid() && obj.body !in Repr + Lent
      modifies this`objects, this`Repr
      ensures Valid() && old(Repr) <= Repr && fresh(Repr - old(Repr) - {obj.body})
      ensures Contents() == old(Contents().(objects := Contents().objects[key := ObjectValue(obj)]))
    {
      hide ObjectValues, UploadValues;
      ghost var was, given := Contents(), ObjectValue(obj);
      var metadata := CopyStringMap(obj.metadata);
      var tags := CopyStringMap(obj.tags);
      var kept := obj.(metadata := metadata, tags := tags);
      assert Contents() == was && ObjectValue(kept) == given;
      StoreOne(objects, Repr, key, kept);
      objects, Repr := objects[key := kept], Repr + PartsOf(kept);
      assert ObjectValues(objects, Repr) == was.objects[key := given];
      assert UploadValues(uploads, Lent) == was.uploads;
    }

    // Keep, and the ObjectInfo of what was kept, with maps of its own.
    method KeepAndDescribe(key: string, obj: StoredObject) returns (info: InfoRef)
      requires Valid() && obj.body !in Repr + Lent
      modifies this`objects, this`Repr
      ensures Valid() && old(Repr) <= Repr && fresh(Repr - old(Repr) - {obj.body})
      ensures Contents() == old(Contents().(objects := Contents().objects[key := ObjectValue(obj)]))
      ensures InfoValue(info) == InfoOf(key, old(ObjectValue(obj)))
      ensures fresh(MapsOf(info)) && MapsOf(info) !! Repr + Lent
    {
      hide ObjectValues, UploadValues, InferAlgorithm, Parts.Filed;
      Keep(key, obj);
      info := Describe(InfoOfStored(key, obj));
    }

    /** The stored copy shares nothing with the reader's data, the caller's maps or the returned info. */
    method PutObject(key: string, body: BodyReader, opts: Options, now: int) returns (result: Result<InfoRef, GoError>)
      requires Valid() && body !in Repr + Lent
      modifies this`objects, this`Repr, body
      ensures Valid() && old(Repr) <= Repr && fresh(Repr - old(Repr))
      ensures var (state, rest, answer) := Memory.PutObject(digests, old(Contents()), key, old(body.episodes), old(OptionsValue(opts)), now);
              Contents() == state && body.episodes == rest && Answers(result, answer)
      ensures result.Ok? ==> fresh(MapsOf(result.value)) && MapsOf(result.value) !! Repr + Lent
    {
      hide ComputeChecksum, ObjectETag, Memory.ReadAll, WrapError, InferAlgorithm, ObjectValues, UploadValues;
      ghost var was := Contents();
      if closed {
        return Err(ErrClosed);
      }
      var data, failure := body.ReadAll();
      assert Contents() == was;
      if failure.Some? {
        return Err(WrapError(Unavailable, "PutObject", "read body", failure));
      }
      var checksum := ComputeChecksum(digests, opts.algorithm, data[..]);
      var etag := ObjectETag(digests, data[..]);
      var obj := StoredObject(data, opts.contentType, opts.metadata, opts.tags, etag, checksum, now);
      Keep(key, obj);
      var info := Describe(Info(key, data.Length, opts.contentType, opts.metadata, opts.tags, opts.algorithm, checksum, etag, Some(now)));
      return Ok(info);
    }

    /** The body and the maps are the caller's own copies. */
    method GetObject(key: string) returns (result: Result<(array<byte>, InfoRef), GoError>)
      requires Valid()
      ensures match Memory.GetObject(Contents(), key)
              case Ok(answer) => result.Ok? && result.value.0[..] == answer.0 && InfoValue(result.value.1) == answer.1
              case Err(e) => result == Err(e)
      ensures result.Ok? ==> fresh(result.value.0) && fresh(MapsOf(result.value.1))
    {
      hide ObjectValues, UploadValues, InferAlgorithm;
      if closed {
        return Err(ErrClosed);
      }
      if key !in objects {
        ValueAt(objects, Repr, key);
        return Err(ErrNotFound);
      }
      ValueAt(objects, Repr, key);
      var obj := objects[key];
      var info := Describe(InfoOfStored(key, obj));
      var body := CopyBytes(obj.body);
      return Ok((body, info));
    }

    method HeadObject(key: string) returns (result: Result<InfoRef, GoError>)
      requires Valid()
      ensures Answers(result, Memory.HeadObject(Contents(), key))
      ensures result.Ok? ==> fresh(MapsOf(result.value))
    {
      hide ObjectValues, UploadValues, InferAlgorithm;
      if closed {
        return Err(ErrClosed);
      }
      ValueAt(objects, Repr, key);
      if key !in objects {
        return Err(ErrNotFound);
      }
      var info := Describe(InfoOfStored(key, objects[key]));
      return Ok(info);
    }

    method DeleteObject(key: string, strict: bool) returns (err: Option<GoError>)
      requires Valid()
      modifies this`objects
      ensures Valid() && (Contents(), err) == old(Memory.DeleteObject(Contents(), key, strict))
    {
      if closed {
        return Some(ErrClosed);
      }
      if key !in objects {
        return if strict then Some(ErrNotFound) else None;
      }
      DropOne(objects, Repr, key);
      objects := objects - {key};
      return None;
    }

    /** The copy shares nothing with the source object, the caller's map or the returned info. */
    method CopyObject(source: string, target: string, metadata: StringMap?, contentType: string, now: int)
      returns (result: Result<InfoRef, GoError>)
      requires Valid()
      modifies this`objects, this`Repr
      ensures Valid() && old(Repr) <= Repr && fresh(Repr - old(Repr))
      ensures var (state, answer) := old(Memory.CopyObject(digests, Contents(), source, target, CopyOptions(Value(metadata), contentType), now));
              Contents() == state && Answers(result, answer)
      ensures result.Ok? ==> fresh(MapsOf(result.value)) && MapsOf(result.value) !! Repr + Lent
    {
      hide ObjectValues, UploadValues, InferAlgorithm, ComputeChecksum, ObjectETag, Parts.Filed;
      if closed {
        return Err(ErrClosed);
      }
      ValueAt(objects, Repr, source);
      if source !in objects {
        return Err(ErrNotFound);
      }
      ghost var was := Contents();
      var src := objects[source];
      var ct := if contentType == "" then src.contentType else contentType;
      var md := metadata;
      if md == null {
        md := CopyStringMap(src.metadata);
      }
      var body := CopyBytes(src.body);
      var etag := ObjectETag(digests, body[..]);
      var obj := StoredObject(body, ct, md, src.tags, etag, src.checksum, now);
      assert Contents() == was;
      assert ObjectValue(obj) == CopiedObject(digests, was.objects[source], CopyOptions(Value(metadata), contentType), now);
      var info := KeepAndDescribe(target, obj);
      return Ok(info);
    }

    // The loop of ListObjects over the object map, in whatever order it is iterated.
    method Gather(prefix: string) returns (all: seq<InfoRef>)
      requires Valid()
      ensures DistinctKeys(all)
      ensures forall k :: (k in objects && HasPrefix(k, prefix)) <==> (exists i :: 0 <= i < |all| && all[i].key == k)
      ensures forall x :: x in all ==> Copied(x)
      ensures forall x :: x in all ==> fresh(MapsOf(x))
    {
      hide ObjectValues, UploadValues, HasPrefix, Contents, Copied, Valid, InfoValue;
      all := [];
      var left := objects.Keys;
      while left != {}
        invariant left <= objects.Keys
        invariant DistinctKeys(all)
        invariant forall k :: k in objects && k !in left && HasPrefix(k, prefix) ==> exists i :: 0 <= i < |all| && all[i].key == k
        invariant forall i :: 0 <= i < |all| ==> all[i].key in objects && all[i].key !in left && HasPrefix(all[i].key, prefix)
        invariant forall x :: x in all ==> Copied(x)
        invariant forall x :: x in all ==> fresh(MapsOf(x))
        decreases |left|
      {
        var k :| k in left;
        left := left - {k};
        if HasPrefix(k, prefix) {
          ghost var n, before := |all|, all;
          var info := InfoFor(k);
          assert forall x :: x in before ==> Copied(x);
          all := all + [info];
          assert all[n].key == k;
          assert forall i :: 0 <= i < n ==> all[i] == before[i];
        }
      }
    }

    method InfoFor(key: string) returns (info: InfoRef)
      requires Valid() && key in objects
      ensures info.key == key && Copied(info) && fresh(MapsOf(info))
    {
      hide ObjectValues, UploadValues, InferAlgorithm;
      ValueAt(objects, Repr, key);
      info := Describe(InfoOfStored(key, objects[key]));
    }

    // The info stands for a stored object.
    ghost predicate Copied(x: InfoRef)
      requires Valid()
      reads this, Repr, Lent, MapsOf(x)
    {
      x.key in Contents().objects && InfoValue(x) == InfoOf(x.key, Contents().objects[x.key])
    }

    method ListObjects(prefix: string, max: int, token: string) returns (result: Result<Page<StringMap?>, GoError>)
      requires Valid()
      ensures match Memory.ListObjects(Contents(), prefix, max, token)
              case Ok(page) => result.Ok? && PageStands(result.value, page)
              case Err(e) => result == Err(e)
      ensures result.Ok? ==> forall x :: x in result.value.items ==> fresh(MapsOf(x))
    {
      hide ObjectValues, UploadValues, HasPrefix, Matching, PageOf, Copied, InfoValue, CutOf, PageStands, KeysIn;
      if closed {
        return Err(ErrClosed);
      }
      var gathered := Gather(prefix);
      var all := SortedInfos(gathered);
      assert KeysIn(all) == Matching(Contents().objects, prefix) by {
        SameKeys(objects, Repr);
        KeysMatch(gathered, all, Contents().objects, prefix);
      }
      var page := CutPage(all, max, token);
      ghost var answer := PageOf(Contents().objects, prefix, max, token);
      assert PageStands(page, answer) by { CutStands(all, max, token, prefix, page); }
      return Ok(page);
    }

    lemma CutStands(all: seq<InfoRef>, max: int, token: string, prefix: string, page: Page<StringMap?>)
      requires Valid() && AscendingKeys(all) && KeysIn(all) == Matching(Contents().objects, prefix)
      requires forall x :: x in all ==> Copied(x)
      requires CutOf(all, max, token, page)
      ensures PageStands(page, PageOf(Contents().objects, prefix, max, token))
    {
      hide ObjectValues, UploadValues, InferAlgorithm, HasPrefix, Matching, StartIndex;
      var ks := Matching(Contents().objects, prefix);
      var start := StartIndex(ks, token);
      var end := EndIndex(ks, start, max);
      var value := PageOf(Contents().objects, prefix, max, token);
      forall i | 0 <= i < |page.items| ensures InfoValue(page.items[i]) == value.items[i] {
        assert page.items[i] == all[start + i] && all[start + i] in all;
        assert ks[start..end][i] == ks[start + i];
      }
    }

    // -------------------------------------------------------------- multipart

    /** The upload keeps the caller's own maps, not copies. */
    method InitiateMultipart(key: string, opts: Options, now: int) returns (result: Result<string, GoError>)
      requires Valid() && OptionMaps(opts) !! Repr && this !in OptionMaps(opts)
      modifies this`uploads, this`issued, this`Lent
      ensures Valid() && Lent == if result.Ok? then old(Lent) + OptionMaps(opts) else old(Lent)
      ensures (Contents(), result) == old(Memory.InitiateMultipart(Contents(), key, OptionsValue(opts), now))
      ensures result.Ok? ==> result.value in uploads && uploads[result.value].opts == opts
    {
      hide ObjectValues, UploadValues, UploadIdText;
      if closed {
        return Err(ErrClosed);
      }
      issued := issued + 1;
      var id := UploadIdText(issued, key);
      var up := StoredUpload(key, opts, map[], now);
      StageOne(uploads, Lent, id, up);
      uploads, Lent := uploads[id := up], Lent + OptionMaps(opts);
      return Ok(id);
    }

    method UploadPart(id: string, partNumber: int, body: BodyReader) returns (result: Result<PartETag, GoError>)
      requires Valid() && body !in Repr + Lent
      modifies this`uploads, body
      ensures Valid()
      ensures (Contents(), body.episodes, result) == old(Memory.UploadPart(digests, Contents(), id, partNumber, body.episodes))
    {
      hide ObjectValues, UploadValues, PartETagText, Memory.ReadAll, WrapError;
      if closed {
        return Err(ErrClosed);
      }
      UploadAt(uploads, Lent, id);
      if id !in uploads {
        return Err(UploadMissing("UploadPart"));
      }
      ghost var was := Contents();
      var up := uploads[id];
      var data, failure := body.ReadAll();
      assert Contents() == was;
      if failure.Some? {
        return Err(WrapError(Unavailable, "UploadPart", "read body", failure));
      }
      var part := PartETag(partNumber, PartETagText(digests, partNumber, data[..]), data.Length);
      var staged := up.(parts := up.parts[partNumber := part]);
      Restage(uploads, Lent, id, staged);
      uploads := uploads[id := staged];
      return Ok(part);
    }

    method ListParts(id: string) returns (result: Result<seq<PartETag>, GoError>)
      requires Valid()
      ensures result == Memory.ListParts(Contents(), id)
    {
      hide ObjectValues, UploadValues;
      if closed {
        return Err(ErrClosed);
      }
      UploadAt(uploads, Lent, id);
      if id !in uploads {
        return Err(UploadMissing("ListParts"));
      }
      var parts := Parts.CollectParts(uploads[id].parts);
      return Ok(parts);
    }

    /** The published maps are copies of what the caller's maps hold at this moment. */
    method CompleteMultipart(id: string, parts: seq<PartETag>, now: int) returns (result: Result<InfoRef, GoError>)
      requires Valid()
      modifies this`objects, this`uploads, this`Repr
      ensures Valid() && old(Repr) <= Repr && fresh(Repr - old(Repr))
      ensures var (state, answer) := old(Memory.CompleteMultipart(digests, Contents(), id, parts, now));
              Contents() == state && Answers(result, answer)
      ensures result.Ok? ==> fresh(MapsOf(result.value)) && MapsOf(result.value) !! Repr + Lent
    {
      hide ObjectValues, UploadValues, MultipartETag, InferAlgorithm, TotalSize, WrapError, Parts.Filed;
      if closed {
        return Err(ErrClosed);
      }
      UploadAt(uploads, Lent, id);
      if id !in uploads {
        return Err(UploadMissing("CompleteMultipart"));
      }
      ghost var was := Contents();
      var up := uploads[id];
      var total := SumSizes(parts);
      var body := new byte[0];
      assert body[..] == [];
      var etag := MultipartETag(digests);
      var obj := StoredObject(body, up.opts.contentType, up.opts.metadata, up.opts.tags, etag, "", now);
      assert Contents() == was;
      var info := KeepAndDescribe(up.key, obj);
      Release(id);
      return Ok(info.(size := total));
    }

    method AbortMultipart(id: string)
      requires Valid()
      modifies this`uploads
      ensures Valid() && Contents() == old(Memory.AbortMultipart(Contents(), id))
    {
      if closed {
        return;
      }
      Release(id);
    }

    // delete(a.uploads, id)
    method Release(id: string)
      requires Valid()
      modifies this`uploads
      ensures Valid() && Contents() == old(Contents().(uploads := Contents().uploads - {id}))
    {
      hide ObjectValues, UploadValues;
      ReleaseOne(uploads, Lent, id);
      uploads := uploads - {id};
    }

    method Close()
      requires Valid()
      modifies this`objects, this`uploads, this`closed
      ensures Valid() && Contents() == old(Memory.Close(Contents()))
    {
      if closed {
        return;
      }
      closed := true;
      objects, uploads := map[], map[];
    }
  }

  /** What a caller does afterwards to the map it passed to Put, or to the maps it got back from it, does
      not reach the stored object. */
  method ChangedAfterPut(a: InMemoryAdapter, key: string, body: BodyReader, m: StringMap, later: map<string, string>, now: int)
    requires a.Valid() && !a.closed && m !in a.Repr + a.Lent && body !in a.Repr + a.Lent
    requires Memory.ReadAll(body.episodes).0.failure.None?
    modifies a, body, m
    ensures a.Valid()
    ensures a.Contents().objects == old(a.Contents().objects)[key :=
              old(NewObject(a.digests, Memory.ReadAll(body.episodes).0.data, PutOptions("", Value(m), None, SHA256), now))]
  {
    hide ComputeChecksum, ObjectETag, NewObject, ObjectValues, UploadValues;
    var result := a.PutObject(key, body, Options("", m, null, SHA256), now);
    ghost var stored := a.Contents();
    m.entries := later;
    if result.Ok? && result.value.metadata != null {
      result.value.metadata.entries := later;
    }
    assert a.Contents() == stored;
  }

  // No live upload was initiated with this map.
  ghost predicate Unlent(a: InMemoryAdapter, m: StringMap)
    reads a
  {
    forall id :: id in a.uploads ==> a.uploads[id].opts.metadata != m && a.uploads[id].opts.tags != m
  }

  /** When a caller's write to a map reaches the adapter: exactly when it changes the map and some live
      upload was initiated with it. Stored objects are never reached. */
  method CallerWrites(a: InMemoryAdapter, m: StringMap, later: map<string, string>)
    requires a.Valid() && m !in a.Repr && m as object != a
    modifies m
    ensures a.Valid() && a.Contents().objects == old(a.Contents().objects)
    ensures a.Contents() == old(a.Contents()) <==> later == old(m.entries) || Unlent(a, m)
  {
    ghost var was, before := a.Contents(), m.entries;
    m.entries := later;
    if later == before || Unlent(a, m) {
      assert UploadValues(a.uploads, a.Lent) == was.uploads by {
        forall id | id in a.uploads ensures UploadValue(a.uploads[id]) == was.uploads[id] {}
      }
    } else {
      ghost var id :| id in a.uploads && (a.uploads[id].opts.metadata == m || a.uploads[id].opts.tags == m);
      assert a.Contents().uploads[id] != was.uploads[id];
    }
  }

  /** So a map given to Initiate, in whatever options and for whatever parts, reaches the published object:
      its metadata is what the map holds when Complete runs, not what it held at Initiate. */
  method ChangedAfterInitiate(a: InMemoryAdapter, key: string, opts: Options, m: StringMap, later: map<string, string>,
                              parts: seq<PartETag>, now: int)
    requires a.Valid() && !a.closed && opts.metadata == m && OptionMaps(opts) !! a.Repr && a !in OptionMaps(opts)
    modifies a, m
    ensures a.Valid() && key in a.Contents().objects
    ensures a.Contents().objects[key].metadata == Some(later)
  {
    hide ObjectValues, UploadIdText, TotalSize, MultipartETag;
    var id := a.InitiateMultipart(key, opts, now);
    m.entries := later;
    UploadAt(a.uploads, a.Lent, id.value);
    var result := a.CompleteMultipart(id.value, parts, now);
  }
}
