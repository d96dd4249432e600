/** The in-memory adapter of pkg/ossx/inmemory.go as a value: its state and the effect of each
    method, one critical section of a.mu each. The class InMemory.InMemoryAdapter implements it. */
module Memory {
  import opened Wrappers
  import opened Errors
  import opened Digests
  import opened Keys
  import opened Text

  // A Go map[string]string, which may be nil.
  type Meta = Option<map<string, string>>

  datatype PutOptions = PutOptions(contentType: string, metadata: Meta, tags: Meta, algorithm: Algorithm)
  datatype CopyOptions = CopyOptions(metadata: Meta, contentType: string)
  datatype PartETag = PartETag(partNumber: int, etag: string, size: int)

  // ObjectInfo, with M for its two maps. CreatedAt is None for Go's zero time.
  datatype Info<+M> = Info(key: string, size: int, contentType: string, metadata: M, tags: M,
                           checksumAlgo: Algorithm, checksumHex: string, etag: string, createdAt: Option<int>)
  type ObjectInfo = Info<Meta>

  datatype Object = Object(body: seq<byte>, contentType: string, metadata: Meta, tags: Meta,
                           etag: string, checksum: string, createdAt: int)
  datatype Upload = Upload(key: string, opts: PutOptions, parts: map<int, PartETag>, createdAt: int)

  // issued is the value of the upload counter.
  datatype State = State(objects: map<string, Object>, uploads: map<string, Upload>, closed: bool, issued: nat)

  const EMPTY := State(map[], map[], false, 0)

  // A body reader: what each io.ReadAll of it finds before EOF (None) or an error ends it.
  datatype Episode = Episode(data: seq<byte>, failure: Option<GoError>)
  type Body = seq<Episode>

  function ReadAll(body: Body): (Episode, Body) {
    if body == [] then (Episode([], None), []) else (body[0], body[1..])
  }

  function ObjectETag(d: Digests, data: seq<byte>): string {
    "\"in-memory-" + ComputeChecksum(d, MD5, data) + "\""
  }

  function MultipartETag(d: Digests): string {
    "\"in-memory-multipart-" + ComputeChecksum(d, MD5, []) + "\""
  }

  function PartETagText(d: Digests, partNumber: int, data: seq<byte>): string {
    "\"part-" + FormatInt(partNumber) + "-" + ComputeChecksum(d, MD5, data) + "\""
  }

  /** Objects stored by Put or Copy have equal tags exactly when their contents have equal MD5 texts, and none
      has the tag of a multipart object. */
  lemma TagsIdentify(d: Digests, a: seq<byte>, b: seq<byte>)
    ensures ObjectETag(d, a) == ObjectETag(d, b) <==> ComputeChecksum(d, MD5, a) == ComputeChecksum(d, MD5, b)
    ensures ObjectETag(d, a) != MultipartETag(d)
  {
    var x, y := ComputeChecksum(d, MD5, a), ComputeChecksum(d, MD5, b);
    assert ObjectETag(d, a)[11..43] == x && ObjectETag(d, b)[11..43] == y;
    assert |ObjectETag(d, a)| == 44 && |MultipartETag(d)| == 54;
  }

  lemma Middle(p: string, u: string, q: string)
    ensures (p + u + q)[|p|..|p + u + q| - |q|] == u
  {
  }

  lemma PartTagMiddle(d: Digests, n: nat, data: seq<byte>)
    ensures var s := PartETagText(d, n, data);
            |s| >= 7 && s[6..|s| - 1] == Decimal(n) + "-" + ComputeChecksum(d, MD5, data)
  {
    hide Decimal, ComputeChecksum;
    var number, sum := Decimal(n), ComputeChecksum(d, MD5, data);
    var s := PartETagText(d, n, data);
    Middle("\"part-", number + "-" + sum, "\"");
    assert s == "\"part-" + (number + "-" + sum) + "\"";
  }

  /** Parts have equal tags exactly when they have the same number and contents with equal MD5 texts. */
  lemma PartTagsIdentify(d: Digests, m: nat, a: seq<byte>, n: nat, b: seq<byte>)
    ensures PartETagText(d, m, a) == PartETagText(d, n, b) <==> m == n && ComputeChecksum(d, MD5, a) == ComputeChecksum(d, MD5, b)
  {
    if PartETagText(d, m, a) == PartETagText(d, n, b) {
      hide Decimal, ComputeChecksum, PartETagText;
      PartTagMiddle(d, m, a);
      PartTagMiddle(d, n, b);
      FirstDash(Decimal(m), ComputeChecksum(d, MD5, a), Decimal(n), ComputeChecksum(d, MD5, b));
      DecimalInjective(m, n);
    }
  }

  function InfoOf(key: string, obj: Object): ObjectInfo {
    Info(key, |obj.body|, obj.contentType, obj.metadata, obj.tags,
         InferAlgorithm(obj.checksum), obj.checksum, obj.etag, Some(obj.createdAt))
  }

  function NewObject(d: Digests, data: seq<byte>, opts: PutOptions, now: int): Object {
    Object(data, opts.contentType, opts.metadata, opts.tags, ObjectETag(d, data),
           ComputeChecksum(d, opts.algorithm, data), now)
  }

  function PutObject(d: Digests, st: State, key: string, body: Body, opts: PutOptions, now: int)
    : (State, Body, Result<ObjectInfo, GoError>)
  {
    if st.closed then (st, body, Err(ErrClosed))
    else
      var (read, rest) := ReadAll(body);
      if read.failure.Some? then
        (st, rest, Err(WrapError(Unavailable, "PutObject", "read body", read.failure)))
      else
        var obj := NewObject(d, read.data, opts, now);
        (st.(objects := st.objects[key := obj]), rest, Ok(InfoOf(key, obj).(checksumAlgo := opts.algorithm)))
  }

  function GetObject(st: State, key: string): Result<(seq<byte>, ObjectInfo), GoError> {
    if st.closed then Err(ErrClosed)
    else if key !in st.objects then Err(ErrNotFound)
    else Ok((st.objects[key].body, InfoOf(key, st.objects[key])))
  }

  function HeadObject(st: State, key: string): Result<ObjectInfo, GoError> {
    if st.closed then Err(ErrClosed)
    else if key !in st.objects then Err(ErrNotFound)
    else Ok(InfoOf(key, st.objects[key]))
  }

  function DeleteObject(st: State, key: string, strict: bool): (State, Option<GoError>) {
    if st.closed then (st, Some(ErrClosed))
    else if key !in st.objects then (st, if strict then Some(ErrNotFound) else None)
    else (st.(objects := st.objects - {key}), None)
  }

  function CopiedObject(d: Digests, src: Object, opts: CopyOptions, now: int): Object {
    Object(src.body, if opts.contentType == "" then src.contentType else opts.contentType,
           if opts.metadata.None? then src.metadata else opts.metadata,
           src.tags, ObjectETag(d, src.body), src.checksum, now)
  }

  function CopyObject(d: Digests, st: State, source: string, target: string, opts: CopyOptions, now: int)
    : (State, Result<ObjectInfo, GoError>)
  {
    if st.closed then (st, Err(ErrClosed))
    else if source !in st.objects then (st, Err(ErrNotFound))
    else
      var obj := CopiedObject(d, st.objects[source], opts, now);
      (st.(objects := st.objects[target := obj]), Ok(InfoOf(target, obj)))
  }

  // ------------------------------------------------------------------ listing

  datatype Page<+M> = Page(items: seq<Info<M>>, next: string, truncated: bool)
  type ListPage = Page<Meta>

  // The stored keys with the prefix, sorted.
  function Matching(objects: map<string, Object>, prefix: string): (ks: seq<string>)
    ensures Ascending(ks)
    ensures forall k :: k in ks <==> k in objects && HasPrefix(k, prefix)
  {
    Sorted(set k | k in objects && HasPrefix(k, prefix))
  }

  // Where the page starts: after the token, or at the beginning when the token is not listed.
  function StartIndex(ks: seq<string>, token: string): (i: nat)
    ensures i <= |ks|
    ensures token != "" && i > 0 ==> ks[i - 1] == token
    ensures i == 0 ==> token == "" || token !in ks
    ensures token == "" ==> i == 0
  {
    if token == "" then 0 else AfterToken(ks, token)
  }

  function AfterToken(ks: seq<string>, token: string): (i: nat)
    ensures i <= |ks|
    ensures i > 0 ==> ks[i - 1] == token
    ensures i == 0 ==> token !in ks
  {
    if ks == [] then 0
    else if ks[0] == token then 1
    else
      var r := AfterToken(ks[1..], token);
      if r == 0 then 0 else r + 1
  }

  function Infos(objects: map<string, Object>, ks: seq<string>): (items: seq<ObjectInfo>)
    requires forall k :: k in ks ==> k in objects
    ensures |items| == |ks|
    ensures forall i :: 0 <= i < |ks| ==> items[i] == InfoOf(ks[i], objects[ks[i]])
  {
    if ks == [] then [] else [InfoOf(ks[0], objects[ks[0]])] + Infos(objects, ks[1..])
  }

  const DEFAULT_PAGE := 1000

  // Store.List: page sizes outside 1..1000 become 1000.
  function PageSize(maxKeys: int): (size: int)
    ensures 1 <= size <= DEFAULT_PAGE
  {
    if maxKeys <= 0 || maxKeys > DEFAULT_PAGE then DEFAULT_PAGE else maxKeys
  }

  function EndIndex(ks: seq<string>, start: nat, max: int): (end: nat)
    requires start <= |ks|
    ensures start <= end <= |ks|
    ensures end < |ks| ==> start < end
  {
    var size := if max <= 0 then DEFAULT_PAGE else max;
    if start + size < |ks| then start + size else |ks|
  }

  // The items ks[start..end] of the sorted matching keys ks.
  function PageSlice(objects: map<string, Object>, ks: seq<string>, start: nat, end: nat): ListPage
    requires start <= end <= |ks| && (end < |ks| ==> start < end)
    requires forall k :: k in ks ==> k in objects
  {
    Page(Infos(objects, ks[start..end]), if end < |ks| then ks[end - 1] else "", end < |ks|)
  }

  function PageOf(objects: map<string, Object>, prefix: string, max: int, token: string): ListPage {
    var ks := Matching(objects, prefix);
    var start := StartIndex(ks, token);
    PageSlice(objects, ks, start, EndIndex(ks, start, max))
  }

  function ListObjects(st: State, prefix: string, max: int, token: string): Result<ListPage, GoError> {
    if st.closed then Err(ErrClosed) else Ok(PageOf(st.objects, prefix, max, token))
  }

  // ------------------------------------------------------------------ multipart

  function InitiateMultipart(st: State, key: string, opts: PutOptions, now: int): (State, Result<string, GoError>) {
    if st.closed then (st, Err(ErrClosed))
    else
      var n := st.issued + 1;
      var id := UploadIdText(n, key);
      (st.(issued := n, uploads := st.uploads[id := Upload(key, opts, map[], now)]), Ok(id))
  }

  function UploadMissing(op: string): GoError {
    WrapError(NotFound, op, "upload id not found", None)
  }

  function UploadPart(d: Digests, st: State, id: string, partNumber: int, body: Body)
    : (State, Body, Result<PartETag, GoError>)
  {
    if st.closed then (st, body, Err(ErrClosed))
    else if id !in st.uploads then (st, body, Err(UploadMissing("UploadPart")))
    else
      var (read, rest) := ReadAll(body);
      if read.failure.Some? then
        (st, rest, Err(WrapError(Unavailable, "UploadPart", "read body", read.failure)))
      else
        var part := PartETag(partNumber, PartETagText(d, partNumber, read.data), |read.data|);
        var up := st.uploads[id];
        (st.(uploads := st.uploads[id := up.(parts := up.parts[partNumber := part])]), rest, Ok(part))
  }

  predicate IsLeastInt(m: int, s: set<int>) {
    m in s && forall x :: x in s ==> m <= x
  }

  function LeastInt(s: set<int>): (m: int)
    requires s != {}
    ensures IsLeastInt(m, s)
  {
    LeastIntExists(s);
    var m :| m in s && IsLeastInt(m, s);
    m
  }

  lemma AnElement<T>(s: set<T>) returns (x: T)
    requires s != {}
    ensures x in s
  {
    x :| x in s;
  }

  lemma {:induction false} LeastIntExists(s: set<int>)
    requires s != {}
    ensures exists m :: IsLeastInt(m, s)
    decreases |s|
  {
    var x := AnElement(s);
    var rest := s - {x};
    if rest == {} {
      assert s == {x};
      assert IsLeastInt(x, s);
    } else {
      LeastIntExists(rest);
      var m :| IsLeastInt(m, rest);
      var least := if x < m then x else m;
      assert forall y :: y in s ==> y == x || y in rest;
      assert IsLeastInt(least, s);
    }
  }

  // The staged parts in ascending order of their number in the table.
  function OrderedParts(parts: map<int, PartETag>): (r: seq<PartETag>)
    ensures |r| == |parts|
    decreases |parts|
  {
    if parts == map[] then []
    else
      var k := LeastInt(parts.Keys);
      assert |parts.Keys - {k}| == |parts.Keys| - 1;
      assert (parts - {k}).Keys == parts.Keys - {k};
      [parts[k]] + OrderedParts(parts - {k})
  }

  function ListParts(st: State, id: string): Result<seq<PartETag>, GoError> {
    if st.closed then Err(ErrClosed)
    else if id !in st.uploads then Err(UploadMissing("ListParts"))
    else Ok(OrderedParts(st.uploads[id].parts))
  }

  function TotalSize(parts: seq<PartETag>): int {
    if parts == [] then 0 else TotalSize(parts[..|parts| - 1]) + parts[|parts| - 1].size
  }

  function CompletedObject(d: Digests, up: Upload, now: int): Object {
    Object([], up.opts.contentType, up.opts.metadata, up.opts.tags, MultipartETag(d), "", now)
  }

  // The stored body is empty; only the returned size adds up the submitted parts.
  function CompleteMultipart(d: Digests, st: State, id: string, parts: seq<PartETag>, now: int)
    : (State, Result<ObjectInfo, GoError>)
  {
    if st.closed then (st, Err(ErrClosed))
    else if id !in st.uploads then (st, Err(UploadMissing("CompleteMultipart")))
    else
      var up := st.uploads[id];
      var obj := CompletedObject(d, up, now);
      (st.(objects := st.objects[up.key := obj], uploads := st.uploads - {id}),
       Ok(InfoOf(up.key, obj).(size := TotalSize(parts))))
  }

  function AbortMultipart(st: State, id: string): State {
    if st.closed then st else st.(uploads := st.uploads - {id})
  }

  function Close(st: State): State {
    if st.closed then st else State(map[], map[], true, st.issued)
  }
}
