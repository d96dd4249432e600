/** Object keys and metadata bounds (pkg/ossx/object.go). A string is a sequence of bytes here, one
    char for each byte, so lengths and comparisons are Go's. */
module Keys {
  import opened Wrappers
  import opened Errors
  import opened Digests

  // Library code taken as given: the digests, and utf8.ValidString.
  datatype Library = Library(digests: Digests, validUtf8: string -> bool)

  const MAX_KEY_LENGTH := 1024
  const MAX_METADATA_KEYS := 64
  const MAX_METADATA_VALUE_LENGTH := 2048

  predicate HasPrefix(key: string, prefix: string) {
    |key| >= |prefix| && key[..|prefix|] == prefix
  }

  // strings.Split(s, "/")
  function Split(s: string): (r: seq<string>)
    ensures |r| >= 1
  {
    if s == "" then [""]
    else
      var rest := Split(s[1..]);
      if s[0] == '/' then [""] + rest else [[s[0]] + rest[0]] + rest[1..]
  }

  function Join(segments: seq<string>): string
    requires |segments| >= 1
  {
    if |segments| == 1 then segments[0] else segments[0] + "/" + Join(segments[1..])
  }

  predicate Ambiguous(segment: string) {
    segment == "" || segment == "." || segment == ".."
  }

  function NewKey(lib: Library, raw: string): (r: Result<string, GoError>)
    ensures r.Ok? ==> r.value == raw
  {
    if raw == "" then Err(Annotate("empty", ErrInvalidKey))
    else if !lib.validUtf8(raw) then Err(Annotate("not utf-8", ErrInvalidKey))
    else if |raw| > MAX_KEY_LENGTH then Err(Annotate("too long", ErrInvalidKey))
    else if HasPrefix(raw, "/") then Err(Annotate("absolute path", ErrInvalidKey))
    else if exists seg :: seg in Split(raw) && Ambiguous(seg) then Err(Annotate("ambiguous segment", ErrInvalidKey))
    else Ok(raw)
  }

  predicate ValidKey(lib: Library, key: string) {
    NewKey(lib, key).Ok?
  }

  // The message names the offending entry; only its class is kept.
  function ValidateMetadata(md: Option<map<string, string>>): Option<GoError> {
    if md.None? then None
    else if |md.value| > MAX_METADATA_KEYS || exists k :: k in md.value && (k == "" || |md.value[k]| > MAX_METADATA_VALUE_LENGTH)
    then Some(Annotate("metadata", ErrInvalidMetadata))
    else None
  }

  /** Splitting cuts at every slash and nowhere else. */
  lemma {:induction false} SplitInverse(s: string)
    ensures Join(Split(s)) == s
    ensures forall i :: 0 <= i < |Split(s)| ==> '/' !in Split(s)[i]
  {
    if s != "" {
      var rest := Split(s[1..]);
      SplitInverse(s[1..]);
      var r := Split(s);
      if s[0] == '/' {
        assert r[1..] == rest;
        assert Join(r) == "" + "/" + Join(rest);
      } else {
        assert r[1..] == rest[1..];
        assert Join(r) == [s[0]] + Join(rest);
      }
      forall i | 0 <= i < |r| ensures '/' !in r[i] {
        if s[0] == '/' {
          if i > 0 { assert r[i] == rest[i - 1]; }
        } else if i > 0 {
          assert r[i] == rest[i];
        } else {
          assert '/' !in rest[0];
        }
      }
    }
  }

  // What stands between two consecutive cuts, with the ends of the string counting as cuts.
  ghost predicate IsSegment(s: string, i: int, j: int) {
    && 0 <= i <= j <= |s|
    && (i == 0 || s[i - 1] == '/') && (j == |s| || s[j] == '/')
    && '/' !in s[i..j]
  }

  lemma {:induction false} SegmentsAreSplit(s: string, i: int, j: int)
    requires IsSegment(s, i, j)
    ensures s[i..j] in Split(s)
    ensures i == 0 ==> s[i..j] == Split(s)[0]
    decreases |s|
  {
    if s == "" {
    } else if j == 0 {
      assert s[0] == '/';
    } else {
      var t, rest := s[1..], Split(s[1..]);
      if i == 0 {
        assert s[0] in s[0..j];
        assert t[0..j - 1] == s[1..j];
        assert forall c :: c in t[0..j - 1] ==> c in s[0..j];
        SegmentsAreSplit(t, 0, j - 1);
        assert s[0..j] == [s[0]] + t[0..j - 1];
      } else {
        assert t[i - 1..j - 1] == s[i..j];
        if i == 1 { assert s[0] == '/'; } else { assert t[i - 2] == s[i - 1]; }
        if j < |s| { assert t[j - 1] == s[j]; }
        SegmentsAreSplit(t, i - 1, j - 1);
        if s[0] != '/' {
          assert i >= 2;
          LaterSegment(t, i - 1, j - 1);
        }
      }
    }
  }

  // A segment that starts after a cut is one of the pieces after the first.
  lemma {:induction false} LaterSegment(s: string, i: int, j: int)
    requires IsSegment(s, i, j) && i >= 1
    ensures s[i..j] in Split(s)[1..]
    decreases |s|
  {
    var t, rest := s[1..], Split(s[1..]);
    assert t[i - 1..j - 1] == s[i..j];
    if j < |s| { assert t[j - 1] == s[j]; }
    if s[0] == '/' {
      if i > 1 { assert t[i - 2] == s[i - 1]; }
      SegmentsAreSplit(t, i - 1, j - 1);
      assert Split(s)[1..] == rest;
    } else {
      assert i >= 2 && t[i - 2] == s[i - 1];
      LaterSegment(t, i - 1, j - 1);
      assert Split(s)[1..] == rest[1..];
    }
  }

  /** An accepted key is relative and has no empty, "." or ".." segment anywhere: it cannot climb. */
  lemma ValidKeyHasNoTraversal(lib: Library, key: string, i: int, j: int)
    requires ValidKey(lib, key) && IsSegment(key, i, j)
    ensures key[i..j] !in {"", ".", ".."}
    ensures key != "" && |key| <= MAX_KEY_LENGTH && key[0] != '/' && key[|key| - 1] != '/'
  {
    SegmentsAreSplit(key, i, j);
    assert key[..1] == [key[0]];
    if key[|key| - 1] == '/' {
      SegmentsAreSplit(key, |key|, |key|);
    }
  }

  lemma SliceOfTail(s: string, i: nat, j: nat)
    requires i <= j < |s|
    ensures s[1..][i..j] == s[i + 1..j + 1]
  {
  }

  // Every piece of Split stands between two cuts.
  lemma {:induction false} SplitAreSegments(s: string, n: nat) returns (i: nat, j: nat)
    requires n < |Split(s)|
    ensures IsSegment(s, i, j) && s[i..j] == Split(s)[n]
    ensures n == 0 ==> i == 0
    ensures n > 0 ==> i > 0
    decreases |s|
  {
    SplitInverse(s);
    if s == "" {
      i, j := 0, 0;
    } else if s[0] == '/' {
      if n == 0 {
        i, j := 0, 0;
      } else {
        i, j := SplitAreSegments(s[1..], n - 1);
        SliceOfTail(s, i, j);
        assert i > 0 ==> s[1..][i - 1] == s[i];
        i, j := i + 1, j + 1;
      }
    } else {
      i, j := SplitAreSegments(s[1..], n);
      SliceOfTail(s, i, j);
      if n == 0 {
        assert s[0..j + 1] == [s[0]] + s[1..][0..j];
        i, j := 0, j + 1;
      } else {
        assert s[1..][i - 1] == s[i];
        i, j := i + 1, j + 1;
      }
    }
  }

  /** 1 to 1024 bytes of valid UTF-8 in which no segment, between any two slashes or at the ends, is empty,
      "." or "..". */
  ghost predicate WellFormed(lib: Library, key: string) {
    1 <= |key| <= 1024 && lib.validUtf8(key) && forall i: int, j: int :: IsSegment(key, i, j) ==> key[i..j] !in {"", ".", ".."}
  }

  // What is wrong with a key that is not well-formed: the first of these.
  function KeyProblem(lib: Library, key: string): GoError {
    Annotate(if key == "" then "empty"
             else if !lib.validUtf8(key) then "not utf-8"
             else if |key| > 1024 then "too long"
             else if key[0] == '/' then "absolute path"
             else "ambiguous segment", ErrInvalidKey)
  }

  /** Exactly the well-formed keys are accepted; the others fail with their problem, an invalid-key error. */
  lemma NewKeyExact(lib: Library, key: string)
    ensures NewKey(lib, key) == if WellFormed(lib, key) then Ok(key) else Err(KeyProblem(lib, key))
    ensures FindTyped(KeyProblem(lib, key)) == Some(ErrInvalidKey)
  {
    assert FindTypedIn([ErrInvalidKey]) == Some(ErrInvalidKey);
    if NewKey(lib, key).Ok? {
      forall i: int, j: int | IsSegment(key, i, j) ensures key[i..j] !in {"", ".", ".."} {
        ValidKeyHasNoTraversal(lib, key, i, j);
      }
    } else {
      if 1 <= |key| <= 1024 && lib.validUtf8(key) { InvalidKeyHasReason(lib, key); }
      if key != "" { assert key[..1] == [key[0]]; }
    }
  }

  lemma InvalidKeyHasReason(lib: Library, key: string)
    requires NewKey(lib, key).Err? && 1 <= |key| <= 1024 && lib.validUtf8(key)
    ensures exists i: int, j: int :: IsSegment(key, i, j) && key[i..j] in {"", ".", ".."}
  {
    if key[0] == '/' {
      assert IsSegment(key, 0, 0);
    } else {
      assert key[..1] == [key[0]];
      var seg :| seg in Split(key) && Ambiguous(seg);
      var n :| 0 <= n < |Split(key)| && Split(key)[n] == seg;
      var i, j := SplitAreSegments(key, n);
    }
  }

  /** Nil, or at most 64 entries with non-empty keys and values of at most 2048 bytes. */
  ghost predicate Fits(md: Option<map<string, string>>) {
    md.Some? ==> |md.value| <= 64 && forall k :: k in md.value ==> k != "" && |md.value[k]| <= 2048
  }

  lemma MetadataFitsIff(md: Option<map<string, string>>)
    ensures ValidateMetadata(md) == if Fits(md) then None else Some(Annotate("metadata", ErrInvalidMetadata))
    ensures FindTyped(Annotate("metadata", ErrInvalidMetadata)) == Some(ErrInvalidMetadata)
  {
    assert FindTypedIn([ErrInvalidMetadata]) == Some(ErrInvalidMetadata);
  }

  lemma HasPrefixIff(key: string, prefix: string)
    ensures HasPrefix(key, prefix) <==> exists rest :: key == prefix + rest
  {
    if HasPrefix(key, prefix) { assert key == prefix + key[|prefix|..]; }
  }
}
