/** The verifying reader of pkg/ossx/helpers.go: reads are teed through a hash and checked at EOF. */
module ChecksumReader {
  import opened Wrappers
  import opened Errors
  import opened Digests

  // The error half of a Go Read: nil, io.EOF, or another error.
  datatype ReadEnd = More | Eof | Failed(error: GoError)

  const CHECKSUM_MISMATCH := NewError(Checksum, "checksum", "streaming checksum mismatch")

  /** An arbitrary conforming io.Reader over some content: it may return any number of bytes up to
      the buffer, report its end with the last bytes or later, and stall finitely often. */
  class Stream {
    const data: seq<byte>
    const ending: ReadEnd
    const offer: nat -> nat
    const eager: nat -> bool
    var pos: nat
    var turn: nat
    var stalls: nat
    var open: bool

    ghost predicate Valid()
      reads this
    {
      pos <= |data| && ending != More
    }

    constructor (data: seq<byte>, ending: ReadEnd, offer: nat -> nat, eager: nat -> bool, stalls: nat)
      requires ending != More
      ensures Valid() && pos == 0 && open
      ensures this.data == data && this.ending == ending
    {
      this.data, this.ending, this.offer, this.eager := data, ending, offer, eager;
      this.pos, this.turn, this.stalls, this.open := 0, 0, stalls, true;
    }

    method Close()
      modifies this`open
      ensures !open
    {
      open := false;
    }

    method Read(p: array<byte>) returns (n: nat, end: ReadEnd)
      requires Valid()
      modifies this, p
      ensures Valid() && open == old(open)
      ensures n <= p.Length && pos == old(pos) + n
      ensures p[..n] == data[old(pos)..pos] && p[n..] == old(p[n..])
      ensures end != More ==> end == ending && pos == |data|
      ensures stalls <= old(stalls)
      ensures p.Length > 0 && end == More ==> n > 0 || stalls < old(stalls)
    {
      var rest := |data| - pos;
      n := if offer(turn) < p.Length then offer(turn) else p.Length;
      if n > rest { n := rest; }
      if n == 0 && 0 < p.Length && stalls > 0 {
        stalls := stalls - 1;
        end := More;
        turn := turn + 1;
        return;
      }
      if n == 0 && 0 < p.Length && rest > 0 { n := 1; }
      forall i | 0 <= i < n { p[i] := data[pos + i]; }
      pos := pos + n;
      end := if pos == |data| && ((n == 0 && 0 < p.Length) || eager(turn)) then ending else More;
      turn := turn + 1;
    }
  }

  /** ObjectReader: only the result flag that the verifier's onDone callback sets. */
  class ObjectReader {
    var checksumVerified: bool

    constructor ()
      ensures !checksumVerified
    {
      checksumVerified := false;
    }
  }

  class ChecksumReader {
    const base: Stream
    const hasher: HashFn
    const expected: string
    const owner: ObjectReader
    var state: int
    var checked: bool

    /** The flag is set exactly when EOF was seen and the digest of everything delivered matched. */
    ghost predicate Valid()
      reads this, base, owner
    {
      && base.Valid()
      && state == Absorb(hasher, hasher.init, base.data[..base.pos])
      && (checked ==> base.pos == |base.data| && base.ending == Eof)
      && (owner.checksumVerified <==> checked && Matches())
    }

    ghost predicate Matches() {
      StreamedChecksum(hasher, base.data) == expected
    }

    constructor (base: Stream, hasher: HashFn, expected: string, owner: ObjectReader)
      requires base.Valid() && base.pos == 0 && !owner.checksumVerified
      ensures Valid() && !checked
      ensures this.base == base && this.hasher == hasher && this.expected == expected && this.owner == owner
    {
      this.base, this.hasher, this.expected, this.owner := base, hasher, expected, owner;
      this.state, this.checked := hasher.init, false;
    }

    method Close()
      modifies base`open
      ensures !base.open
    {
      base.Close();
    }

    method Read(p: array<byte>) returns (n: nat, end: ReadEnd)
      requires Valid()
      modifies this, base, owner, p
      ensures Valid()
      // The base is not closed, on a mismatch either.
      ensures base.open == old(base.open)
      ensures n <= p.Length && base.pos == old(base.pos) + n
      ensures p[..n] == base.data[old(base.pos)..base.pos] && p[n..] == old(p[n..])
      ensures base.stalls <= old(base.stalls)
      ensures p.Length > 0 && end == More ==> n > 0 || base.stalls < old(base.stalls)
      ensures end != More ==> base.pos == |base.data|
      // The first EOF gives the verdict; a mismatch is reported that one time only.
      ensures !old(checked) && checked ==> end == if Matches() then Eof else Failed(CHECKSUM_MISMATCH)
      ensures old(checked) ==> checked && end in {More, Eof}
      ensures !checked ==> end == More || (end == base.ending && end.Failed?)
      ensures end != More && base.ending == Eof ==> checked
    {
      n, end := base.Read(p);
      if n > 0 {
        AbsorbConcat(hasher, hasher.init, base.data[..old(base.pos)], p[..n]);
        assert base.data[..base.pos] == base.data[..old(base.pos)] + p[..n];
        state := Absorb(hasher, state, p[..n]);
      }
      if end == Eof && !checked {
        checked := true;
        var got := HexEncode(hasher.finish(state));
        assert base.data[..base.pos] == base.data;
        if got != expected {
          owner.checksumVerified := false;
          end := Failed(CHECKSUM_MISMATCH);
          return;
        }
        owner.checksumVerified := true;
      }
    }
  }

  /** wrapChecksumVerifier: no verifier for an algorithm without a hasher. */
  method WrapChecksumVerifier(d: Digests, base: Stream, algorithm: Algorithm, expected: string, owner: ObjectReader)
    returns (wrapped: Option<ChecksumReader>)
    requires base.Valid() && base.pos == 0 && !owner.checksumVerified
    ensures wrapped.Some? <==> Supported(algorithm)
    ensures wrapped.Some? ==>
              var r := wrapped.value;
              && fresh(r) && r.Valid() && !r.checked && r.base == base && r.owner == owner
              && r.hasher == NewHasher(d, algorithm) && r.expected == expected
  {
    if !Supported(algorithm) {
      return None;
    }
    var r := new ChecksumReader(base, NewHasher(d, algorithm), expected, owner);
    return Some(r);
  }

  // io.ReadAll on a reader that is not wrapped.
  method ReadPlain(base: Stream, size: nat -> nat) returns (content: seq<byte>, err: Option<GoError>)
    requires base.Valid() && base.pos == 0
    modifies base
    ensures base.Valid() && base.open == old(base.open)
    ensures content == base.data
    ensures err == if base.ending.Failed? then Some(base.ending.error) else None
  {
    content := [];
    var turn := 0;
    while true
      invariant base.Valid() && base.open == old(base.open)
      invariant content == base.data[..base.pos]
      decreases |base.data| - base.pos, base.stalls
    {
      var p := new byte[size(turn) + 1];
      turn := turn + 1;
      ghost var before := base.pos;
      var n, end := base.Read(p);
      content := content + p[..n];
      assert base.data[..before] + base.data[before..base.pos] == base.data[..base.pos];
      if end != More {
        assert base.data[..base.pos] == base.data;
        return content, if end.Failed? then Some(end.error) else None;
      }
    }
  }

  /** io.ReadAll on a verifying reader, with any buffer sizes: exactly the base content is delivered,
      and a base that ends in EOF ends verified when the digest matches and in the checksum error
      when it does not. A base that fails is never verified. */
  method ReadAll(r: ChecksumReader, size: nat -> nat) returns (content: seq<byte>, err: Option<GoError>)
    requires r.Valid() && !r.checked && r.base.pos == 0
    modifies r, r.base, r.owner
    ensures r.Valid() && r.base.open == old(r.base.open)
    ensures content == r.base.data
    ensures r.base.ending == Eof ==> r.owner.checksumVerified == r.Matches()
    ensures r.base.ending == Eof ==> err == if r.Matches() then None else Some(CHECKSUM_MISMATCH)
    ensures r.base.ending.Failed? ==> !r.owner.checksumVerified && err == Some(r.base.ending.error)
  {
    content := [];
    var turn := 0;
    while true
      invariant r.Valid() && !r.checked && r.base.open == old(r.base.open)
      invariant content == r.base.data[..r.base.pos]
      decreases |r.base.data| - r.base.pos, r.base.stalls
    {
      var p := new byte[size(turn) + 1];
      turn := turn + 1;
      ghost var before := r.base.pos;
      var n, end := r.Read(p);
      content := content + p[..n];
      assert content == r.base.data[..r.base.pos] by {
        assert r.base.data[..before] + r.base.data[before..r.base.pos] == r.base.data[..r.base.pos];
      }
      if end != More {
        assert r.base.data[..r.base.pos] == r.base.data;
        err := if end.Failed? then Some(end.error) else None;
        return;
      }
    }
  }
}
