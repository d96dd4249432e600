/** One-shot and streaming digests of pkg/ossx/helpers.go. The digest algorithms are library code:
    they are folds over bytes of which only the output length is known. */
module Digests {
  newtype byte = x: int | 0 <= x < 256

  datatype Algorithm = SHA256 | MD5 | CRC32 | NoAlgorithm | OtherAlgorithm(name: string)

  // hash.Hash: a start state, one step for each byte written, and Sum.
  datatype HashFn = HashFn(init: int, step: (int, byte) -> int, finish: int -> seq<byte>)

  datatype RawDigests = RawDigests(sha256: HashFn, md5: HashFn, crc: (int, byte) -> int)

  ghost predicate FixedLengths(d: RawDigests) {
    && (forall s: int :: |d.sha256.finish(s)| == 32)
    && (forall s: int :: |d.md5.finish(s)| == 16)
    && (forall s: int, b: byte :: 0 <= d.crc(s, b) < 0x1_0000_0000)
  }

  const ZEROES: int -> int -> seq<byte> := (n: int) => (s: int) => if n < 0 then [] else seq(n, _ => 0 as byte)

  type Digests = d: RawDigests | FixedLengths(d)
    ghost witness RawDigests(HashFn(0, (s, b) => s, ZEROES(32)), HashFn(0, (s, b) => s, ZEROES(16)), (s, b) => 0)

  /** Writing data to a running hash. */
  function Absorb(h: HashFn, state: int, data: seq<byte>): int
    decreases |data|
  {
    if data == [] then state else Absorb(h, h.step(state, data[0]), data[1..])
  }

  /** However a stream is cut into writes, the hash ends in the state of one write of the whole. */
  lemma {:induction false} AbsorbConcat(h: HashFn, state: int, a: seq<byte>, b: seq<byte>)
    ensures Absorb(h, state, a + b) == Absorb(h, Absorb(h, state, a), b)
    decreases |a|
  {
    if a == [] {
      assert a + b == b;
    } else {
      assert (a + b)[0] == a[0] && (a + b)[1..] == a[1..] + b;
      AbsorbConcat(h, h.step(state, a[0]), a[1..], b);
    }
  }

  /** So a hash is the fold of its step over the bytes, in their order. */
  lemma AbsorbIsFold(h: HashFn, state: int, data: seq<byte>, b: byte)
    ensures Absorb(h, state, []) == state
    ensures Absorb(h, state, data + [b]) == h.step(Absorb(h, state, data), b)
  {
    AbsorbConcat(h, state, data, [b]);
    assert [b][1..] == [];
  }

  // ------------------------------------------------------------------ hexadecimal text

  function HexDigit(n: int): char
    requires 0 <= n < 16
  {
    "0123456789abcdef"[n]
  }

  // hex.EncodeToString
  function HexEncode(bytes: seq<byte>): (r: string)
    ensures |r| == 2 * |bytes|
    decreases |bytes|
  {
    if bytes == [] then ""
    else [HexDigit(bytes[0] as int / 16), HexDigit(bytes[0] as int % 16)] + HexEncode(bytes[1..])
  }

  predicate IsHexDigit(c: char) {
    '0' <= c <= '9' || 'a' <= c <= 'f'
  }

  function HexValue(c: char): int
    requires IsHexDigit(c)
  {
    if c <= '9' then c as int - '0' as int else c as int - 'a' as int + 10
  }

  lemma HexDigitValue(n: int)
    requires 0 <= n < 16
    ensures IsHexDigit(HexDigit(n)) && HexValue(HexDigit(n)) == n
  {
  }

  /** The text consists of lower-case digits, two for each byte, the high half first: it determines the bytes. */
  lemma {:induction false} HexEncodeDecodes(bytes: seq<byte>, i: nat)
    requires i < |bytes|
    ensures var r := HexEncode(bytes);
            IsHexDigit(r[2 * i]) && IsHexDigit(r[2 * i + 1]) && 16 * HexValue(r[2 * i]) + HexValue(r[2 * i + 1]) == bytes[i] as int
    decreases |bytes|
  {
    if i == 0 {
      HexDigitValue(bytes[0] as int / 16);
      HexDigitValue(bytes[0] as int % 16);
    } else {
      HexEncodeDecodes(bytes[1..], i - 1);
      assert HexEncode(bytes)[2 * i] == HexEncode(bytes[1..])[2 * (i - 1)];
      assert HexEncode(bytes)[2 * i + 1] == HexEncode(bytes[1..])[2 * (i - 1) + 1];
    }
  }

  // The shortest hexadecimal numeral of n, as %x prints it.
  function HexNumeral(n: nat): (r: string)
    ensures |r| >= 1
  {
    if n < 16 then [HexDigit(n)] else HexNumeral(n / 16) + [HexDigit(n % 16)]
  }

  function ZeroPad(s: string, width: nat): (r: string)
    decreases width - |s|
  {
    if |s| >= width then s else ZeroPad("0" + s, width)
  }

  // fmt.Sprintf("%08x", n)
  function Format08x(n: nat): string {
    ZeroPad(HexNumeral(n), 8)
  }

  // The four bytes that a CRC-32 hash appends in Sum.
  function BigEndian(n: int): (r: seq<byte>)
    requires 0 <= n < 0x1_0000_0000
    ensures |r| == 4
  {
    [(n / 0x100_0000) as byte, (n / 0x1_0000 % 0x100) as byte, (n / 0x100 % 0x100) as byte, (n % 0x100) as byte]
  }

  lemma BigEndianValue(n: int)
    requires 0 <= n < 0x1_0000_0000
    ensures var r := BigEndian(n);
            0x100_0000 * r[0] as int + 0x1_0000 * r[1] as int + 0x100 * r[2] as int + r[3] as int == n
  {
  }

  // Exactly width digits, most significant first.
  function FixedHex(n: nat, width: nat): (r: string)
    ensures |r| == width
  {
    if width == 0 then "" else FixedHex(n / 16, width - 1) + [HexDigit(n % 16)]
  }

  function Pow16(k: nat): nat {
    if k == 0 then 1 else 16 * Pow16(k - 1)
  }

  lemma {:induction false} ZeroPadSnoc(s: string, c: char, width: nat)
    requires width >= 1
    ensures ZeroPad(s + [c], width) == ZeroPad(s, width - 1) + [c]
    decreases width - |s|
  {
    if |s| + 1 < width {
      assert "0" + (s + [c]) == ("0" + s) + [c];
      ZeroPadSnoc("0" + s, c, width);
    }
  }

  lemma {:induction false} ZeroPadEmptyNumeral(width: nat)
    ensures ZeroPad("", width) == FixedHex(0, width)
    decreases width
  {
    if width > 0 {
      ZeroPadEmptyNumeral(width - 1);
      ZeroPadSnoc("", '0', width);
      assert "" + ['0'] == "0" + "";
    }
  }

  lemma {:induction false} PaddedNumeralIsFixed(n: nat, width: nat)
    requires width >= 1 && n < Pow16(width)
    ensures ZeroPad(HexNumeral(n), width) == FixedHex(n, width)
    decreases width
  {
    if n < 16 {
      ZeroPadSnoc("", HexDigit(n), width);
      ZeroPadEmptyNumeral(width - 1);
      assert "" + [HexDigit(n)] == [HexDigit(n)];
    } else {
      assert width >= 2 by {
        assert Pow16(1) == 16 * Pow16(0);
      }
      PaddedNumeralIsFixed(n / 16, width - 1);
      ZeroPadSnoc(HexNumeral(n / 16), HexDigit(n % 16), width);
    }
  }

  lemma FixedHexStep(n: nat, width: nat)
    requires width >= 2
    ensures FixedHex(n, width) == FixedHex(n / 256, width - 2) + HexEncode([(n % 256) as byte])
  {
    assert n / 16 / 16 == n / 256;
    assert n % 256 / 16 == n / 16 % 16 && n % 256 % 16 == n % 16;
    var high, c, e := FixedHex(n / 256, width - 2), HexDigit(n / 16 % 16), HexDigit(n % 16);
    assert FixedHex(n / 16, width - 1) == high + [c];
    assert (high + [c]) + [e] == high + [c, e];
    assert [(n % 256) as byte][1..] == [];
    assert HexEncode([(n % 256) as byte]) == [c, e] + "";
  }

  lemma {:induction false} HexEncodeConcat(a: seq<byte>, b: seq<byte>)
    ensures HexEncode(a + b) == HexEncode(a) + HexEncode(b)
    decreases |a|
  {
    if a == [] {
      assert a + b == b;
    } else {
      assert (a + b)[1..] == a[1..] + b;
      HexEncodeConcat(a[1..], b);
    }
  }

  lemma {:induction false} FixedHexIsBytes(n: nat)
    requires n < 0x1_0000_0000
    ensures FixedHex(n, 8) == HexEncode(BigEndian(n))
  {
    var n1, n2, n3 := n / 0x100, n / 0x1_0000, n / 0x100_0000;
    assert n1 / 256 == n2 && n2 / 256 == n3 && n3 / 256 == 0;
    var b0, b1, b2, b3 := (n3 % 256) as byte, (n2 % 256) as byte, (n1 % 256) as byte, (n % 256) as byte;
    assert FixedHex(n3, 2) == HexEncode([b0]) by {
      FixedHexStep(n3, 2);
      assert "" + HexEncode([b0]) == HexEncode([b0]);
    }
    assert FixedHex(n2, 4) == HexEncode([b0] + [b1]) by { FixedHexStep(n2, 4); HexEncodeConcat([b0], [b1]); }
    assert FixedHex(n1, 6) == HexEncode([b0] + [b1] + [b2]) by { FixedHexStep(n1, 6); HexEncodeConcat([b0] + [b1], [b2]); }
    assert FixedHex(n, 8) == HexEncode([b0] + [b1] + [b2] + [b3]) by {
      FixedHexStep(n, 8);
      HexEncodeConcat([b0] + [b1] + [b2], [b3]);
    }
    assert BigEndian(n) == [b0] + [b1] + [b2] + [b3];
  }

  /** %08x of a CRC-32 value is the hexadecimal text of its four big-endian bytes, so the one-shot
      checksum and the streaming one print the same text. */
  lemma CrcTextAgrees(n: nat)
    requires n < 0x1_0000_0000
    ensures Format08x(n) == HexEncode(BigEndian(n))
  {
    assert Pow16(8) == 0x1_0000_0000 by {
      assert Pow16(4) == 0x1_0000;
      assert Pow16(8) == 16 * 16 * 16 * 16 * Pow16(4);
    }
    PaddedNumeralIsFixed(n, 8);
    FixedHexIsBytes(n);
  }

  // ------------------------------------------------------------------ computeChecksum, newHasher

  const BIG_ENDIAN_SUM: int -> seq<byte> := s => if 0 <= s < 0x1_0000_0000 then BigEndian(s) else []

  predicate Supported(alg: Algorithm) {
    alg in {SHA256, MD5, CRC32}
  }

  // newHasher; nil for an algorithm it does not know is excluded by the caller's test.
  function NewHasher(d: Digests, alg: Algorithm): HashFn
    requires Supported(alg)
  {
    match alg
    case SHA256 => d.sha256
    case MD5 => d.md5
    case CRC32 => HashFn(0, d.crc, BIG_ENDIAN_SUM)
  }

  // crc32.ChecksumIEEE
  function CrcSum(d: Digests, data: seq<byte>): (r: int)
    ensures 0 <= r < 0x1_0000_0000
  {
    CrcInRange(d, 0, data);
    Absorb(NewHasher(d, CRC32), 0, data)
  }

  lemma {:induction false} CrcInRange(d: Digests, state: int, data: seq<byte>)
    requires 0 <= state < 0x1_0000_0000
    ensures 0 <= Absorb(NewHasher(d, CRC32), state, data) < 0x1_0000_0000
    decreases |data|
  {
    if data != [] {
      CrcInRange(d, d.crc(state, data[0]), data[1..]);
    }
  }

  function ComputeChecksum(d: Digests, alg: Algorithm, data: seq<byte>): (r: string)
    ensures alg == SHA256 ==> |r| == 64
    ensures alg == MD5 ==> |r| == 32
    ensures alg == CRC32 ==> |r| == 8
    ensures !Supported(alg) ==> r == ""
  {
    match alg
    case SHA256 => HexEncode(d.sha256.finish(Absorb(d.sha256, d.sha256.init, data)))
    case MD5 => HexEncode(d.md5.finish(Absorb(d.md5, d.md5.init, data)))
    case CRC32 => CrcTextAgrees(CrcSum(d, data)); Format08x(CrcSum(d, data))
    case _ => ""
  }

  // The text a streaming hash prints after all of data was written to it.
  function StreamedChecksum(h: HashFn, data: seq<byte>): string {
    HexEncode(h.finish(Absorb(h, h.init, data)))
  }

  /** The streaming hash and computeChecksum agree on every algorithm and every content. */
  lemma StreamedIsOneShot(d: Digests, alg: Algorithm, data: seq<byte>)
    requires Supported(alg)
    ensures StreamedChecksum(NewHasher(d, alg), data) == ComputeChecksum(d, alg, data)
  {
    if alg == CRC32 {
      CrcTextAgrees(CrcSum(d, data));
      CrcInRange(d, 0, data);
    }
  }

  // inferChecksumAlgo: the algorithm is guessed from the length of the stored text.
  function InferAlgorithm(hexSum: string): Algorithm {
    match |hexSum|
    case 64 => SHA256
    case 32 => MD5
    case 8 => CRC32
    case _ => NoAlgorithm
  }

  /** Guessing inverts computing for supported algorithms, and gives none for all others. */
  lemma InferInvertsCompute(d: Digests, alg: Algorithm, data: seq<byte>)
    ensures InferAlgorithm(ComputeChecksum(d, alg, data)) == if Supported(alg) then alg else NoAlgorithm
  {
  }
}
