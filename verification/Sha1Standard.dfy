/** SHA-1 as FIPS 180-4 defines it. */
module Sha1Standard {

  type Word = bv32
  type Byte = bv8

  /** Section 3.2. */
  function Rotl(x: Word, n: bv6): Word
    requires n < 32
  {
    (x << n) | (x >> (32 - n))
  }

  /** Section 4.1.1. */
  function Ch(x: Word, y: Word, z: Word): Word {
    (x & y) ^ (!x & z)
  }

  function Parity(x: Word, y: Word, z: Word): Word {
    x ^ y ^ z
  }

  function Maj(x: Word, y: Word, z: Word): Word {
    (x & y) ^ (x & z) ^ (y & z)
  }

  function F(t: nat, x: Word, y: Word, z: Word): Word {
    if t < 20 then Ch(x, y, z) else if t < 40 then Parity(x, y, z) else if t < 60 then Maj(x, y, z) else Parity(x, y, z)
  }

  /** Section 4.2.1. */
  function K(t: nat): Word {
    if t < 20 then 0x5a827999 else if t < 40 then 0x6ed9eba1 else if t < 60 then 0x8f1bbcdc else 0xca62c1d6
  }

  datatype Hash = Hash(a: Word, b: Word, c: Word, d: Word, e: Word)

  /** Section 5.3.1. */
  const INITIAL: Hash := Hash(0x67452301, 0xefcdab89, 0x98badcfe, 0x10325476, 0xc3d2e1f0)

  /** Section 6.1.2, step 1: word t of the message schedule of a block of sixteen words. */
  function Schedule(m: seq<Word>, t: nat): Word
    requires |m| == 16
  {
    if t < 16 then m[t]
    else Rotl(Schedule(m, t - 3) ^ Schedule(m, t - 8) ^ Schedule(m, t - 14) ^ Schedule(m, t - 16), 1)
  }

  function Sum(r: Word, f: Word, e: Word, k: Word, w: Word): Word {
    r + f + e + k + w
  }

  /** Step 3, once. */
  function Round(v: Hash, t: nat, w: Word): Hash {
    Hash(Sum(Rotl(v.a, 5), F(t, v.b, v.c, v.d), v.e, K(t), w), v.a, Rotl(v.b, 30), v.c, v.d)
  }

  /** Step 3, for the first n values of t. */
  function Rounds(h: Hash, m: seq<Word>, n: nat): Hash
    requires |m| == 16
  {
    if n == 0 then h else Round(Rounds(h, m, n - 1), n - 1, Schedule(m, n - 1))
  }

  /** Addition modulo 2^32. */
  function Plus(x: Word, y: Word): Word {
    x + y
  }

  /** Step 4. */
  function Add(h: Hash, v: Hash): Hash {
    Hash(Plus(h.a, v.a), Plus(h.b, v.b), Plus(h.c, v.c), Plus(h.d, v.d), Plus(h.e, v.e))
  }

  /** Steps 1 to 4. */
  function Compress(h: Hash, m: seq<Word>): Hash
    requires |m| == 16
  {
    Add(h, Rounds(h, m, 80))
  }

  /** Section 3.1: a word from four bytes, the first the most significant. */
  function BigEndian(b: seq<Byte>): Word
    requires |b| == 4
  {
    Big(b[0] as bv32, b[1] as bv32, b[2] as bv32, b[3] as bv32)
  }

  function Big(a: Word, b: Word, c: Word, d: Word): Word {
    (a << 24) | (b << 16) | (c << 8) | d
  }

  /** Section 5.2.1: a block as sixteen words. */
  function Parse(block: seq<Byte>): (m: seq<Word>)
    requires |block| == 64
    ensures |m| == 16
  {
    seq(16, i requires 0 <= i < 16 => BigEndian(block[4 * i..4 * i + 4]))
  }

  /** The hash value after all blocks of a message whose length is a multiple of 64 bytes. */
  function Blocks(msg: seq<Byte>): Hash
    requires |msg| % 64 == 0
  {
    if msg == [] then INITIAL
    else Compress(Blocks(msg[..|msg| - 64]), Parse(msg[|msg| - 64..]))
  }

  function Zeros(n: nat): seq<Byte> {
    seq(n, i => 0)
  }

  function Power256(n: nat): (p: nat)
    ensures 0 < p
  {
    if n == 0 then 1 else 256 * Power256(n - 1)
  }

  /** Byte i of n in eight bytes, the first the most significant. */
  function LengthByte(n: nat, i: nat): Byte
    requires i < 8
  {
    ByteOf(n / Power256(7 - i) % 256)
  }

  function ByteOf(n: nat): Byte
    requires n < 256
  {
    n as bv8
  }

  function LengthBytes(n: nat): (r: seq<Byte>)
    ensures |r| == 8
  {
    seq(8, i requires 0 <= i < 8 => LengthByte(n, i))
  }

  /** The number of zero bytes in the padding of n bytes. */
  function ZeroCount(n: nat): nat {
    (119 - n % 64) % 64
  }

  lemma PaddedLength(n: nat)
    ensures (n + 9 + ZeroCount(n)) % 64 == 0
  {
    var q, r := n / 64, n % 64;
    assert n == 64 * q + r;
    if r <= 55 {
      assert ZeroCount(n) == 55 - r;
      assert n + 9 + ZeroCount(n) == 64 * (q + 1);
    } else {
      assert ZeroCount(n) == 119 - r;
      assert n + 9 + ZeroCount(n) == 64 * (q + 2);
    }
  }

  /** Section 5.1.1: a one bit, zero bits up to 448 modulo 512, and the length in bits. */
  function Pad(msg: seq<Byte>): (r: seq<Byte>)
    ensures |r| % 64 == 0
  {
    PaddedLength(|msg|);
    msg + [0x80] + Zeros(ZeroCount(|msg|)) + LengthBytes(8 * |msg| % 0x1_0000_0000_0000_0000)
  }

  /** The hash of a message. */
  function Sha1(msg: seq<Byte>): Hash {
    Blocks(Pad(msg))
  }

  /** The hash value as words, and as twenty bytes. */
  function WordOf(h: Hash, i: nat): Word {
    match i case 0 => h.a case 1 => h.b case 2 => h.c case 3 => h.d case _ => h.e
  }

  function DigestByte(h: Hash, i: nat): Byte
    requires i < 20
  {
    Octet(WordOf(h, i / 4), 3 - i % 4)
  }

  /** Byte k of a word, the least significant first. */
  function Octet(x: Word, k: nat): Byte {
    match k
    case 0 => (x & 255) as bv8
    case 1 => ((x >> 8) & 255) as bv8
    case 2 => ((x >> 16) & 255) as bv8
    case _ => ((x >> 24) & 255) as bv8
  }

  function Digest(h: Hash): (r: seq<Byte>)
    ensures |r| == 20
  {
    seq(20, i requires 0 <= i < 20 => DigestByte(h, i))
  }

  lemma BlocksAppend(msg: seq<Byte>, block: seq<Byte>)
    requires |msg| % 64 == 0 && |block| == 64
    ensures Blocks(msg + block) == Compress(Blocks(msg), Parse(block))
  {
  }
}
