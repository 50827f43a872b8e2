/** The streaming interface of user/sha1.c: Init, Update and Final over a context that holds the hash value,
    the bit count in two words, and the bytes of the last incomplete block. */
module Sha1Stream {
  import opened Sha1Standard
  import opened Sha1Transform

  const WORD: nat := 0x1_0000_0000

  // ---------------------------------------------------------------- the count in two words

  /** The count holds eight times a length, modulo 2^64. */
  predicate Counts(c0: nat, c1: nat, n: nat) {
    c0 < WORD && c1 < WORD && c1 * WORD + c0 == 8 * n % (WORD * WORD)
  }

  function Low(c0: nat, len: nat): nat {
    (c0 + 8 * len % WORD) % WORD
  }

  function High(c0: nat, c1: nat, len: nat): nat {
    var c := if Low(c0, len) < 8 * len % WORD then (c1 + 1) % WORD else c1;
    (c + len / 0x2000_0000) % WORD
  }

  /** Adding in two words, with the carry found by comparing, is adding modulo 2^64. */
  lemma CountsAdd(c0: nat, c1: nat, n: nat, len: nat)
    requires Counts(c0, c1, n) && len < WORD
    ensures Counts(Low(c0, len), High(c0, c1, len), n + len)
  {
    var low, top := 8 * len % WORD, len / 0x2000_0000;
    assert 8 * len == top * WORD + low;
    var carry := if c0 + low < WORD then 0 else 1;
    assert Low(c0, len) == c0 + low - carry * WORD;
    assert (Low(c0, len) < low) == (carry == 1);
    var wrap := (c1 + carry + top) / WORD;
    HighIs(c0, c1, len, carry);
    assert High(c0, c1, len) == c1 + carry + top - wrap * WORD;
    var q := 8 * n / (WORD * WORD);
    assert 8 * (n + len) == (q + wrap) * (WORD * WORD) + (High(c0, c1, len) * WORD + Low(c0, len));
    ModIs(8 * (n + len), q + wrap, High(c0, c1, len) * WORD + Low(c0, len));
  }

  lemma HighIs(c0: nat, c1: nat, len: nat, carry: nat)
    requires c1 < WORD && carry == (if Low(c0, len) < 8 * len % WORD then 1 else 0)
    ensures High(c0, c1, len) == (c1 + carry + len / 0x2000_0000) % WORD
  {
  }

  lemma ModIs(x: nat, q: nat, r: nat)
    requires x == q * (WORD * WORD) + r && r < WORD * WORD
    ensures x % (WORD * WORD) == r
  {
  }

  /** The place in the block, from the low word. */
  lemma CountsPlace(c0: nat, c1: nat, n: nat)
    requires Counts(c0, c1, n)
    ensures c0 / 8 % 64 == n % 64
  {
    var q := 8 * n / (WORD * WORD);
    assert 8 * n == q * (WORD * WORD) + c1 * WORD + c0;
    PlaceIs(n, 0x80_0000 * (q * WORD + c1), c0);
  }

  lemma PlaceIs(n: nat, t: nat, c0: nat)
    requires 8 * n == 512 * t + c0
    ensures c0 / 8 % 64 == n % 64
  {
    var d := n - 64 * t;
    DivIs(c0, 8, d, 0);
    var a, r := d / 64, d % 64;
    Remainder(n, 64, t + a, r);
  }

  /** The bits that two numbers have in common. */
  function And(x: nat, y: nat): nat {
    if y == 0 then 0 else (if x % 2 == 1 then y % 2 else 0) + 2 * And(x / 2, y / 2)
  }

  /** The mask of the padding loop takes the place in the block out of the low word, times 8. */
  lemma MaskBits(x: nat)
    ensures And(x, 504) == x / 8 % 64 * 8
  {
    var z := x / 8;
    assert And(x, 504) == 2 * And(x / 2, 252) == 4 * And(x / 2 / 2, 126) == 8 * And(x / 2 / 2 / 2, 63);
    assert x / 2 / 2 / 2 == z;
    LowBits(z, 6);
  }

  function Ones(k: nat): nat {
    if k == 0 then 0 else 1 + 2 * Ones(k - 1)
  }

  lemma {:induction false} LowBits(z: nat, k: nat)
    ensures And(z, Ones(k)) == z % (Ones(k) + 1)
    decreases k
  {
    if k > 0 {
      hide And;
      LowBits(z / 2, k - 1);
      AndOnes(z, Ones(k - 1));
      ModTwice(z, Ones(k - 1) + 1);
    }
  }

  lemma AndOnes(z: nat, y: nat)
    ensures And(z, 1 + 2 * y) == z % 2 + 2 * And(z / 2, y)
  {
    assert (1 + 2 * y) / 2 == y;
  }

  lemma ModTwice(z: nat, p: nat)
    requires 0 < p
    ensures z % 2 + 2 * (z / 2 % p) == z % (2 * p)
  {
    var q, r := z / 2 / p, z / 2 % p;
    HalfIs(z, p, q, r);
    Remainder(z, 2 * p, q, 2 * r + z % 2);
  }

  lemma HalfIs(z: nat, p: nat, q: nat, r: nat)
    requires z / 2 == q * p + r
    ensures z == q * (2 * p) + (2 * r + z % 2)
  {
  }

  lemma Remainder(x: nat, d: nat, q: nat, r: nat)
    requires r < d && x == q * d + r
    ensures x % d == r
  {
    DivIs(x, d, q, r);
  }

  lemma DivPlus(a: nat, d: nat, b: nat)
    requires 0 < d
    ensures (a * d + b) / d == a + b / d
  {
    var q, r := b / d, b % d;
    assert a * d + b == (a + q) * d + r;
    DivIs(a * d + b, d, a + q, r);
  }

  lemma DivIs(x: nat, d: nat, q: nat, r: nat)
    requires 0 < d && x == q * d + r && r < d
    ensures x / d == q
  {
    var e := x / d - q;
    DivMultiple(d, e);
  }

  lemma DivMultiple(d: int, e: int)
    requires 0 < d
    ensures 1 <= e ==> d <= d * e
    ensures e <= -1 ==> d * e <= -d
  {
  }

  // ---------------------------------------------------------------- the message so far

  function Whole(msg: seq<Byte>): (r: seq<Byte>)
    ensures |r| % 64 == 0
  {
    msg[..|msg| - |msg| % 64]
  }

  function Rest(msg: seq<Byte>): seq<Byte> {
    msg[|msg| - |msg| % 64..]
  }

  /** A message cut after n bytes, at a block boundary within 63 bytes of its end. */
  lemma CutAt(msg: seq<Byte>, n: nat)
    requires n <= |msg| < n + 64 && n % 64 == 0
    ensures Whole(msg) == msg[..n] && Rest(msg) == msg[n..]
  {
  }

  /** One step of the padding length. */
  lemma PadPlace(n: nat, k: nat)
    requires k <= ZeroCount(n)
    ensures (n + 1 + k) % 64 == 56 <==> k == ZeroCount(n)
  {
    var q, r := n / 64, n % 64;
    assert n == 64 * q + r;
    if r <= 55 {
      assert ZeroCount(n) == 55 - r;
      Mod64(n + 1 + k, q, r + 1 + k);
    } else {
      assert ZeroCount(n) == 119 - r;
      if r + 1 + k < 64 {
        Mod64(n + 1 + k, q, r + 1 + k);
      } else {
        Mod64(n + 1 + k, q + 1, r + 1 + k - 64);
      }
    }
  }

  lemma Mod64(x: nat, q: nat, r: nat)
    requires x == 64 * q + r && r < 64
    ensures x % 64 == r
  {
  }

  /** The eight bytes that Final makes of the two words are the length of the padding. */
  function CountByte(c0: nat, c1: nat, i: nat): Byte
    requires i < 8
  {
    ByteOf((if 4 <= i then c0 else c1) / Power256(3 - i % 4) % 256)
  }

  lemma Powers()
    ensures Power256(0) == 1 && Power256(1) == 0x100 && Power256(2) == 0x1_0000 && Power256(3) == 0x100_0000
    ensures Power256(4) == WORD && Power256(5) == 0x100 * WORD && Power256(6) == 0x1_0000 * WORD
    ensures Power256(7) == 0x100_0000 * WORD
  {
  }

  lemma HighByte(c0: nat, c1: nat, p: nat)
    requires c0 < WORD && 0 < p
    ensures (c1 * WORD + c0) / (p * WORD) == c1 / p
  {
    var q, r := c1 / p, c1 % p;
    assert c1 == q * p + r;
    assert c1 * WORD + c0 == q * (p * WORD) + (r * WORD + c0);
    assert r * WORD + c0 < p * WORD;
    DivIs(c1 * WORD + c0, p * WORD, q, r * WORD + c0);
  }

  lemma LowByte(c0: nat, c1: nat, p: nat, d: nat)
    requires c0 < WORD && 0 < p && WORD == p * 256 * d
    ensures (c1 * WORD + c0) / p % 256 == c0 / p % 256
  {
    Regroup(c1, p, d);
    DivPlus(256 * (c1 * d), p, c0);
    var a, r := c0 / p / 256, c0 / p % 256;
    Remainder(256 * (c1 * d) + c0 / p, 256, c1 * d + a, r);
  }

  lemma Regroup(c1: nat, p: nat, d: nat)
    ensures c1 * (p * 256 * d) == 256 * (c1 * d) * p
  {
    calc {
      c1 * (p * 256 * d);
      c1 * (256 * (p * d));
      256 * (c1 * (p * d));
      256 * (c1 * (d * p));
      256 * ((c1 * d) * p);
    }
  }

  lemma CountByteIs(c0: nat, c1: nat, i: nat)
    requires c0 < WORD && c1 < WORD && i < 8
    ensures CountByte(c0, c1, i) == LengthByte(c1 * WORD + c0, i)
  {
    hide Power256;
    hide ByteOf;
    Powers();
    if i < 4 {
      HighByte(c0, c1, Power256(3 - i));
    } else {
      LowByte(c0, c1, Power256(7 - i), Power256(i - 4));
    }
  }

  // ---------------------------------------------------------------- blocks

  /** A hash value that covers the first n bytes of a message. */
  ghost predicate Hashed(h: Hash, msg: seq<Byte>, n: nat) {
    n <= |msg| && n % 64 == 0 && h == Blocks(msg[..n])
  }

  lemma HashedStep(h: Hash, msg: seq<Byte>, n: nat, block: seq<Byte>)
    requires Hashed(h, msg, n) && n + 64 <= |msg| && block == msg[n..n + 64]
    ensures Hashed(Compress(h, Parse(block)), msg, n + 64)
  {
    hide Compress;
    hide Parse;
    hide Blocks;
    assert msg[..n + 64] == msg[..n] + block;
    BlocksAppend(msg[..n], block);
  }

  /** The last incomplete block, completed. */
  lemma FilledBlock(h: Hash, msg: seq<Byte>, full: seq<Byte>, j: nat, first: seq<Byte>, block: seq<Byte>)
    requires j == |msg| % 64 && |first| == 64 - j && |msg| + 64 - j <= |full| && |block| == 64
    requires full[..|msg|] == msg && full[|msg|..|msg| + 64 - j] == first
    requires Hashed(h, msg, |msg| - j) && block[..j] == Rest(msg) && block[j..] == first
    ensures Hashed(Compress(h, Parse(block)), full, |msg| + 64 - j)
  {
    hide Compress;
    hide Parse;
    hide Hashed;
    assert full == msg + full[|msg|..];
    HashedMore(h, msg, |msg| - j, full[|msg|..]);
    assert block == Rest(msg) + first == full[|msg| - j..|msg| - j + 64];
    HashedStep(h, full, |msg| - j, block);
  }

  /** The next whole block of the data is still as it was. */
  lemma RunBlock(full: seq<Byte>, n: nat, was: seq<Byte>, now: seq<Byte>, start: nat, i: nat, len: nat)
    requires Spent(was, now, start, i) && i + 64 <= len <= |was| && n <= |full| && full[n..] == was[..len]
    ensures n + i + 64 <= |full| && now[i..i + 64] == full[n + i..n + i + 64]
  {
    assert now[i..i + 64] == was[..len][i..i + 64];
  }

  lemma HashedMore(h: Hash, msg: seq<Byte>, n: nat, more: seq<Byte>)
    requires Hashed(h, msg, n)
    ensures Hashed(h, msg + more, n)
  {
    hide Blocks;
    assert (msg + more)[..n] == msg[..n];
  }

  /** Data that Update hashed without copying it: from from to to, block by block, it is overwritten with
      the last words of the schedule of each block; the rest is as it was. */
  ghost predicate Spent(was: seq<Byte>, now: seq<Byte>, from: nat, to: nat) {
    && |now| == |was| && from <= to <= |was|
    && (forall k :: 0 <= k < |was| && !(from <= k < to) ==> now[k] == was[k])
    && (forall p :: from <= p <= to - 64 && (p - from) % 64 == 0 ==> SpentBlock(was, now, p))
  }

  ghost predicate SpentBlock(was: seq<Byte>, now: seq<Byte>, p: nat)
    requires p + 64 <= |was| == |now|
  {
    Words(now[p..p + 64]) == LastWords(Parse(was[p..p + 64]))
  }

  lemma SpentStep(was: seq<Byte>, now: seq<Byte>, later: seq<Byte>, from: nat, to: nat)
    requires Spent(was, now, from, to) && OnlyBlock(now, later, to) && (to - from) % 64 == 0
    requires Words(later[to..to + 64]) == LastWords(Parse(now[to..to + 64]))
    ensures Spent(was, later, from, to + 64)
  {
    hide Words;
    hide LastWords;
    hide Parse;
    assert now[to..to + 64] == was[to..to + 64];
    forall p | from <= p <= to + 64 - 64 && (p - from) % 64 == 0
      ensures SpentBlock(was, later, p)
    {
      if p != to {
        assert p <= to - 64;
        assert SpentBlock(was, now, p);
        assert later[p..p + 64] == now[p..p + 64];
      }
    }
  }

  /** Where Update stops hashing data in place: after the last whole block. */
  function SpentFrom(n: nat, len: nat): nat {
    if n % 64 + len > 63 then 64 - n % 64 else 0
  }

  function SpentTo(n: nat, len: nat): nat {
    if n % 64 + len > 63 then len - (n + len) % 64 else 0
  }

  method Copy(dst: array<Byte>, at: nat, src: array<Byte>, from: nat, n: nat)
    requires dst != src && at + n <= dst.Length && from + n <= src.Length
    modifies dst
    ensures dst[..] == old(dst[..])[..at] + src[from..from + n] + old(dst[..])[at + n..]
  {
    for k := 0 to n
      invariant forall i :: at <= i < at + k ==> dst[i] == src[from + i - at]
      invariant forall i :: 0 <= i < dst.Length && !(at <= i < at + k) ==> dst[i] == old(dst[i])
    {
      dst[at + k] := src[from + k];
    }
  }

  class Context {
    const state: array<Word>
    var count0: nat
    var count1: nat
    const buffer: array<Byte>

    /** The context has taken in a message. */
    ghost predicate Absorbed(msg: seq<Byte>)
      reads this, state, buffer
    {
      && state.Length == 5 && buffer.Length == 64
      && Counts(count0, count1, |msg|)
      && Hashed(StateOf(state), msg, |msg| - |msg| % 64)
      && buffer[..|msg| % 64] == Rest(msg)
    }

    constructor ()
      ensures Absorbed([])
      ensures fresh(state) && fresh(buffer)
    {
      state := new Word[5](i => WordOf(INITIAL, i));
      buffer := new Byte[64](_ => 0);
      count0, count1 := 0, 0;
    }

    method Count(len: nat, ghost n: nat)
      requires Counts(count0, count1, n) && len < WORD
      modifies this
      ensures Counts(count0, count1, n + len)
    {
      CountsAdd(count0, count1, n, len);
      var bits := 8 * len % WORD;
      var c1 := count1;
      var c0 := (count0 + bits) % WORD;
      if c0 < bits {
        c1 := (c1 + 1) % WORD;
      }
      count0 := c0;
      count1 := (c1 + len / 0x2000_0000) % WORD;
    }

    /** The first block is completed in the buffer. */
    method Fill(data: array<Byte>, j: nat, ghost msg: seq<Byte>, ghost full: seq<Byte>)
      requires state.Length == 5 && buffer.Length == 64 && data != buffer
      requires j == |msg| % 64 && 64 - j <= data.Length && |msg| + 64 - j <= |full|
      requires full[..|msg|] == msg && full[|msg|..|msg| + 64 - j] == data[..64 - j]
      requires Hashed(StateOf(state), msg, |msg| - j) && buffer[..j] == Rest(msg)
      modifies state, buffer
      ensures Hashed(StateOf(state), full, |msg| + 64 - j)
    {
      hide Compress;
      hide Parse;
      hide Words;
      hide Hashed;
      hide Rest;
      ghost var first := data[..64 - j];
      Copy(buffer, j, data, 0, 64 - j);
      FilledBlock(StateOf(state), msg, full, j, first, buffer[..]);
      assert Block(buffer, 0) == buffer[..];
      Transform(state, buffer, 0);
    }
  
    /** The whole blocks that remain are hashed where they are. */
    method Run(data: array<Byte>, start: nat, len: nat, ghost n: nat, ghost full: seq<Byte>) returns (i: nat)
      requires state.Length == 5 && start <= len <= data.Length && n + len == |full|
      requires full[n..] == data[..len] && Hashed(StateOf(state), full, n + start)
      modifies state, data
      ensures start <= i <= len < i + 64
      ensures Hashed(StateOf(state), full, n + i)
      ensures Spent(old(data[..]), data[..], start, i)
    {
      hide Compress;
      hide Parse;
      hide Words;
      hide Blocks;
      hide Hashed;
      ghost var was := data[..];
      i := start;
      while i + 63 < len
        invariant start <= i <= len && (i - start) % 64 == 0
        invariant Hashed(StateOf(state), full, n + i)
        invariant Spent(was, data[..], start, i)
      {
        ghost var now := data[..];
        assert Block(data, i) == now[i..i + 64];
        RunBlock(full, n, was, now, start, i, len);
        HashedStep(StateOf(state), full, n + i, Block(data, i));
        Transform(state, data, i);
        assert Block(data, i) == data[..][i..i + 64];
        SpentStep(was, now, data[..], start, i);
        i := i + 64;
      }
    }

    /** Update of a message that completes a block. */
    method Long(data: array<Byte>, len: nat, j: nat, ghost msg: seq<Byte>, ghost full: seq<Byte>)
      requires state.Length == 5 && buffer.Length == 64 && data != buffer && len <= data.Length
      requires j == |msg| % 64 && j <= |msg| && 63 < j + len && full == msg + data[..len]
      requires Hashed(StateOf(state), msg, |msg| - j) && buffer[..j] == Rest(msg)
      requires Counts(count0, count1, |full|)
      modifies state, buffer, data
      ensures Absorbed(full)
      ensures SpentFrom(|msg|, len) <= SpentTo(|msg|, len)
      ensures Spent(old(data[..]), data[..], SpentFrom(|msg|, len), SpentTo(|msg|, len))
    {
      hide Compress;
      hide Words;
      hide Blocks;
      hide Hashed;
      hide Counts;
      hide Rest;
      hide Spent;
      hide SpentFrom;
      hide SpentTo;
      ghost var was := data[..];
      var i := 64 - j;
      Continued(msg, was, len, i, full);
      Fill(data, j, msg, full);
      i := Run(data, i, len, |msg|, full);
      UpdateEnds(StateOf(state), msg, full, i);
      SpentRest(was, data[..], 64 - j, i, len);
      SpentRange(|msg|, len, i);
      Continued(msg, was, len, i, full);
      Keep(data, i, len, full);
    }

    /** The bytes behind the last whole block wait in the buffer. */
    method Keep(data: array<Byte>, i: nat, len: nat, ghost full: seq<Byte>)
      requires state.Length == 5 && buffer.Length == 64 && data != buffer && i <= len <= data.Length && len - i < 64
      requires |full| % 64 == len - i && Rest(full) == data[i..len]
      requires Counts(count0, count1, |full|) && Hashed(StateOf(state), full, |full| - |full| % 64)
      modifies buffer
      ensures Absorbed(full)
    {
      hide Hashed;
      hide Counts;
      hide Rest;
      Copy(buffer, 0, data, i, len - i);
      assert buffer[..len - i] == data[i..len];
    }

    /** Update of a message that does not. */
    method Short(data: array<Byte>, len: nat, j: nat, ghost msg: seq<Byte>, ghost full: seq<Byte>)
      requires state.Length == 5 && buffer.Length == 64 && data != buffer && len <= data.Length
      requires j == |msg| % 64 && j <= |msg| && j + len <= 63 && full == msg + data[..len]
      requires Hashed(StateOf(state), msg, |msg| - j) && buffer[..j] == Rest(msg)
      requires Counts(count0, count1, |full|)
      modifies buffer
      ensures Absorbed(full)
    {
      hide Blocks;
      hide Hashed;
      hide Counts;
      hide Rest;
      HashedMore(StateOf(state), msg, |msg| - j, data[..len]);
      UpdateShort(StateOf(state), msg, data[..len]);
      Copy(buffer, j, data, 0, len);
      assert buffer[..j + len] == Rest(msg) + data[..len];
    }

    /** The message grows by the first len bytes of data. The bytes that were hashed in place are lost to
        the caller. An object of 2^32 - 64 bytes or more does not fit beside the context. */
    method Update(data: array<Byte>, len: nat, ghost msg: seq<Byte>)
      requires Absorbed(msg) && data != buffer && len <= data.Length && len + 64 <= WORD
      modifies this, state, buffer, data
      ensures Absorbed(msg + old(data[..len]))
      ensures SpentFrom(|msg|, len) <= SpentTo(|msg|, len)
      ensures Spent(old(data[..]), data[..], SpentFrom(|msg|, len), SpentTo(|msg|, len))
    {
      hide Hashed;
      hide Counts;
      hide Rest;
      hide Words;
      hide Parse;
      ghost var full := msg + data[..len];
      CountsPlace(count0, count1, |msg|);
      var j := count0 / 8 % 64;
      Count(len, |msg|);
      if j + len > 63 {
        Long(data, len, j, msg, full);
      } else {
        Short(data, len, j, msg, full);
      }
    }

    /** The padding, then the digest. The context is wiped. */
    method Final(digest: array<Byte>, ghost msg: seq<Byte>)
      requires Absorbed(msg) && digest.Length == 20 && digest != buffer
      modifies this, state, buffer, digest
      ensures digest[..] == Digest(Sha1(msg))
      ensures state.Length == 5 && forall k :: 0 <= k < 5 ==> state[k] == 0
      ensures buffer.Length == 64 && forall k :: 0 <= k < 64 ==> buffer[k] == 0
      ensures count0 == 0 && count1 == 0
    {
      hide Blocks;
      hide Hashed;
      hide Pad;
      hide Digest;
      hide Sha1;
      Finish(msg);
      PadWhole(StateOf(state), msg);
      WriteDigest(digest);
      Wipe();
    }

    method WriteDigest(digest: array<Byte>)
      requires state.Length == 5 && digest.Length == 20
      modifies digest
      ensures digest[..] == Digest(StateOf(state))
    {
      hide Octet;
      for i := 0 to 20
        invariant forall k :: 0 <= k < i ==> digest[k] == DigestByte(StateOf(state), k)
      {
        digest[i] := Octet(state[i / 4], 3 - i % 4);
      }
    }

    method Wipe()
      requires state.Length == 5 && buffer.Length == 64
      modifies this, state, buffer
      ensures forall k :: 0 <= k < 5 ==> state[k] == 0
      ensures forall k :: 0 <= k < 64 ==> buffer[k] == 0
      ensures count0 == 0 && count1 == 0
    {
      for i := 0 to 64
        invariant forall k :: 0 <= k < i ==> buffer[k] == 0
      {
        buffer[i] := 0;
      }
      for i := 0 to 5
        invariant forall k :: 0 <= k < i ==> state[k] == 0
        invariant forall k :: 0 <= k < 64 ==> buffer[k] == 0
      {
        state[i] := 0;
      }
      count0, count1 := 0, 0;
    }

    /** The eight bytes of the count. */
    method CountBytes(ghost n: nat) returns (finalcount: array<Byte>)
      requires Counts(count0, count1, n)
      ensures fresh(finalcount) && finalcount.Length == 8 && finalcount[..] == LengthBytes(8 * n % (WORD * WORD))
    {
      hide CountByte;
      hide LengthByte;
      finalcount := new Byte[8];
      for i := 0 to 8
        invariant forall k :: 0 <= k < i ==> finalcount[k] == LengthByte(8 * n % (WORD * WORD), k)
      {
        CountByteIs(count0, count1, i);
        finalcount[i] := CountByte(count0, count1, i);
      }
    }

    /** Zero bytes up to the place of the count. */
    method PadZeros(ghost msg: seq<Byte>)
      requires Absorbed(msg + [0x80])
      modifies this, state, buffer
      ensures Absorbed(msg + [0x80] + Zeros(ZeroCount(|msg|)))
    {
      hide Hashed;
      hide Counts;
      hide Rest;
      hide Spent;
      hide SpentTo;
      hide ZeroCount;
      hide And;
      var zero := new Byte[1](_ => 0);
      ghost var n := 0;
      assert msg + [0x80] + Zeros(0) == msg + [0x80];
      CountsPlace(count0, count1, |msg| + 1);
      while And(count0, 504) != 448
        invariant n <= ZeroCount(|msg|) && Absorbed(msg + [0x80] + Zeros(n))
        invariant zero[..1] == [0]
        invariant count0 / 8 % 64 == (|msg| + 1 + n) % 64
        decreases ZeroCount(|msg|) - n
      {
        MaskBits(count0);
        PadPlace(|msg|, n);
        assert msg + [0x80] + Zeros(n) + [0] == msg + [0x80] + Zeros(n + 1);
        ghost var was := zero[..];
        Update(zero, 1, msg + [0x80] + Zeros(n));
        SpentByte(was, zero[..], |msg| + 1 + n);
        n := n + 1;
        CountsPlace(count0, count1, |msg| + 1 + n);
      }
      MaskBits(count0);
      PadPlace(|msg|, n);
    }

    method Finish(ghost msg: seq<Byte>)
      requires Absorbed(msg)
      modifies this, state, buffer
      ensures Absorbed(Pad(msg))
    {
      hide Absorbed;
      hide LengthBytes;
      hide Spent;
      CountsOf(msg);
      var finalcount := CountBytes(|msg|);
      ghost var bytes := finalcount[..];
      var one := new Byte[1](_ => 0x80);
      assert one[..1] == [0x80];
      Update(one, 1, msg);
      PadZeros(msg);
      assert finalcount[..8] == bytes;
      Update(finalcount, 8, msg + [0x80] + Zeros(ZeroCount(|msg|)));
    }

    lemma CountsOf(msg: seq<Byte>)
      requires Absorbed(msg)
      ensures Counts(count0, count1, |msg|)
    {
    }
  }

  // ---------------------------------------------------------------- a message in parts

  function Joined(parts: seq<array<Byte>>): seq<Byte>
    reads parts
  {
    if parts == [] then [] else Joined(parts[..|parts| - 1]) + parts[|parts| - 1][..]
  }

  /** A message handed over in any parts: one Update for each, and Final. */
  method HashParts(parts: seq<array<Byte>>, digest: array<Byte>)
    requires digest.Length == 20
    requires forall i :: 0 <= i < |parts| ==> parts[i].Length + 64 <= WORD
    requires forall i, j :: 0 <= i < j < |parts| ==> parts[i] != parts[j]
    modifies digest, parts
    ensures digest[..] == Digest(Sha1(old(Joined(parts))))
  {
    hide Sha1;
    hide Digest;
    hide Context.Absorbed;
    hide Spent;
    hide SpentFrom;
    hide SpentTo;
    var context := new Context();
    for i := 0 to |parts|
      invariant context.Absorbed(old(Joined(parts[..i]))) && fresh(context) && fresh(context.state)
                && fresh(context.buffer)
      invariant forall k :: i <= k < |parts| ==> parts[k][..] == old(parts[k][..])
    {
      assert parts[..i + 1][..i] == parts[..i];
      ghost var part := parts[i][..];
      assert old(Joined(parts[..i + 1])) == old(Joined(parts[..i])) + part;
      assert parts[i][..parts[i].Length] == part;
      context.Update(parts[i], parts[i].Length, old(Joined(parts[..i])));
    }
    assert parts[..|parts|] == parts;
    context.Final(digest, old(Joined(parts)));
  }

  /** Pieces of a message and the data behind it. */
  lemma Continued(msg: seq<Byte>, data: seq<Byte>, len: nat, i: nat, full: seq<Byte>)
    requires i <= len <= |data| && full == msg + data[..len]
    ensures full[..|msg|] == msg && full[|msg|..] == data[..len]
    ensures full[|msg|..|msg| + i] == data[..i] && full[|msg| + i..] == data[i..len]
  {
    assert full[|msg|..|msg| + i] == data[..len][..i];
    assert full[|msg| + i..] == data[..len][i..];
  }

  lemma SpentRange(n: nat, len: nat, i: nat)
    requires 63 < n % 64 + len && (n + len) % 64 == len - i
    ensures SpentFrom(n, len) == 64 - n % 64 && SpentTo(n, len) == i
  {
  }

  /** Update leaves a single byte alone. */
  lemma SpentByte(was: seq<Byte>, now: seq<Byte>, n: nat)
    requires |was| == 1 && SpentFrom(n, 1) <= SpentTo(n, 1) && Spent(was, now, SpentFrom(n, 1), SpentTo(n, 1))
    ensures now == was
  {
  }

  lemma SpentRest(was: seq<Byte>, now: seq<Byte>, from: nat, to: nat, len: nat)
    requires Spent(was, now, from, to) && to <= len <= |was|
    ensures |now| == |was| && now[to..len] == was[to..len]
  {
  }

  lemma UpdateEnds(h: Hash, msg: seq<Byte>, full: seq<Byte>, i: nat)
    requires |msg| + i <= |full| < |msg| + i + 64 && Hashed(h, full, |msg| + i)
    ensures Hashed(h, full, |full| - |full| % 64)
    ensures |full| % 64 == |full| - |msg| - i && Rest(full) == full[|msg| + i..]
  {
    CutAt(full, |msg| + i);
    var q := (|msg| + i) / 64;
    assert |full| == 64 * q + (|full| - |msg| - i);
    Mod64(|full|, q, |full| - |msg| - i);
  }

  lemma UpdateShort(h: Hash, msg: seq<Byte>, more: seq<Byte>)
    requires |msg| % 64 + |more| <= 63 && Hashed(h, msg + more, |msg| - |msg| % 64)
    ensures var full := msg + more;
            && Hashed(h, full, |full| - |full| % 64)
            && |full| % 64 == |msg| % 64 + |more| && Rest(full) == Rest(msg) + more
  {
    var full, j := msg + more, |msg| % 64;
    Mod64(|full|, |msg| / 64, j + |more|);
    assert Rest(full) == full[|msg| - j..];
    assert Rest(msg) + more == full[|msg| - j..];
  }

  lemma PadWhole(h: Hash, msg: seq<Byte>)
    requires Hashed(h, Pad(msg), |Pad(msg)| - |Pad(msg)| % 64)
    ensures h == Sha1(msg)
  {
    assert Pad(msg)[..|Pad(msg)|] == Pad(msg);
  }
}
