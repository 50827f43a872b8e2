/** SHA1_Transform of user/sha1.c: eighty rounds over a block of sixteen words that is overwritten while it
    is read, against the eighty-word schedule of FIPS 180-4. */
module Sha1Transform {
  import opened Sha1Standard

  // ---------------------------------------------------------------- the macros of the source

  /** The byte swap of blk0. */
  function Swap(x: Word): Word {
    (Rotl(x, 24) & 0xff00ff00) | (Rotl(x, 8) & 0x00ff00ff)
  }

  /** blk0 and blk: the word that round t uses. */
  function Blk(l: seq<Word>, t: nat): Word
    requires |l| == 16
  {
    if t < 16 then Swap(l[t])
    else Rotl(l[(t + 13) % 16] ^ l[(t + 8) % 16] ^ l[(t + 2) % 16] ^ l[t % 16], 1)
  }

  /** The function of R0 to R4. */
  function Mix(t: nat, w: Word, x: Word, y: Word): Word {
    if t < 20 then (w & (x ^ y)) ^ y
    else if t < 40 then w ^ x ^ y
    else if t < 60 then ((w | x) & y) | (w & x)
    else w ^ x ^ y
  }

  /** The constant of R0 to R4. */
  function Constant(t: nat): Word {
    if t < 20 then 0x5A827999 else if t < 40 then 0x6ED9EBA1 else if t < 60 then 0x8F1BBCDC else 0xCA62C1D6
  }

  function Added(z: Word, f: Word, blk: Word, k: Word, r: Word): Word {
    z + (f + blk + k + r)
  }

  /** What a macro makes of z. */
  function MacroZ(t: nat, v: Word, w: Word, x: Word, y: Word, z: Word, blk: Word): Word {
    Added(z, Mix(t, w, x, y), blk, Constant(t), Rotl(v, 5))
  }

  lemma ChForm(w: Word, x: Word, y: Word)
    ensures (w & (x ^ y)) ^ y == Ch(w, x, y)
  {
  }

  lemma MajForm(w: Word, x: Word, y: Word)
    ensures ((w | x) & y) | (w & x) == Maj(w, x, y)
  {
  }

  /** The functions of the source are those of the standard. */
  lemma MixIsF(t: nat, w: Word, x: Word, y: Word)
    ensures Mix(t, w, x, y) == F(t, w, x, y)
  {
    ChForm(w, x, y);
    MajForm(w, x, y);
  }

  lemma ConstantIsK(t: nat)
    ensures Constant(t) == K(t)
  {
  }

  lemma SumOrder(z: Word, f: Word, blk: Word, k: Word, r: Word)
    ensures Added(z, f, blk, k, r) == Sum(r, f, z, k, blk)
  {
  }

  /** One macro is one round of the standard, with the registers taken in the order v, w, x, y, z and left
      in the order z, v, w, x, y. */
  lemma MacroIsRound(t: nat, v: Word, w: Word, x: Word, y: Word, z: Word, blk: Word)
    ensures Hash(MacroZ(t, v, w, x, y, z, blk), v, Rotl(w, 30), x, y) == Round(Hash(v, w, x, y, z), t, blk)
  {
    hide Rotl;
    hide Mix;
    hide F;
    hide K;
    hide Constant;
    hide Added;
    hide Sum;
    MixIsF(t, w, x, y);
    ConstantIsK(t);
    SumOrder(z, F(t, w, x, y), blk, K(t), Rotl(v, 5));
  }

  // ---------------------------------------------------------------- the circular schedule

  /** Before round t, the block holds the last words of the schedule, and its own later words still
      unswapped. */
  ghost predicate Circular(l: seq<Word>, m: seq<Word>, t: nat) {
    && |l| == |m| == 16
    && (forall s: nat :: s < t <= s + 16 ==> Held(l, m, s))
    && (forall i: nat :: t <= i < 16 ==> Swap(l[i]) == m[i])
  }

  ghost predicate Held(l: seq<Word>, m: seq<Word>, s: nat)
    requires |l| == |m| == 16
  {
    l[s % 16] == Schedule(m, s)
  }

  lemma CircularIndex(t: nat)
    requires 16 <= t
    ensures (t + 13) % 16 == (t - 3) % 16 && (t + 8) % 16 == (t - 8) % 16
    ensures (t + 2) % 16 == (t - 14) % 16 && t % 16 == (t - 16) % 16
  {
    PlusSixteen(t - 3);
    PlusSixteen(t - 8);
    PlusSixteen(t - 14);
    PlusSixteen(t - 16);
  }

  lemma PlusSixteen(x: nat)
    ensures (x + 16) % 16 == x % 16
  {
  }

  lemma CircularApart(s: nat, t: nat)
    requires s < t < s + 16
    ensures s % 16 != t % 16
  {
  }

  lemma BlkIsSchedule(l: seq<Word>, m: seq<Word>, t: nat)
    requires Circular(l, m, t)
    ensures Blk(l, t) == Schedule(m, t)
  {
    hide Swap;
    hide Rotl;
    if 16 <= t {
      CircularIndex(t);
      assert Held(l, m, t - 3) && Held(l, m, t - 8) && Held(l, m, t - 14) && Held(l, m, t - 16);
    }
  }

  /** Round t reads word t of the schedule, and writes it where it belongs. */
  lemma CircularStep(l: seq<Word>, m: seq<Word>, t: nat)
    requires Circular(l, m, t)
    ensures Blk(l, t) == Schedule(m, t)
    ensures Circular(l[t % 16 := Blk(l, t)], m, t + 1)
  {
    hide Swap;
    hide Blk;
    hide Schedule;
    BlkIsSchedule(l, m, t);
    var l' := l[t % 16 := Blk(l, t)];
    forall s: nat | s < t + 1 <= s + 16
      ensures Held(l', m, s)
    {
      if s < t {
        CircularApart(s, t);
        assert Held(l, m, s);
      }
    }
  }

  // ---------------------------------------------------------------- words in bytes

  /** A word as this machine stores it: the least significant byte first. */
  function LittleEndian(b: seq<Byte>): Word
    requires |b| == 4
  {
    Little(b[0] as bv32, b[1] as bv32, b[2] as bv32, b[3] as bv32)
  }

  function Little(a: Word, b: Word, c: Word, d: Word): Word {
    a | (b << 8) | (c << 16) | (d << 24)
  }

  function Bytes(x: Word): (b: seq<Byte>)
    ensures |b| == 4
  {
    [Octet(x, 0), Octet(x, 1), Octet(x, 2), Octet(x, 3)]
  }

  lemma BytesRoundTrip(x: Word)
    ensures LittleEndian(Bytes(x)) == x
  {
  }

  lemma SwapWords(a: bv32, b: bv32, c: bv32, d: bv32)
    requires a < 256 && b < 256 && c < 256 && d < 256
    ensures Swap(Little(a, b, c, d)) == Big(a, b, c, d)
  {
  }

  lemma ByteSmall(b: Byte)
    ensures b as bv32 < 256
  {
  }

  /** blk0 makes a word of four bytes as the standard does. */
  lemma SwapIsBigEndian(b: seq<Byte>)
    requires |b| == 4
    ensures Swap(LittleEndian(b)) == BigEndian(b)
  {
    hide Swap;
    hide Little;
    hide Big;
    ByteSmall(b[0]);
    ByteSmall(b[1]);
    ByteSmall(b[2]);
    ByteSmall(b[3]);
    SwapWords(b[0] as bv32, b[1] as bv32, b[2] as bv32, b[3] as bv32);
  }

  /** A block of bytes as sixteen words of this machine. */
  function Words(block: seq<Byte>): (l: seq<Word>)
    requires |block| == 64
    ensures |l| == 16
  {
    seq(16, i requires 0 <= i < 16 => LittleEndian(block[4 * i..4 * i + 4]))
  }

  lemma ParseIsSwapped(block: seq<Byte>)
    requires |block| == 64
    ensures Circular(Words(block), Parse(block), 0)
  {
    hide Swap;
    hide LittleEndian;
    hide BigEndian;
    forall i: nat | i < 16
      ensures Swap(Words(block)[i]) == Parse(block)[i]
    {
      SwapIsBigEndian(block[4 * i..4 * i + 4]);
    }
  }

  /** Writing one word. */
  lemma WordsStore(block: seq<Byte>, i: nat, w: Word, block': seq<Byte>)
    requires |block| == |block'| == 64 && i < 16
    requires forall k :: 0 <= k < 64 ==> block'[k] == if 4 * i <= k < 4 * i + 4 then Bytes(w)[k - 4 * i] else block[k]
    ensures Words(block') == Words(block)[i := w]
  {
    hide LittleEndian;
    hide Bytes;
    forall j | 0 <= j < 16
      ensures Words(block')[j] == Words(block)[i := w][j]
    {
      if j == i {
        assert block'[4 * j..4 * j + 4] == Bytes(w);
        BytesRoundTrip(w);
      } else {
        assert block'[4 * j..4 * j + 4] == block[4 * j..4 * j + 4];
      }
    }
  }

  /** The last sixteen words of the schedule. */
  function LastWords(m: seq<Word>): seq<Word>
    requires |m| == 16
  {
    seq(16, i requires 0 <= i < 16 => Schedule(m, 64 + i))
  }

  lemma CircularEnd(l: seq<Word>, m: seq<Word>)
    requires Circular(l, m, 80)
    ensures l == LastWords(m)
  {
    hide Schedule;
    forall i | 0 <= i < 16
      ensures l[i] == LastWords(m)[i]
    {
      assert Held(l, m, 64 + i);
    }
  }

  // ---------------------------------------------------------------- in place

  function Block(data: array<Byte>, off: nat): (b: seq<Byte>)
    requires off + 64 <= data.Length
    reads data
    ensures |b| == 64
  {
    data[off..off + 64]
  }

  /** Only the block at off has changed. */
  ghost predicate OnlyBlock(was: seq<Byte>, now: seq<Byte>, off: nat) {
    && |now| == |was| && off + 64 <= |was|
    && forall k :: 0 <= k < |was| && !(off <= k < off + 64) ==> now[k] == was[k]
  }

  method Load(data: array<Byte>, off: nat, i: nat) returns (w: Word)
    requires off + 64 <= data.Length && i < 16
    ensures w == Words(Block(data, off))[i]
  {
    hide LittleEndian;
    var p := off + 4 * i;
    w := LittleEndian([data[p], data[p + 1], data[p + 2], data[p + 3]]);
    assert Block(data, off)[4 * i..4 * i + 4] == [data[p], data[p + 1], data[p + 2], data[p + 3]];
  }

  method Store(data: array<Byte>, off: nat, i: nat, w: Word)
    requires off + 64 <= data.Length && i < 16
    modifies data
    ensures Words(Block(data, off)) == Words(old(Block(data, off)))[i := w]
    ensures OnlyBlock(old(data[..]), data[..], off)
  {
    hide Words;
    hide Bytes;
    ghost var was := Block(data, off);
    var p := off + 4 * i;
    var b := Bytes(w);
    data[p], data[p + 1], data[p + 2], data[p + 3] := b[0], b[1], b[2], b[3];
    WordsStore(was, i, w, Block(data, off));
  }

  /** blk0 and blk. */
  method TakeBlk(data: array<Byte>, off: nat, t: nat) returns (w: Word)
    requires off + 64 <= data.Length
    modifies data
    ensures w == Blk(Words(old(Block(data, off))), t)
    ensures Words(Block(data, off)) == Words(old(Block(data, off)))[t % 16 := w]
    ensures OnlyBlock(old(data[..]), data[..], off)
  {
    hide Words;
    hide Swap;
    hide Rotl;
    if t < 16 {
      w := Load(data, off, t);
      w := Swap(w);
    } else {
      var w3 := Load(data, off, (t + 13) % 16);
      var w8 := Load(data, off, (t + 8) % 16);
      var w14 := Load(data, off, (t + 2) % 16);
      var w16 := Load(data, off, t % 16);
      w := Rotl(w3 ^ w8 ^ w14 ^ w16, 1);
    }
    Store(data, off, t % 16, w);
  }

  lemma OnlyBlockTwice(was: seq<Byte>, now: seq<Byte>, later: seq<Byte>, off: nat)
    requires OnlyBlock(was, now, off) && OnlyBlock(now, later, off)
    ensures OnlyBlock(was, later, off)
  {
  }

  /** Before round t: the registers, taken in the order of that round, and the block in memory. */
  ghost predicate Going(r: Hash, now: seq<Byte>, off: nat, t: nat, h: Hash, was: seq<Byte>) {
    && OnlyBlock(was, now, off)
    && var m := Parse(was[off..off + 64]);
       r == Rounds(h, m, t) && Circular(Words(now[off..off + 64]), m, t)
  }

  lemma GoingBegins(h: Hash, was: seq<Byte>, off: nat)
    requires off + 64 <= |was|
    ensures Going(h, was, off, 0, h, was)
  {
    hide Words;
    hide Parse;
    hide Circular;
    ParseIsSwapped(was[off..off + 64]);
  }

  lemma GoingStep(v: Word, w: Word, x: Word, y: Word, z: Word, now: seq<Byte>, later: seq<Byte>, off: nat, t: nat,
                  h: Hash, was: seq<Byte>)
    requires Going(Hash(v, w, x, y, z), now, off, t, h, was) && OnlyBlock(now, later, off)
    requires var l := Words(now[off..off + 64]); Words(later[off..off + 64]) == l[t % 16 := Blk(l, t)]
    ensures Going(Hash(MacroZ(t, v, w, x, y, z, Blk(Words(now[off..off + 64]), t)), v, Rotl(w, 30), x, y), later,
                  off, t + 1, h, was)
  {
    hide Words;
    hide Parse;
    hide Circular;
    hide Blk;
    hide Rotl;
    hide Schedule;
    hide Round;
    hide MacroZ;
    var m, l := Parse(was[off..off + 64]), Words(now[off..off + 64]);
    CircularStep(l, m, t);
    MacroIsRound(t, v, w, x, y, z, Blk(l, t));
    OnlyBlockTwice(was, now, later, off);
  }

  /** R0 to R4: one round, with its registers in any order. */
  method Macro(v: Word, w: Word, x: Word, y: Word, z: Word, t: nat, data: array<Byte>, off: nat, ghost h: Hash,
               ghost was: seq<Byte>)
    returns (w': Word, z': Word)
    requires off + 64 <= data.Length && Going(Hash(v, w, x, y, z), data[..], off, t, h, was)
    modifies data
    ensures Going(Hash(z', v, w', x, y), data[..], off, t + 1, h, was)
  {
    hide Words;
    hide Blk;
    hide Rotl;
    hide Going;
    hide MacroZ;
    ghost var now := data[..];
    assert now[off..off + 64] == Block(data, off);
    var blk := TakeBlk(data, off, t);
    assert data[..][off..off + 64] == Block(data, off);
    GoingStep(v, w, x, y, z, now, data[..], off, t, h, was);
    z' := MacroZ(t, v, w, x, y, z, blk);
    w' := Rotl(w, 30);
  }

  /** The hash value in the five words of a context. */
  ghost function StateOf(state: array<Word>): Hash
    requires state.Length == 5
    reads state
  {
    Hash(state[0], state[1], state[2], state[3], state[4])
  }

  lemma GoingEnds(r: Hash, now: seq<Byte>, off: nat, h: Hash, was: seq<Byte>)
    requires Going(r, now, off, 80, h, was)
    ensures OnlyBlock(was, now, off)
    ensures Add(h, r) == Compress(h, Parse(was[off..off + 64]))
    ensures Words(now[off..off + 64]) == LastWords(Parse(was[off..off + 64]))
  {
    hide Words;
    hide Parse;
    hide Circular;
    hide Rounds;
    CircularEnd(Words(now[off..off + 64]), Parse(was[off..off + 64]));
  }

  /** The eighty macro calls of the source, five at a time: after five the registers are back in order. */
  method Eighty(h: Hash, data: array<Byte>, off: nat) returns (r: Hash)
    requires off + 64 <= data.Length
    modifies data
    ensures Going(r, data[..], off, 80, h, old(data[..]))
  {
    hide Going;
    ghost var was := data[..];
    GoingBegins(h, was, off);
    var a, b, c, d, e := h.a, h.b, h.c, h.d, h.e;
    var t := 0;
    while t < 80
      invariant 0 <= t <= 80 && t % 5 == 0
      invariant Going(Hash(a, b, c, d, e), data[..], off, t, h, was)
    {
      b, e := Macro(a, b, c, d, e, t, data, off, h, was);
      a, d := Macro(e, a, b, c, d, t + 1, data, off, h, was);
      e, c := Macro(d, e, a, b, c, t + 2, data, off, h, was);
      d, b := Macro(c, d, e, a, b, t + 3, data, off, h, was);
      c, a := Macro(b, c, d, e, a, t + 4, data, off, h, was);
      t := t + 5;
    }
    r := Hash(a, b, c, d, e);
  }

  /** One block. The bytes of the block are overwritten with the last words of its schedule. */
  method Transform(state: array<Word>, data: array<Byte>, off: nat)
    requires state.Length == 5 && off + 64 <= data.Length
    modifies state, data
    ensures StateOf(state) == Compress(old(StateOf(state)), Parse(old(Block(data, off))))
    ensures Words(Block(data, off)) == LastWords(Parse(old(Block(data, off))))
    ensures OnlyBlock(old(data[..]), data[..], off)
  {
    hide Words;
    hide Going;
    hide Compress;
    hide OnlyBlock;
    hide Parse;
    hide Add;
    ghost var was := data[..];
    assert was[off..off + 64] == Block(data, off);
    var h := Hash(state[0], state[1], state[2], state[3], state[4]);
    var r := Eighty(h, data, off);
    assert data[..][off..off + 64] == Block(data, off);
    GoingEnds(r, data[..], off, h, was);
    AddTo(state, r);
  }

  method AddTo(state: array<Word>, r: Hash)
    requires state.Length == 5
    modifies state
    ensures StateOf(state) == Add(old(StateOf(state)), r)
  {
    hide Plus;
    state[0] := Plus(state[0], r.a);
    state[1] := Plus(state[1], r.b);
    state[2] := Plus(state[2], r.c);
    state[3] := Plus(state[3], r.d);
    state[4] := Plus(state[4], r.e);
  }
}
