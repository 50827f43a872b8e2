/** Files as byte strings laid over chains of blocks behind a metadata header. */
module FileModel {
  import opened Collections
  import opened BlockDevice

  const BLOCK: int := 512
  const META: int := 36
  const MAX_BLOCKS: int := 0x80_0000
  const U32: int := 0x1_0000_0000

  // ---------------------------------------------------------------- metadata

  type uint32 = x: int | 0 <= x < U32

  datatype MetaData = MetaData(kind: uint32, permissions: uint32, uid: uint32, gid: uint32, length: uint32,
                               ctime: uint32, latime: uint32, lmtime: uint32, dtime: uint32)

  function Le32(x: uint32): (s: seq<byte>)
    ensures |s| == 4
  {
    [x % 0x100, x / 0x100 % 0x100, x / 0x1_0000 % 0x100, x / 0x100_0000]
  }

  function FromLe32(s: seq<byte>): uint32
    requires |s| == 4
  {
    var b0: int, b1: int, b2: int, b3: int := s[0], s[1], s[2], s[3];
    b0 + 0x100 * b1 + 0x1_0000 * b2 + 0x100_0000 * b3
  }

  /** Number k of some bytes, low byte first. */
  function Number(s: seq<byte>, k: nat): int
    requires 4 * k + 4 <= |s|
  {
    var b0: int, b1: int, b2: int, b3: int := s[4 * k], s[4 * k + 1], s[4 * k + 2], s[4 * k + 3];
    b0 + 0x100 * b1 + 0x1_0000 * b2 + 0x100_0000 * b3
  }

  lemma Le32RoundTrip(x: uint32)
    ensures FromLe32(Le32(x)) == x == Number(Le32(x), 0)
  {
    var q1 := x / 0x100;
    var q2 := q1 / 0x100;
    assert q2 == x / 0x1_0000 && q2 / 0x100 == x / 0x100_0000;
  }

  function Encode(m: MetaData): (s: seq<byte>)
    ensures |s| == META
  {
    Le32(m.kind) + Le32(m.permissions) + Le32(m.uid) + Le32(m.gid) + Le32(m.length)
    + Le32(m.ctime) + Le32(m.latime) + Le32(m.lmtime) + Le32(m.dtime)
  }

  function Decode(s: seq<byte>): MetaData
    requires |s| == META
  {
    MetaData(FromLe32(s[0..4]), FromLe32(s[4..8]), FromLe32(s[8..12]), FromLe32(s[12..16]), FromLe32(s[16..20]),
             FromLe32(s[20..24]), FromLe32(s[24..28]), FromLe32(s[28..32]), FromLe32(s[32..36]))
  }

  lemma MetaRoundTrip(m: MetaData)
    ensures Decode(Encode(m)) == m
  {
    hide Le32;
    hide FromLe32;
    var s := Encode(m);
    assert s[0..4] == Le32(m.kind) && s[4..8] == Le32(m.permissions) && s[8..12] == Le32(m.uid);
    assert s[12..16] == Le32(m.gid) && s[16..20] == Le32(m.length) && s[20..24] == Le32(m.ctime);
    assert s[24..28] == Le32(m.latime) && s[28..32] == Le32(m.lmtime) && s[32..36] == Le32(m.dtime);
    Le32RoundTrip(m.kind);
    Le32RoundTrip(m.permissions);
    Le32RoundTrip(m.uid);
    Le32RoundTrip(m.gid);
    Le32RoundTrip(m.length);
    Le32RoundTrip(m.ctime);
    Le32RoundTrip(m.latime);
    Le32RoundTrip(m.lmtime);
    Le32RoundTrip(m.dtime);
  }

  /** Where the fields of a header are on the disk. */
  lemma MetaLayout(m: MetaData)
    ensures var s := Encode(m);
            && Number(s, 0) == m.kind && Number(s, 1) == m.permissions && Number(s, 2) == m.uid
            && Number(s, 3) == m.gid && Number(s, 4) == m.length && Number(s, 5) == m.ctime
            && Number(s, 6) == m.latime && Number(s, 7) == m.lmtime && Number(s, 8) == m.dtime
  {
    hide Le32;
    hide FromLe32;
    Le32RoundTrip(m.kind);
    Le32RoundTrip(m.permissions);
    Le32RoundTrip(m.uid);
    Le32RoundTrip(m.gid);
    Le32RoundTrip(m.length);
    Le32RoundTrip(m.ctime);
    Le32RoundTrip(m.latime);
    Le32RoundTrip(m.lmtime);
    Le32RoundTrip(m.dtime);
  }

  lemma Le32Inverse(s: seq<byte>)
    requires |s| == 4
    ensures Le32(FromLe32(s)) == s
  {
    var b0: int, b1: int, b2: int, b3: int := s[0], s[1], s[2], s[3];
    var x := b0 + 0x100 * b1 + 0x1_0000 * b2 + 0x100_0000 * b3;
    assert x / 0x100 == b1 + 0x100 * (b2 + 0x100 * b3);
    assert x / 0x1_0000 == b2 + 0x100 * b3;
    DigitMod(b1, b2 + 0x100 * b3);
    DigitMod(b2, b3);
    DigitMod(b0, b1 + 0x100 * b2 + 0x1_0000 * b3);
  }

  lemma DigitMod(b: int, rest: int)
    requires 0 <= b < 0x100
    ensures (b + 0x100 * rest) % 0x100 == b
  {
  }

  /** Every 36 bytes are the header of some metadata. */
  lemma MetaInverse(s: seq<byte>)
    requires |s| == META
    ensures Encode(Decode(s)) == s
  {
    hide Le32;
    hide FromLe32;
    Le32Inverse(s[0..4]);
    Le32Inverse(s[4..8]);
    Le32Inverse(s[8..12]);
    Le32Inverse(s[12..16]);
    Le32Inverse(s[16..20]);
    Le32Inverse(s[20..24]);
    Le32Inverse(s[24..28]);
    Le32Inverse(s[28..32]);
    Le32Inverse(s[32..36]);
  }

  // ---------------------------------------------------------------- contents

  /** How many blocks the header and len bytes behind it take. */
  function BlocksOf(len: nat): nat {
    (META + len + BLOCK - 1) / BLOCK
  }

  /** The blocks of a chain lie on the disk. */
  ghost predicate OnDisk(disk: seq<byte>, chain: seq<int>) {
    forall i :: 0 <= i < |chain| ==> 0 <= chain[i] && chain[i] * BLOCK + BLOCK <= |disk|
  }

  /** Where byte k of the blocks of a chain is on the disk. */
  function Place(chain: seq<int>, k: int): int
    requires 0 <= k && k / BLOCK < |chain|
  {
    chain[k / BLOCK] * BLOCK + k % BLOCK
  }

  /** `len` bytes behind the header. */
  ghost function Content(disk: seq<byte>, chain: seq<int>, len: int): (c: seq<byte>)
    requires OnDisk(disk, chain) && 0 <= len && META + len <= BLOCK * |chain|
    ensures |c| == len
  {
    seq(len, i requires 0 <= i < len => disk[Place(chain, META + i)])
  }

  /** Writing s into block q of the chain at r changes exactly those bytes of the chain. */
  lemma OverlayPlace(disk: seq<byte>, chain: seq<int>, q: int, r: int, s: seq<byte>, k: int)
    requires OnDisk(disk, chain) && NoDup(chain) && 0 <= q < |chain| && 0 <= r && r + |s| <= BLOCK
    requires 0 <= k && k / BLOCK < |chain|
    ensures var p := q * BLOCK + r;
            Overlay(disk, chain[q] * BLOCK + r, s)[Place(chain, k)] ==
              if p <= k < p + |s| then s[k - p] else disk[Place(chain, k)]
  {
  }

  /** The disk after s has gone to byte p of a chain and the header to its first block. */
  function Written(disk: seq<byte>, chain: seq<int>, p: int, s: seq<byte>, head: seq<byte>): (r: seq<byte>)
    requires 0 <= p && p / BLOCK < |chain| && p % BLOCK + |s| <= BLOCK && |head| == META
    requires 0 <= chain[0] && chain[0] * BLOCK + BLOCK <= |disk|
    requires 0 <= chain[p / BLOCK] && chain[p / BLOCK] * BLOCK + BLOCK <= |disk|
    ensures |r| == |disk|
  {
    Overlay(Overlay(disk, chain[p / BLOCK] * BLOCK + p % BLOCK, s), chain[0] * BLOCK, head)
  }

  lemma WrittenByte(disk: seq<byte>, chain: seq<int>, p: int, s: seq<byte>, head: seq<byte>, k: int)
    requires OnDisk(disk, chain) && NoDup(chain) && META <= p && p / BLOCK < |chain| && p % BLOCK + |s| <= BLOCK
    requires |head| == META && META <= k && k / BLOCK < |chain|
    ensures Written(disk, chain, p, s, head)[Place(chain, k)] ==
              if p <= k < p + |s| then s[k - p] else disk[Place(chain, k)]
  {
    var disk1 := Overlay(disk, chain[p / BLOCK] * BLOCK + p % BLOCK, s);
    OverlayPlace(disk1, chain, 0, 0, head, k);
    OverlayPlace(disk, chain, p / BLOCK, p % BLOCK, s, k);
  }

  /** One write followed by the header: the contents are cut at the offset and continued with s. */
  lemma WriteContent(disk: seq<byte>, old_chain: seq<int>, chain: seq<int>, len: int, offset: int, s: seq<byte>,
                     head: seq<byte>)
    requires OnDisk(disk, chain) && NoDup(chain) && old_chain <= chain
    requires 0 <= offset <= len && META + len <= BLOCK * |old_chain| && |head| == META
    requires var p := META + offset; p / BLOCK < |chain| && p % BLOCK + |s| <= BLOCK
    ensures OnDisk(disk, old_chain) && META + offset + |s| <= BLOCK * |chain|
    ensures var disk2 := Written(disk, chain, META + offset, s, head);
            OnDisk(disk2, chain) &&
            Content(disk2, chain, offset + |s|) == Content(disk, old_chain, len)[..offset] + s
  {
    hide Written;
    hide Place;
    var disk2 := Written(disk, chain, META + offset, s, head);
    var new_content, want := Content(disk2, chain, offset + |s|), Content(disk, old_chain, len)[..offset] + s;
    forall i | 0 <= i < offset + |s|
      ensures new_content[i] == want[i]
    {
      WrittenByte(disk, chain, META + offset, s, head, META + i);
      if i < offset {
        SamePlace(old_chain, chain, META + i);
      }
    }
  }

  lemma SamePlace(old_chain: seq<int>, chain: seq<int>, k: int)
    requires old_chain <= chain && 0 <= k && k / BLOCK < |old_chain|
    ensures Place(chain, k) == Place(old_chain, k)
  {
  }

  /** A longer chain holds the same contents. */
  lemma SameContent(disk: seq<byte>, chain: seq<int>, longer: seq<int>, len: int)
    requires OnDisk(disk, chain) && OnDisk(disk, longer) && chain <= longer && 0 <= len && META + len <= BLOCK * |chain|
    ensures Content(disk, longer, len) == Content(disk, chain, len)
  {
    var a, b := Content(disk, longer, len), Content(disk, chain, len);
    forall i | 0 <= i < len
      ensures a[i] == b[i]
    {
      SamePlace(chain, longer, META + i);
    }
  }

  /** The block at position n of a chain; 0 behind its end. */
  function BlockAt(chain: seq<int>, n: int): int
    requires 0 <= n
  {
    if n < |chain| then chain[n] else 0
  }

  /** What a read of the block at an offset finds. */
  lemma ReadContent(disk: seq<byte>, chain: seq<int>, len: int, offset: int, m: int)
    requires OnDisk(disk, chain) && chain != [] && 0 <= offset && 0 <= m && offset + m <= len
             && META + len <= BLOCK * |chain|
    requires (META + offset) % BLOCK + m <= BLOCK
    ensures var p := META + offset; var at := BlockAt(chain, p / BLOCK) * BLOCK + p % BLOCK;
            && 0 <= at && at + m <= |disk|
            && disk[at..at + m] == Content(disk, chain, len)[offset..offset + m]
  {
    var p := META + offset;
    var at := BlockAt(chain, p / BLOCK) * BLOCK + p % BLOCK;
    assert 0 <= chain[0];
    var found, want := disk[at..at + m], Content(disk, chain, len)[offset..offset + m];
    forall i | 0 <= i < m
      ensures found[i] == want[i]
    {
      assert Place(chain, p + i) == at + i;
    }
  }

  // ---------------------------------------------------------------- other files

  /** Only bytes of the blocks of this chain differ. */
  ghost predicate OnlyBlocks(disk: seq<byte>, disk': seq<byte>, chain: seq<int>) {
    && |disk'| == |disk|
    && forall x {:trigger disk'[x]} :: 0 <= x < |disk| && x / BLOCK !in chain ==> disk'[x] == disk[x]
  }

  lemma WrittenOnlyBlocks(disk: seq<byte>, chain: seq<int>, p: int, s: seq<byte>, head: seq<byte>)
    requires OnDisk(disk, chain) && 0 <= p && p / BLOCK < |chain| && p % BLOCK + |s| <= BLOCK && |head| == META
    ensures OnlyBlocks(disk, Written(disk, chain, p, s, head), chain)
  {
    assert chain[0] in chain && chain[p / BLOCK] in chain;
  }

  lemma OtherContent(disk: seq<byte>, disk': seq<byte>, chain: seq<int>, other: seq<int>, len: int)
    requires OnlyBlocks(disk, disk', chain) && OnDisk(disk, other) && 0 <= len && META + len <= BLOCK * |other|
    requires forall b :: b in other ==> b !in chain
    ensures OnDisk(disk', other) && Content(disk', other, len) == Content(disk, other, len)
  {
    forall k | META <= k < META + len
      ensures disk'[Place(other, k)] == disk[Place(other, k)]
    {
      assert other[k / BLOCK] in other;
    }
  }

  /** The header of a file, as it is on the disk. */
  function HeaderOf(disk: seq<byte>, start: int): seq<byte>
    requires 0 <= start && start * BLOCK + META <= |disk|
  {
    disk[start * BLOCK..start * BLOCK + META]
  }

  lemma WrittenHeader(disk: seq<byte>, chain: seq<int>, p: int, s: seq<byte>, head: seq<byte>)
    requires OnDisk(disk, chain) && 0 <= p && p / BLOCK < |chain| && p % BLOCK + |s| <= BLOCK && |head| == META
    ensures HeaderOf(Written(disk, chain, p, s, head), chain[0]) == head
  {
  }
}
