/** The program that lays a FAT439 file system down on a zeroed image. */
module MakeFileSystem {
  import opened Collections
  import opened BlockDevice
  import opened FatModel
  import opened FileModel
  import opened Fat439FileSystem

  // ---------------------------------------------------------------- the free list

  /** The blocks that the link table takes. */
  function FatBlocks(n: int): int {
    (n * 4 + 511) / 512
  }

  /** The first block behind the table. */
  function FirstData(n: int): int {
    1 + FatBlocks(n)
  }

  /** The links that main writes on a zeroed image: every data block but the lowest points down. */
  function FormattedFat(n: nat): Fat {
    seq(n, i requires 0 <= i < n => if FirstData(n) < i then i - 1 else 0)
  }

  /** The numbers from hi down to lo. */
  function Down(hi: int, lo: int): (s: seq<int>)
    ensures |s| == if lo <= hi then hi - lo + 1 else 0
    ensures forall i :: 0 <= i < |s| ==> s[i] == hi - i
    decreases hi - lo
  {
    if hi < lo then [] else [hi] + Down(hi - 1, lo)
  }

  function Formatted(n: nat): Fs
    requires 0 < n
  {
    Fs(FormattedFat(n), n - 1, Down(n - 1, FirstData(n)), map[],
       seq(n, b requires 0 <= b < n => if b < FirstData(n) then RESERVED else FREE))
  }

  lemma FormattedPartition(n: nat)
    requires 3 <= n
    ensures 2 <= FirstData(n) < n && Partition(FirstData(n), Formatted(n))
    ensures 512 * (FirstData(n) - 2) < 4 * n <= 512 * (FirstData(n) - 1)
    ensures var free := Formatted(n).free;
            |free| == n - FirstData(n) && forall i :: 0 <= i < |free| ==> free[i] == n - 1 - i
  {
    var s := Formatted(n);
    forall i | 0 <= i < |s.free|
      ensures Link(s.fat, s.free, i)
    {
    }
    forall b | FirstData(n) <= b < n
      ensures b in s.free
    {
      assert s.free[n - 1 - b] == b;
    }
  }

  /** The table as written is a partition into one free list for every size of image but two blocks:
      there the list starts in the table itself. */
  lemma FormatExact(n: nat)
    requires 0 < n
    ensures (exists s ::
               Partition(FirstData(n), s) && s.fat == FormattedFat(n) && s.avail == n - 1 && s.files == map[])
            <==> n != 2
  {
    if n == 2 {
      if s :| Partition(FirstData(n), s) && s.fat == FormattedFat(n) && s.avail == n - 1 && s.files == map[] {
        AvailFacts(FirstData(n), s);
        assert false;
      }
    } else if n == 1 {
      assert Partition(FirstData(n), Formatted(n));
    } else {
      FormattedPartition(n);
    }
  }

  class Image {
    const dev: Device
    const fat: array<int>
    const first: int
    var avail: int
    ghost var fs: Fs

    /** Between files, the links form a partition of the data blocks. */
    ghost predicate Valid()
      reads this, fat
    {
      && dev.Valid() && dev.blockSize == BLOCK
      && fat.Length <= MAX_BLOCKS && fat.Length * BLOCK <= dev.disk.Length
      && fs.fat == fat[..] && fs.avail == avail
      && Partition(first, fs)
    }

    /** The loop of main that writes the free list. */
    constructor (dev: Device, nBlocks: int)
      requires dev.Valid() && dev.blockSize == BLOCK && 3 <= nBlocks <= MAX_BLOCKS && nBlocks * BLOCK <= dev.disk.Length
      ensures Valid() && this.dev == dev && fat.Length == nBlocks && first == FirstData(nBlocks)
              && fs == Formatted(nBlocks)
      ensures fresh(fat)
    {
      this.dev := dev;
      fat := new int[nBlocks](_ => 0);
      first := FirstData(nBlocks);
      avail := nBlocks - 1;
      fs := Formatted(nBlocks);
      new;
      FormattedPartition(nBlocks);
      var fatBlocks := (nBlocks * 4 + 511) / 512;
      var lastAvail := 1 + fatBlocks;
      var i := avail;
      while lastAvail < i
        invariant lastAvail <= i <= nBlocks - 1 && avail == nBlocks - 1 && fs == Formatted(nBlocks)
        invariant forall k :: 0 <= k < nBlocks ==> fat[k] == if i < k then k - 1 else 0
      {
        fat[i] := i - 1;
        i := i - 1;
      }
      assert fat[..] == FormattedFat(nBlocks);
    }

    /** 0 is the exit "disk is full". */
    method GetBlock() returns (idx: int)
      requires avail != 0 ==> 0 < avail < fat.Length
      modifies this`avail, fat
      ensures idx == old(avail)
      ensures idx == 0 ==> avail == old(avail) && fat[..] == old(fat[..])
      ensures idx != 0 ==> avail == old(fat[..])[idx] && fat[..] == old(fat[..])[idx := 0]
    {
      idx := avail;
      if idx != 0 {
        avail := fat[idx];
        fat[idx] := 0;
      }
    }

    /** The part of oneFile that links a new block behind the current one. */
    method NextBlock(ghost start: int, current: int) returns (b: int)
      requires Valid() && start in fs.files && fs.files[start] != [] && current == LastOf(fs, start)
      modifies this`avail, this`fs, fat
      ensures Valid() && b == old(avail) && (b == 0 ==> fs == old(fs) && fs.free == [])
      ensures b != 0 ==>
                && 0 < b == old(fs).avail < |old(fs).fat| && old(fs).free != [] && old(fs).free[0] == b
                && b < |old(fs).owner|
                && 0 <= LastOf(old(fs), start) < |old(fs).fat| && fs == Extend(old(fs), start)
    {
      hide Partition;
      AvailFacts(first, fs);
      LastFacts(first, fs, start);
      b := GetBlock();
      if b != 0 {
        fat[current] := b;
        ExtendPartition(first, fs, start);
        fs := Extend(fs, start);
      }
    }

    /** Copies one file into the image; `content` is what reading it yields, in pieces of any size. False
        is the exit "disk is full". */
    method OneFile(content: seq<byte>, uid: uint32, gid: uint32, permissions: uint32, now: uint32)
      returns (start: int, ok: bool)
      requires Valid() && |content| < U32
      modifies this`avail, this`fs, fat, dev.disk
      ensures ok <==> BlocksOf(|content| + 1) <= |old(fs).free|
      ensures !ok ==> avail == 0
      ensures ok ==>
                && Valid()
                && Copied(first, old(fs), fs, start, content, FileMeta(content, uid, gid, permissions, now),
                          old(dev.disk[..]), dev.disk[..])
                && 0 <= start && start * BLOCK + META <= dev.disk.Length
                && FileHeader(Decode(HeaderOf(dev.disk[..], start)), |content|, uid, gid, permissions, now)
    {
      hide Partition;
      hide Overlay;
      hide Content;
      hide OnDisk;
      hide OnlyBlocks;
      hide NoDup;
      hide Encode;
      hide Decode;
      hide HeaderOf;
      hide FileHeader;
      hide Copied;
      ghost var s0, disk0 := fs, dev.disk[..];
      AvailFacts(first, fs);
      start := GetBlock();
      if start == 0 {
        return 0, false;
      }
      TakePartition(first, fs);
      fs := Take(fs);
      CopyStart(first, s0, fs, disk0);
      var current, left, off, total := start, BLOCK - META, META, 0;
      while true
        invariant Valid() && Copying(first, s0, fs, start, content, total, disk0, dev.disk[..])
        invariant current == LastOf(fs, start) && 0 <= off && off + left == BLOCK && 0 <= left
        invariant META + total == (|fs.files[start]| - 1) * BLOCK + off
        decreases |content| - total
      {
        if left == 0 {
          ghost var s1 := fs;
          var b := NextBlock(start, current);
          if b == 0 {
            CopyStuck(first, s0, fs, start, content, total, disk0, dev.disk[..]);
            return 0, false;
          }
          CopyExtend(first, s0, s1, start, content, total, disk0, dev.disk[..]);
          current := b;
          off := 0;
          left := BLOCK;
        }
        if total == |content| {
          break;
        }
        var n :| 0 < n <= left && total + n <= |content|;
        CopyPiece(first, s0, fs, start, content, total, n, disk0, dev.disk[..]);
        Memcpy(dev.disk, current * BLOCK + off, content[total..total + n]);
        off := off + n;
        left := left - n;
        total := total + n;
      }
      CopyHeader(first, s0, fs, start, content, disk0, dev.disk[..], FileMeta(content, uid, gid, permissions, now));
      Memcpy(dev.disk, start * BLOCK, Encode(FileMeta(content, uid, gid, permissions, now)));
      HeaderMade(content, uid, gid, permissions, now);
      CopiedHeader(first, s0, fs, start, content, FileMeta(content, uid, gid, permissions, now), disk0, dev.disk[..]);
      ok := true;
    }
  }

  function FileMeta(content: seq<byte>, uid: uint32, gid: uint32, permissions: uint32, now: uint32): MetaData
    requires |content| < U32
  {
    MetaData(1, permissions, uid, gid, |content|, now, now, now, now)
  }

  /** The header of a file that is made, field by field. */
  predicate FileHeader(m: MetaData, size: int, uid: uint32, gid: uint32, permissions: uint32, now: uint32) {
    && m.kind == 1 && m.permissions == permissions && m.uid == uid && m.gid == gid && m.length == size
    && m.ctime == m.latime == m.lmtime == m.dtime == now
  }

  /** So is what the disk holds. */
  lemma HeaderMade(content: seq<byte>, uid: uint32, gid: uint32, permissions: uint32, now: uint32)
    requires |content| < U32
    ensures var m := Decode(Encode(FileMeta(content, uid, gid, permissions, now)));
            FileHeader(m, |content|, uid, gid, permissions, now)
  {
    MetaRoundTrip(FileMeta(content, uid, gid, permissions, now));
  }

  function LastOf(s: Fs, f: int): int
    requires f in s.files && s.files[f] != []
  {
    s.files[f][|s.files[f]| - 1]
  }

  /** A file under construction: `total` bytes of it are in place, its blocks have come from the head of the
      free list, and nothing else has changed. */
  ghost predicate Copying(first: int, s: Fs, s': Fs, start: int, content: seq<byte>, total: int, disk: seq<byte>,
                          disk': seq<byte>) {
    && Partition(first, s') && |s'.fat| == |s.fat| && |s.fat| * BLOCK <= |disk|
    && start !in s.files && start in s'.files && s'.files[start] != [] && s.free == s'.files[start] + s'.free
    && (forall g :: g in s.files ==> g in s'.files && s'.files[g] == s.files[g])
    && OnDisk(disk', s'.files[start]) && NoDup(s'.files[start])
    && OnlyBlocks(disk, disk', s'.files[start])
    && 0 <= total <= |content| && META + total <= BLOCK * |s'.files[start]|
    && Content(disk', s'.files[start], total) == content[..total]
  }

  /** A file that mkfs has made: its chain has one block for every 512 bytes begun, counting the header
      and a final byte. */
  ghost predicate Copied(first: int, s: Fs, s': Fs, start: int, content: seq<byte>, m: MetaData, disk: seq<byte>,
                         disk': seq<byte>) {
    && Copying(first, s, s', start, content, |content|, disk, disk')
    && |s'.files[start]| == BlocksOf(|content| + 1)
    && Content(disk', s'.files[start], |content|) == content
    && 0 <= start && start * BLOCK + META <= |disk'| && HeaderOf(disk', start) == Encode(m)
  }

  lemma CopiedHeader(first: int, s: Fs, s': Fs, start: int, content: seq<byte>, m: MetaData, disk: seq<byte>,
                     disk': seq<byte>)
    requires Copied(first, s, s', start, content, m, disk, disk')
    ensures 0 <= start && start * BLOCK + META <= |disk'| && HeaderOf(disk', start) == Encode(m)
  {
    hide Encode;
    hide Content;
    hide Partition;
  }

  lemma CopyStart(first: int, s: Fs, s': Fs, disk: seq<byte>)
    requires Partition(first, s) && 0 < s.avail < |s.fat| && s.free != [] && |s.owner| == |s.fat| && s' == Take(s)
    requires Partition(first, s') && |s.fat| * BLOCK <= |disk|
    ensures Copying(first, s, s', s.avail, [], 0, disk, disk)
    ensures forall content :: Copying(first, s, s', s.avail, content, 0, disk, disk)
  {
    hide Partition;
    AvailFacts(first, s);
    FileOnDisk(first, s', s.avail, disk);
  }

  /** All blocks are used and full. */
  lemma CopyStuck(first: int, s: Fs, s': Fs, start: int, content: seq<byte>, total: int, disk: seq<byte>,
                  disk': seq<byte>)
    requires Copying(first, s, s', start, content, total, disk, disk')
    requires s'.free == [] && META + total == |s'.files[start]| * BLOCK
    ensures |s.free| < BlocksOf(|content| + 1)
  {
    hide Partition;
    hide Content;
    hide OnDisk;
  }

  lemma CopyExtend(first: int, s: Fs, s': Fs, start: int, content: seq<byte>, total: int, disk: seq<byte>,
                   disk': seq<byte>)
    requires Copying(first, s, s', start, content, total, disk, disk')
    requires 0 < s'.avail < |s'.fat| && s'.free != [] && s'.avail < |s'.owner| && 0 <= LastOf(s', start) < |s'.fat|
    requires Partition(first, Extend(s', start)) && s'.free[0] == s'.avail
    ensures Copying(first, s, Extend(s', start), start, content, total, disk, disk')
    ensures Extend(s', start).files[start] == s'.files[start] + [s'.avail]
  {
    hide Partition;
    var s'' := Extend(s', start);
    FileOnDisk(first, s'', start, disk');
    SameContent(disk', s'.files[start], s''.files[start], total);
    assert forall b :: b in s'.files[start] ==> b in s''.files[start];
  }

  /** The next piece goes behind the bytes in place. */
  lemma CopyPiece(first: int, s: Fs, s': Fs, start: int, content: seq<byte>, total: int, n: int, disk: seq<byte>,
                  disk': seq<byte>)
    requires Copying(first, s, s', start, content, total, disk, disk')
    requires 0 < n && total + n <= |content|
    requires var off := META + total - (|s'.files[start]| - 1) * BLOCK; 0 <= off && off + n <= BLOCK
    ensures var off := META + total - (|s'.files[start]| - 1) * BLOCK;
            var at := LastOf(s', start) * BLOCK + off;
            && 0 <= at && at + n <= |disk'|
            && Copying(first, s, s', start, content, total + n, disk, Overlay(disk', at, content[total..total + n]))
  {
    hide Partition;
    hide NoDup;
    var c := s'.files[start];
    var q := |c| - 1;
    var off := META + total - q * BLOCK;
    var piece := content[total..total + n];
    var disk'' := Overlay(disk', c[q] * BLOCK + off, piece);
    assert META + total == q * BLOCK + off;
    PieceContent(disk', c, q, off, total, piece);
    assert content[..total] + piece == content[..total + n];
    PieceOnly(disk, disk', c, q, off, piece);
  }

  lemma PieceContent(disk: seq<byte>, c: seq<int>, q: int, off: int, total: int, piece: seq<byte>)
    requires OnDisk(disk, c) && NoDup(c) && q == |c| - 1 && 0 <= q && 0 <= off && off + |piece| <= BLOCK
    requires META + total == q * BLOCK + off && 0 <= total
    ensures var disk' := Overlay(disk, c[q] * BLOCK + off, piece);
            OnDisk(disk', c) && Content(disk', c, total + |piece|) == Content(disk, c, total) + piece
  {
    hide Place;
    var disk' := Overlay(disk, c[q] * BLOCK + off, piece);
    var got, want := Content(disk', c, total + |piece|), Content(disk, c, total) + piece;
    forall i | 0 <= i < total + |piece|
      ensures got[i] == want[i]
    {
      OverlayPlace(disk, c, q, off, piece, META + i);
    }
  }

  lemma PieceOnly(disk: seq<byte>, disk': seq<byte>, c: seq<int>, q: int, off: int, piece: seq<byte>)
    requires OnDisk(disk', c) && 0 <= q < |c| && 0 <= off && off + |piece| <= BLOCK && OnlyBlocks(disk, disk', c)
    ensures OnlyBlocks(disk, Overlay(disk', c[q] * BLOCK + off, piece), c)
  {
  }

  lemma CopyHeader(first: int, s: Fs, s': Fs, start: int, content: seq<byte>, disk: seq<byte>, disk': seq<byte>,
                   m: MetaData)
    requires Copying(first, s, s', start, content, |content|, disk, disk')
    requires |s'.files[start]| == BlocksOf(|content| + 1)
    ensures 0 <= start && start * BLOCK + META <= |disk'|
    ensures Copied(first, s, s', start, content, m, disk, Overlay(disk', start * BLOCK, Encode(m)))
  {
    hide Partition;
    hide Encode;
    var c, head := s'.files[start], Encode(m);
    FileOnDisk(first, s', start, disk');
    var disk'' := Overlay(disk', start * BLOCK, head);
    var got := Content(disk'', c, |content|);
    forall i | 0 <= i < |content|
      ensures got[i] == content[i]
    {
      OverlayPlace(disk', c, 0, 0, head, META + i);
      assert Content(disk', c, |content|)[i] == content[..|content|][i];
    }
    assert got == content && content[..|content|] == content;
    assert c[0] in c;
  }
}
