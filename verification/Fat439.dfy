/** The FAT439 file system: the link table and the free list in memory, files on the device. */
module Fat439FileSystem {
  import opened Collections
  import opened BlockDevice
  import opened FatModel
  import opened FileModel

  const ERR_TOO_LONG: int := -1000

  class Fat439 {
    const dev: Device
    const fat: array<int>
    const first: int
    var avail: int
    ghost var fs: Fs

    /** The links form a partition of the data blocks, all of which are on the device; byte offsets on the
        device fit in 32 bits. */
    ghost predicate Linked()
      reads this, fat
    {
      && dev.Valid() && dev.blockSize == BLOCK
      && fat.Length <= MAX_BLOCKS && fat.Length * BLOCK <= dev.disk.Length
      && fs.fat == fat[..] && Partition(first, fs)
    }

    /** And the head of the free list belongs to it. */
    ghost predicate Valid()
      reads this, fat
    {
      Linked() && fs.avail == avail
    }

    constructor (dev: Device, fat: array<int>, first: int, avail: int, ghost fs: Fs)
      requires dev.Valid() && dev.blockSize == BLOCK
      requires fat.Length <= MAX_BLOCKS && fat.Length * BLOCK <= dev.disk.Length
      requires fs.fat == fat[..] && fs.avail == avail && Partition(first, fs)
      ensures Valid() && this.dev == dev && this.fat == fat && this.first == first && this.fs == fs
    {
      this.dev := dev;
      this.fat := fat;
      this.first := first;
      this.avail := avail;
      this.fs := fs;
    }

    /** The block behind `block`; at the end of the chain the first free block is linked there. False
        is the panic "not enough disk space". */
    method NextOrExtend(ghost f: int, ghost i: int, block: int) returns (next: int, ok: bool)
      requires Linked() && f in fs.files && 0 <= i < |fs.files[f]| && block == fs.files[f][i]
      requires i + 1 < |fs.files[f]| || fs.avail == avail
      modifies this`avail, this`fs, fat
      ensures Linked() && (old(fs.avail == avail) ==> fs.avail == avail)
      ensures old(i + 1 < |fs.files[f]|) ==> ok && fs == old(fs) && avail == old(avail)
      ensures old(i + 1 == |fs.files[f]|) ==>
                ok == (old(avail) != 0) && fs == if ok then ExtendOrNot(first, old(fs), f) else old(fs)
      ensures ok ==> f in fs.files && i + 1 < |fs.files[f]| && next == fs.files[f][i + 1]
    {
      hide Partition;
      LinkFacts(first, fs, f, i);
      AvailFacts(first, fs);
      next := fat[block];
      if next == 0 {
        if avail == 0 {
          return 0, false;
        }
        next := avail;
        avail := fat[next];
        fat[next] := 0;
        fat[block] := next;
        ExtendPartition(first, fs, f);
        fs := Extend(fs, f);
      }
      ok := true;
    }

    /** The loop of write that looks for block n of a file; at most one block is added. */
    method FindBlock(start: int, n: int) returns (block: int, ok: bool)
      requires Linked() && start in fs.files && 0 <= n <= |fs.files[start]|
      requires n < |fs.files[start]| || fs.avail == avail
      modifies this`avail, this`fs, fat
      ensures Linked() && fs == Reach(first, old(fs), start, n) && (old(fs.avail == avail) ==> fs.avail == avail)
      ensures n < |old(fs).files[start]| ==> avail == old(avail)
      ensures ok == (n < |old(fs).files[start]| || old(avail) != 0)
      ensures ok ==> start in fs.files && n < |fs.files[start]| && block == fs.files[start][n]
    {
      hide Partition;
      FileStart(first, fs, start);
      block := start;
      ghost var s := fs;
      for i := 0 to n
        invariant Linked() && fs == Reach(first, s, start, i) && (old(fs.avail == avail) ==> fs.avail == avail)
        invariant n < |s.files[start]| ==> avail == old(avail)
        invariant start in fs.files && i < |fs.files[start]| && block == fs.files[start][i]
      {
        block, ok := NextOrExtend(start, i, block);
        if !ok {
          return;
        }
      }
      ok := true;
    }

    /** Takes the first free block as the only block of a new file; 0 is the panic "not enough space". */
    method TakeBlock() returns (b: int)
      requires Valid()
      modifies this`avail, this`fs, fat
      ensures Valid() && b == old(avail)
      ensures b == 0 ==> fs == old(fs)
      ensures b != 0 ==>
                && 0 < b < |old(fs).fat| && |old(fs).owner| == |old(fs).fat|
                && old(fs).free != [] && fs == Take(old(fs))
    {
      hide Partition;
      AvailFacts(first, fs);
      b := avail;
      if b != 0 {
        TakePartition(first, fs);
        avail := fat[b];
        fat[b] := 0;
        fs := Take(fs);
      }
    }

    /** The loop of write that gives the blocks behind position n to the free list. The link of block n
        itself is left as it is. */
    method FreeTail(start: int, n: int, block: int)
      requires Valid() && start in fs.files && 0 <= n < |fs.files[start]| && block == fs.files[start][n]
      requires fs.files[start] != [] && 0 <= fs.files[start][|fs.files[start]| - 1] < |fs.fat|
      modifies this`avail, fat
      ensures (fat[..], avail) == Splice(fs, start, n)
    {
      hide Partition;
      ghost var last := |fs.files[start]| - 1;
      LinkFacts(first, fs, start, n);
      var b := fat[block];
      if b == 0 {
        return;
      }
      var tmp := avail;
      avail := b;
      ghost var i := n + 1;
      LinkFacts(first, fs, start, i);
      while fat[b] != 0
        invariant n < i <= last && b == fs.files[start][i]
        invariant avail == fs.files[start][n + 1] && fat[..] == fs.fat
        invariant 0 <= b < fat.Length && fs.fat[b] == After(fs.files[start], i)
        decreases last - i
      {
        b := fat[b];
        i := i + 1;
        LinkFacts(first, fs, start, i);
      }
      LinkFacts(first, fs, start, i);
      assert i == last;
      fat[b] := tmp;
      assert fat[..] == fs.fat[fs.files[start][last] := tmp];
    }
  }

  /** An open file: the first block, and the header as it was last read or written. */
  class OpenFile {
    const fs: Fat439
    const start: int
    var metaData: MetaData

    /** The chain is long enough for the length in the header, and the header in memory is the one on
        the device. */
    ghost predicate Chained()
      reads this, fs, fs.fat, fs.dev.disk
    {
      && fs.Linked()
      && start in fs.fs.files
      && META + metaData.length <= BLOCK * |fs.fs.files[start]|
      && 0 <= start && start * BLOCK + META <= fs.dev.disk.Length
      && HeaderOf(fs.dev.disk[..], start) == Encode(metaData)
    }

    ghost predicate Valid()
      reads this, fs, fs.fat, fs.dev.disk
    {
      Chained() && fs.Valid()
    }

    /** Reads the header from the device. */
    constructor (fs: Fat439, start: int)
      requires fs.Valid() && start in fs.fs.files && 0 <= start && start * BLOCK + META <= fs.dev.disk.Length
      requires META + Decode(HeaderOf(fs.dev.disk[..], start)).length <= BLOCK * |fs.fs.files[start]|
      ensures Valid() && this.fs == fs && this.start == start
      ensures metaData == Decode(HeaderOf(fs.dev.disk[..], start))
    {
      this.fs := fs;
      this.start := start;
      var header := new byte[META];
      fs.dev.ReadFully(start * BLOCK, header, 0, META);
      assert header[..] == HeaderOf(fs.dev.disk[..], start);
      MetaInverse(header[..]);
      metaData := Decode(header[..]);
    }

    /** The bytes of the file. */
    ghost function Contents(): seq<byte>
      reads this, fs, fs.fat, fs.dev.disk
      requires Chained()
      ensures |Contents()| == metaData.length
    {
      FileOnDisk(fs.first, fs.fs, start, fs.dev.disk[..]);
      Content(fs.dev.disk[..], fs.fs.files[start], metaData.length)
    }

    lemma ValidFacts()
      requires Valid()
      ensures fs.Valid() && Partition(fs.first, fs.fs) && start in fs.fs.files
      ensures META + metaData.length <= BLOCK * |fs.fs.files[start]|
      ensures 0 <= start < |fs.fs.fat| <= MAX_BLOCKS && |fs.fs.fat| * BLOCK <= fs.dev.disk.Length
      ensures start * BLOCK + META <= fs.dev.disk.Length && HeaderOf(fs.dev.disk[..], start) == Encode(metaData)
      ensures |Contents()| == metaData.length
    {
      FileStart(fs.first, fs.fs, start);
    }

    /** The file is not touched while another one grows. */
    lemma StillValid(s: Fs, disk: seq<byte>, other: int)
      requires fs.Valid() && start in s.files && other != start && 0 <= metaData.length
      requires Partition(fs.first, s) && |s.fat| * BLOCK <= |disk|
               && OnlyGrown(fs.first, s, fs.fs, other, disk, fs.dev.disk[..])
      requires META + metaData.length <= BLOCK * |s.files[start]|
      requires 0 <= start && start * BLOCK + META <= |disk| && HeaderOf(disk, start) == Encode(metaData)
      ensures Valid() && fs.fs.files[start] == s.files[start]
      ensures OnDisk(disk, s.files[start]) && Contents() == Content(disk, s.files[start], metaData.length)
    {
      hide Partition;
      hide Content;
      hide OnDisk;
      hide HeaderOf;
      hide Encode;
      GrownPartition(fs.first, s, fs.fs, other, disk, fs.dev.disk[..]);
      FilesDisjoint(fs.first, fs.fs, other, start);
      FileKept(fs.first, s, disk, fs.dev.disk[..], fs.fs.files[other], start, metaData.length);
    }

    /** At most n bytes from `offset` on: as far as the file and the block go. */
    method Read(offset: uint32, buf: array<byte>, at: nat, n: nat) returns (cnt: int)
      requires Chained() && at + n <= buf.Length && buf != fs.dev.disk
      modifies buf
      ensures offset > metaData.length ==> cnt == ERR_TOO_LONG && buf[..] == old(buf[..])
      ensures offset <= metaData.length ==>
                && cnt == Min(Min(n, metaData.length - offset), BLOCK - (META + offset) % BLOCK)
                && 0 <= cnt <= metaData.length - offset && cnt <= n
                && buf[..] == Overlay(old(buf[..]), at, old(Contents())[offset..offset + cnt])
    {
      hide Partition;
      hide Overlay;
      hide Content;
      hide OnDisk;
      hide HeaderOf;
      hide fs.dev.Room;
      if offset > metaData.length {
        return ERR_TOO_LONG;
      }
      var len := Min(n, metaData.length - offset);
      var actualOffset := offset + META;
      var blockInFile := actualOffset / BLOCK;
      var offsetInBlock := actualOffset % BLOCK;
      ghost var disk, chain := fs.dev.disk[..], fs.fs.files[start];
      FileOnDisk(fs.first, fs.fs, start, disk);
      var blockNumber := Seek(blockInFile);
      BlockOnDisk(fs.first, fs.fs, start, blockInFile, disk);
      SectorRoom(fs.dev, blockNumber, offsetInBlock);
      cnt := fs.dev.Read(blockNumber * BLOCK + offsetInBlock, buf, at, len);
      ReadContent(disk, chain, metaData.length, offset, cnt);
    }

    /** Writes at most one block's worth of data and cuts the file behind it. False is the panic "not
        enough disk space". */
    method Write(offset: uint32, data: seq<byte>, ghost whole: bool) returns (cnt: int, ok: bool)
      requires if whole then Valid() else Chained() && Onward(fs.fs, start, offset, metaData.length)
      modifies this`metaData, fs`avail, fs`fs, fs.fat, fs.dev.disk
      ensures WriteOutcome(fs.first, old(fs.fs), fs.fs, start, offset, data, cnt, ok, old(metaData), metaData,
                           old(fs.dev.disk[..]), fs.dev.disk[..], fs.fat[..], if whole then fs.avail else fs.fs.avail)
      ensures !whole ==> fs.avail == old(fs.avail)
    {
      hide Partition;
      hide Overlay;
      hide Content;
      hide OnDisk;
      hide HeaderOf;
      hide Reach;
      hide WriteEffect;
      hide Encode;
      hide Splice;
      hide Grown;
      if offset > metaData.length {
        return ERR_TOO_LONG, true;
      }
      var actualOffset := offset + META;
      var blockInFile := actualOffset / BLOCK;
      var offsetInBlock := actualOffset % BLOCK;
      ReachFacts(fs.first, fs.fs, start, blockInFile);
      var blockNumber;
      blockNumber, ok := fs.FindBlock(start, blockInFile);
      if !ok {
        return 0, false;
      }
      cnt := WriteAt(offset, blockNumber, data, whole);
    }

    /** The part of write behind the search for the block. */
    method WriteAt(offset: uint32, block: int, data: seq<byte>, ghost whole: bool) returns (cnt: int)
      requires if whole then fs.Valid() && offset <= metaData.length else fs.Linked() && offset == metaData.length
      requires start in fs.fs.files && (META + offset) / BLOCK < |fs.fs.files[start]|
      requires block == fs.fs.files[start][(META + offset) / BLOCK]
      modifies this`metaData, fs`avail, fs.fat, fs.dev.disk
      ensures WriteEffect(fs.fs, start, offset, data, cnt, old(metaData), metaData,
                          old(fs.dev.disk[..]), fs.dev.disk[..], fs.fat[..], if whole then fs.avail else fs.fs.avail)
      ensures !whole ==> fs.avail == old(fs.avail)
    {
      hide Partition;
      hide Overlay;
      hide OnDisk;
      hide Splice;
      hide Encode;
      hide WriteEffect;
      var n, r := (META + offset) / BLOCK, (META + offset) % BLOCK;
      ghost var s, disk := fs.fs, fs.dev.disk[..];
      WriteFacts(fs.first, s, start, offset, disk);
      SectorRoom(fs.dev, block, r);
      cnt := fs.dev.Write(block * BLOCK + r, data);
      ghost var m, disk1 := metaData, fs.dev.disk[..];
      var newLength := offset + cnt;
      if newLength < metaData.length {
        fs.FreeTail(start, n, block);
      }
      metaData := Stamped(metaData, newLength);
      SectorRoom(fs.dev, start, 0);
      var _ := fs.dev.Write(start * BLOCK, Encode(metaData));
      WriteAssembled(fs.first, s, start, offset, data, cnt, m, metaData, disk, disk1, fs.dev.disk[..], fs.fat[..],
                     if whole then fs.avail else s.avail);
    }

    /** Reads on until n bytes or the end of the file. */
    method ReadFully(offset: uint32, buf: array<byte>, at: nat, n: nat) returns (done: int)
      requires Chained() && at + n <= buf.Length && buf != fs.dev.disk
      modifies buf
      ensures offset > metaData.length && 0 < n ==> done == ERR_TOO_LONG && buf[..] == old(buf[..])
      ensures offset <= metaData.length ==>
                && done == Min(n, metaData.length - offset)
                && buf[..] == Overlay(old(buf[..]), at, old(Contents())[offset..offset + done])
      ensures n == 0 ==> done == 0 && buf[..] == old(buf[..])
    {
      hide OpenFile.Chained;
      hide Overlay;
      hide OpenFile.Contents;
      ghost var content, before := Contents(), buf[..];
      if n == 0 {
        EmptyOverlay(before, at, content, offset);
        return 0;
      }
      done := 0;
      while done < n
        invariant 0 <= done <= n && Chained() && Contents() == content && unchanged(this)
        invariant offset <= metaData.length ==>
                    offset + done <= metaData.length && buf[..] == Overlay(before, at, content[offset..offset + done])
        invariant offset > metaData.length ==> done == 0 && buf[..] == before
      {
        EmptyOverlay(before, at, content, offset);
        var cnt := Read(offset + done, buf, at + done, n - done);
        if cnt < 0 {
          return cnt;
        }
        if cnt == 0 {
          return;
        }
        ReadOn(before, at, content, offset, done, cnt);
        done := done + cnt;
      }
    }

    /** write of at least one byte. It may free blocks of the file: the links then still run through all of
        them, and through the free blocks behind them. whole says that this has not happened before. */
    method WriteSome(offset: uint32, data: seq<byte>, ghost whole: bool) returns (cnt: int, ok: bool)
      requires data != []
      requires if whole then Valid() else Chained() && Onward(fs.fs, start, offset, metaData.length)
      modifies this`metaData, fs`avail, fs`fs, fs.fat, fs.dev.disk
      ensures Chained() && start in fs.fs.files
      ensures whole && !Cuts(old(fs.fs), start, offset, |data|, old(metaData.length)) ==>
                Valid() && OnlyGrown(fs.first, old(fs.fs), fs.fs, start, old(fs.dev.disk[..]), fs.dev.disk[..])
      ensures whole && Cuts(old(fs.fs), start, offset, |data|, old(metaData.length)) ==>
                && ok && IsCut(old(fs.fs), fs.fs, start, offset, fs.avail)
                && OnlyBlocks(old(fs.dev.disk[..]), fs.dev.disk[..], fs.fs.files[start])
      ensures !whole ==>
                && ok && fs.fs == old(fs.fs) && fs.avail == old(fs.avail)
                && OnlyBlocks(old(fs.dev.disk[..]), fs.dev.disk[..], fs.fs.files[start])
      ensures offset > old(metaData.length) ==> ok && cnt == ERR_TOO_LONG
      ensures cnt < 0 || !ok ==> metaData == old(metaData) && fs.fs == old(fs.fs) && Contents() == old(Contents())
      ensures !ok ==> offset <= metaData.length && fs.avail == 0 && Stuck(fs.fs, start, (META + offset) / BLOCK + 1)
      ensures offset <= old(metaData.length) && ok ==>
                && 0 < cnt == Min(|data|, BLOCK - (META + offset) % BLOCK) && metaData.length == offset + cnt
                && Contents() == old(Contents())[..offset] + data[..cnt]
                && Headed(old(metaData), metaData, fs.dev.disk[..], start, offset + cnt)
      ensures whole && ok && offset <= old(metaData.length)
              && !Cuts(old(fs.fs), start, offset, |data|, old(metaData.length)) ==>
                Lengthened(old(fs.fs), fs.fs, start, (META + offset) / BLOCK + 1)
    {
      hide Partition;
      hide Content;
      hide OnDisk;
      hide HeaderOf;
      hide TouchedOnDisk;
      hide Encode;
      hide WriteOutcome;
      hide OnlyGrown;
      hide OnlyBlocks;
      hide FreesTail;
      hide Lengthened;
      hide Stuck;
      hide Aliased;
      ghost var s, disk, m := fs.fs, fs.dev.disk[..], metaData;
      cnt, ok := Write(offset, data, whole);
      ghost var disk', avail' := fs.dev.disk[..], if whole then fs.avail else fs.fs.avail;
      if whole && Cuts(s, start, offset, |data|, m.length) {
        WriteCuts(fs.first, s, fs.fs, start, offset, data, cnt, ok, m, metaData, disk, disk', fs.fat[..], avail');
        fs.fs := Aliased(s, start, (META + offset) / BLOCK);
      } else {
        OnwardKeeps(s, start, offset, |data|, m.length);
        WriteKept(fs.first, s, fs.fs, start, offset, data, cnt, ok, m, metaData, disk, disk', fs.fat[..], avail');
        OnwardSame(fs.first, s, fs.fs, start, offset, data, cnt, ok, m, metaData, disk, disk', fs.fat[..], avail');
        GrownPartition(fs.first, s, fs.fs, start, disk, disk');
      }
    }

    /** Writes on until all of the data is written. False is the panic "not enough disk space". If the first
        write frees blocks of the file, the rest goes along the old links; the partition is lost, and the
        caller must not write more than fits into the blocks of the file and the free ones. */
    method WriteFully(offset: uint32, data: seq<byte>) returns (done: int, ok: bool)
      requires Valid()
      requires data != [] && Cuts(fs.fs, start, offset, |data|, metaData.length) ==>
                 Missing(fs.fs, start, BlocksOf(offset + |data|)) <= |fs.fs.free|
      modifies this`metaData, fs`avail, fs`fs, fs.fat, fs.dev.disk
      ensures Chained()
      ensures data == [] || !Cuts(old(fs.fs), start, offset, |data|, old(metaData.length)) ==>
                Valid() && OnlyGrown(fs.first, old(fs.fs), fs.fs, start, old(fs.dev.disk[..]), fs.dev.disk[..])
      ensures data != [] && Cuts(old(fs.fs), start, offset, |data|, old(metaData.length)) ==>
                && ok && IsCut(old(fs.fs), fs.fs, start, offset, fs.avail)
                && OnlyBlocks(old(fs.dev.disk[..]), fs.dev.disk[..], fs.fs.files[start])
      ensures offset > old(metaData.length) && data != [] ==>
                ok && done == ERR_TOO_LONG && Contents() == old(Contents()) && fs.fs == old(fs.fs)
      ensures data == [] ==> ok && done == 0 && Contents() == old(Contents())
      ensures offset <= old(metaData.length) && data != [] && ok ==>
                && done == |data| && Contents() == old(Contents())[..offset] + data
                && Headed(old(metaData), metaData, fs.dev.disk[..], start, offset + |data|)
                && (!Cuts(old(fs.fs), start, offset, |data|, old(metaData.length)) ==>
                      Lengthened(old(fs.fs), fs.fs, start, BlocksOf(offset + |data|)))
      ensures ok <==> data == [] || offset > old(metaData.length)
                      || Missing(old(fs.fs), start, BlocksOf(offset + |data|)) <= |old(fs.fs).free|
      ensures !ok ==> fs.avail == 0
    {
      hide Partition;
      hide Content;
      hide OnDisk;
      hide HeaderOf;
      hide Headed;
      hide Encode;
      hide WriteOutcome;
      hide OnlyGrown;
      hide OnlyBlocks;
      hide WrittenTo;
      hide BlocksOf;
      hide Missing;
      hide Lengthened;
      hide Stuck;
      hide Cuts;
      hide IsCut;
      hide Onward;
      hide OpenFile.Chained;
      ghost var s0, disk0, content, m0, len := fs.fs, fs.dev.disk[..], Contents(), metaData, metaData.length;
      ghost var cuts, whole := Cuts(s0, start, offset, |data|, len), true;
      ValidFacts();
      GrownNothing(fs.first, s0, start, disk0);
      WriteStarts(s0, start, offset);
      done := 0;
      ok := true;
      while done < |data|
        invariant 0 <= done <= |data| && ok && Chained() && (whole <==> !(cuts && 0 < done))
        invariant whole ==>
                    && Valid() && WrittenTo(s0, fs.fs, start, offset, done)
                    && OnlyGrown(fs.first, s0, fs.fs, start, disk0, fs.dev.disk[..])
        invariant !whole ==>
                    && IsCut(s0, fs.fs, start, offset, fs.avail)
                    && start in fs.fs.files && OnlyBlocks(disk0, fs.dev.disk[..], fs.fs.files[start])
        invariant done == 0 ==> Contents() == content && metaData == old(metaData) && fs.fs == s0
        invariant done == 0 ==> fs.dev.disk[..] == disk0
        invariant 0 < done ==>
                    && offset <= len && metaData.length == offset + done
                    && Contents() == content[..offset] + data[..done]
                    && Headed(m0, metaData, fs.dev.disk[..], start, offset + done)
      {
        var cnt;
        ghost var s1, disk1 := fs.fs, fs.dev.disk[..];
        if 0 < done {
          NotAgain(s1, start, offset + done, |data| - done, metaData.length);
        }
        if !whole {
          CutOnward(s0, s1, start, offset, done, |data|, metaData.length, fs.avail);
        }
        ghost var m1, before := metaData, Contents();
        cnt, ok := WriteSome(offset + done, data[done..], whole);
        if whole && !cuts {
          GrownTwice(fs.first, s0, s1, fs.fs, start, disk0, disk1, fs.dev.disk[..]);
        }
        if !ok {
          WriteStuck(s0, s1, start, offset, done, |data|);
          return;
        }
        if cnt < 0 {
          return cnt, true;
        }
        if whole && !cuts {
          WriteStep(s0, s1, fs.fs, start, offset, done, cnt);
        } else {
          OnlyTwice(disk0, disk1, fs.dev.disk[..], fs.fs.files[start]);
          whole := false;
        }
        HeadedTwice(m0, m1, metaData, disk1, fs.dev.disk[..], start, offset + done, offset + done + cnt);
        WrittenOn(content, before, offset, data, done, cnt);
        done := done + cnt;
      }
      if data != [] && !cuts {
        WriteEnds(s0, fs.fs, start, offset, done);
      }
    }

    /** The block at position n of the chain; 0 just behind the chain. */
    method Seek(n: int) returns (block: int)
      requires fs.Linked() && start in fs.fs.files && 0 <= n <= |fs.fs.files[start]|
      ensures block == BlockAt(fs.fs.files[start], n)
    {
      hide Partition;
      FileStart(fs.first, fs.fs, start);
      block := start;
      for i := 0 to n
        invariant block == BlockAt(fs.fs.files[start], i)
      {
        LinkFacts(fs.first, fs.fs, start, i);
        block := fs.fat[block];
      }
    }
  }

  /** Data written up to done, and then on by cnt bytes. */
  lemma WrittenOn(content: seq<byte>, before: seq<byte>, offset: int, data: seq<byte>, done: int, cnt: int)
    requires 0 <= offset <= |content| && 0 <= done <= done + cnt <= |data|
    requires before == if done == 0 then content else content[..offset] + data[..done]
    ensures offset + done <= |before|
    ensures before[..offset + done] + data[done..][..cnt] == content[..offset] + data[..done + cnt]
  {
    assert data[..done] + data[done..][..cnt] == data[..done + cnt];
  }

  lemma SectorRoom(dev: Device, b: int, r: int)
    requires dev.blockSize == BLOCK && 0 <= b && 0 <= r < BLOCK
    ensures dev.Room(b * BLOCK + r) == BLOCK - r
  {
  }

  lemma BlockOnDisk(first: int, s: Fs, f: int, n: int, disk: seq<byte>)
    requires Partition(first, s) && f in s.files && |s.fat| * BLOCK <= |disk| && 0 <= n
    ensures var b := BlockAt(s.files[f], n); 0 <= b && b * BLOCK + BLOCK <= |disk|
  {
  }

  /** The blocks of a file lie on the device, and no two are the same. */
  lemma FileOnDisk(first: int, s: Fs, f: int, disk: seq<byte>)
    requires Partition(first, s) && f in s.files && |s.fat| * BLOCK <= |disk|
    ensures s.files[f] != [] && s.files[f][0] == f && OnDisk(disk, s.files[f]) && NoDup(s.files[f])
    ensures |s.files[f]| <= |s.fat|
  {
    FileStart(first, s, f);
    FileDistinct(first, s, f);
  }

  /** How many blocks a file has not got of the first n. */
  function Missing(s: Fs, f: int, n: int): nat
    requires f in s.files
  {
    if n <= |s.files[f]| then 0 else n - |s.files[f]|
  }

  /** File f has been made to have n blocks: what was missing has come from the head of the free list. */
  ghost predicate Lengthened(s: Fs, s': Fs, f: int, n: int) {
    && f in s.files && f in s'.files && Missing(s, f, n) <= |s.free|
    && s'.files[f] == s.files[f] + s.free[..Missing(s, f, n)]
    && s'.free == s.free[Missing(s, f, n)..]
  }

  /** A file has not got n blocks, and there is none to be had. */
  ghost predicate Stuck(s: Fs, f: int, n: int) {
    f in s.files && 0 < Missing(s, f, n) && s.free == []
  }

  lemma LengthenedTwice(s: Fs, s1: Fs, s2: Fs, f: int, m: int, n: int)
    requires Lengthened(s, s1, f, m) && Lengthened(s1, s2, f, n) && m <= n
    ensures Lengthened(s, s2, f, n)
  {
    var k := Missing(s, f, m);
    assert s.free[..k] + s.free[k..][..Missing(s1, f, n)] == s.free[..Missing(s, f, n)];
  }

  /** The file has the blocks for the bytes written so far. */
  ghost predicate WrittenTo(s: Fs, s': Fs, f: int, offset: nat, done: nat) {
    if done == 0 then f in s.files && s' == s else Lengthened(s, s', f, BlocksOf(offset + done))
  }

  lemma WriteStarts(s: Fs, f: int, offset: nat)
    requires f in s.files
    ensures WrittenTo(s, s, f, offset, 0)
  {
  }

  lemma WriteStep(s: Fs, s1: Fs, s2: Fs, f: int, offset: nat, done: nat, cnt: nat)
    requires WrittenTo(s, s1, f, offset, done) && Lengthened(s1, s2, f, (META + offset + done) / BLOCK + 1)
    requires 0 < cnt <= BLOCK - (META + offset + done) % BLOCK
    ensures WrittenTo(s, s2, f, offset, done + cnt)
  {
    hide Lengthened;
    hide Missing;
    EndInBlock(META + offset + done, cnt);
    if done > 0 {
      NextInBlock(META + offset + done);
      LengthenedTwice(s, s1, s2, f, BlocksOf(offset + done), (META + offset + done) / BLOCK + 1);
    }
  }

  lemma EndInBlock(p: nat, cnt: nat)
    requires 0 < cnt <= BLOCK - p % BLOCK
    ensures (p + cnt + BLOCK - 1) / BLOCK == p / BLOCK + 1
  {
  }

  lemma NextInBlock(p: nat)
    ensures (p + BLOCK - 1) / BLOCK <= p / BLOCK + 1
  {
  }

  lemma WriteEnds(s: Fs, s': Fs, f: int, offset: nat, total: nat)
    requires WrittenTo(s, s', f, offset, total) && 0 < total
    ensures Lengthened(s, s', f, BlocksOf(offset + total)) && Missing(s, f, BlocksOf(offset + total)) <= |s.free|
  {
  }

  lemma WriteStuck(s: Fs, s1: Fs, f: int, offset: nat, done: nat, total: nat)
    requires WrittenTo(s, s1, f, offset, done) && done < total && Stuck(s1, f, (META + offset + done) / BLOCK + 1)
    ensures f in s.files && |s.free| < Missing(s, f, BlocksOf(offset + total))
  {
    assert (META + offset + done) / BLOCK + 1 <= BlocksOf(offset + total);
  }

  /** The state in which file f has a block n, if there is one to be had. */
  ghost function Reach(first: int, s: Fs, f: int, n: int): Fs
    requires Partition(first, s) && f in s.files
  {
    if n < |s.files[f]| then s else ExtendOrNot(first, s, f)
  }

  /** s' is s, or s with one free block put behind the chain of f; other files are left alone. */
  ghost predicate Grown(first: int, s: Fs, f: int, s': Fs) {
    && Partition(first, s') && |s'.fat| == |s.fat|
    && f in s.files && f in s'.files && s.files[f] <= s'.files[f]
    && (forall g :: g in s.files && g != f ==> g in s'.files && s'.files[g] == s.files[g])
    && |s'.files[f]| <= |s.files[f]| + 1 && |s'.files[f]| - |s.files[f]| <= |s.free|
    && s'.free == s.free[|s'.files[f]| - |s.files[f]|..]
  }

  /** Reaching a block keeps the partition and adds at most that block. */
  lemma ReachFacts(first: int, s: Fs, f: int, n: int)
    requires Partition(first, s) && f in s.files && 0 <= n <= |s.files[f]|
    ensures var s' := Reach(first, s, f, n);
            && Grown(first, s, f, s')
            && (n < |s.files[f]| || s.avail == 0 ==> s' == s)
            && (n < |s.files[f]| || s.avail != 0 ==> n < |s'.files[f]| && Lengthened(s, s', f, n + 1))
  {
    hide Partition;
    AvailFacts(first, s);
    assert s.free[0..] == s.free && s.files[f] + s.free[..0] == s.files[f];
    if n == |s.files[f]| && s.avail != 0 {
      ExtendPartition(first, s, f);
    }
  }

  /** What one write leaves behind: s is the state in which the block written has been reached. */
  ghost predicate WriteEffect(s: Fs, start: int, offset: int, data: seq<byte>, cnt: int, m: MetaData, m': MetaData,
                              disk: seq<byte>, disk': seq<byte>, fat': Fat, avail': int)
  {
    var p := META + offset;
    && start in s.files && 0 <= offset && p / BLOCK < |s.files[start]| && OnDisk(disk, s.files[start])
    && cnt == Min(|data|, BLOCK - p % BLOCK) && 0 <= cnt && offset + cnt < U32
    && m' == Stamped(m, offset + cnt)
    && disk' == Written(disk, s.files[start], p, data[..cnt], Encode(m'))
    && 0 <= s.files[start][|s.files[start]| - 1] < |s.fat|
    && (fat', avail') == if offset + cnt < m.length then Splice(s, start, p / BLOCK) else (s.fat, s.avail)
  }

  lemma EmptyOverlay(a: seq<byte>, at: int, content: seq<byte>, offset: int)
    requires 0 <= at <= |a|
    ensures 0 <= offset <= |content| ==> Overlay(a, at, content[offset..offset]) == a
  {
  }

  lemma ReadOn(a: seq<byte>, at: nat, content: seq<byte>, offset: nat, done: nat, cnt: nat)
    requires offset + done + cnt <= |content| && at + done + cnt <= |a|
    ensures var read, piece := content[offset..offset + done], content[offset + done..offset + done + cnt];
            Overlay(Overlay(a, at, read), at + done, piece) == Overlay(a, at, content[offset..offset + done + cnt])
  {
    OverlayTwice(a, at, content[offset..offset + done], content[offset + done..offset + done + cnt]);
    assert content[offset..offset + done] + content[offset + done..offset + done + cnt]
           == content[offset..offset + done + cnt];
  }

  /** One write frees blocks of the file. */
  ghost predicate FreesTail(s: Fs, start: int, offset: int, cnt: int, len: int) {
    start in s.files && 0 <= offset && offset + cnt < len && (META + offset) / BLOCK + 1 < |s.files[start]|
  }

  /** All that a call of write can leave behind. */
  ghost predicate WriteOutcome(first: int, s: Fs, s': Fs, start: int, offset: int, data: seq<byte>, cnt: int, ok: bool,
                               m: MetaData, m': MetaData, disk: seq<byte>, disk': seq<byte>, fat': Fat, avail': int)
  {
    Partition(first, s) && start in s.files &&
    if offset > m.length then cnt == ERR_TOO_LONG && ok && Unchanged(s, s', m, m', disk, disk', fat', avail')
    else if !ok then
      Unchanged(s, s', m, m', disk, disk', fat', avail') && avail' == 0 && (META + offset) / BLOCK == |s.files[start]|
    else
      && s' == Reach(first, s, start, (META + offset) / BLOCK)
      && WriteEffect(s', start, offset, data, cnt, m, m', disk, disk', fat', avail')
  }

  ghost predicate Unchanged(s: Fs, s': Fs, m: MetaData, m': MetaData, disk: seq<byte>, disk': seq<byte>, fat': Fat,
                            avail': int) {
    s' == s && m' == m && disk' == disk && fat' == s.fat && avail' == s.avail
  }

  /** What a write does to a header, on the disk too: the length, and two times that are not known. */
  ghost predicate Touched(m: MetaData, m': MetaData, length: int) {
    && m'.kind == m.kind && m'.permissions == m.permissions && m'.uid == m.uid && m'.gid == m.gid
    && m'.ctime == m.ctime && m'.dtime == m.dtime
    && m'.length == length && m'.latime == 0xffff_ffff && m'.lmtime == 0xffff_ffff
  }

  ghost predicate TouchedOnDisk(m: MetaData, disk': seq<byte>, start: int, length: int) {
    0 <= start && start * BLOCK + META <= |disk'| && Touched(m, Decode(HeaderOf(disk', start)), length)
  }

  lemma HeaderTouched(m: MetaData, m': MetaData, disk': seq<byte>, start: int, length: int)
    requires Touched(m, m', length)
    requires 0 <= start && start * BLOCK + META <= |disk'| && HeaderOf(disk', start) == Encode(m')
    ensures TouchedOnDisk(m, disk', start, length)
  {
    MetaRoundTrip(m');
  }

  /** The header in memory and the one on the disk. */
  ghost predicate Headed(m: MetaData, m': MetaData, disk': seq<byte>, start: int, length: int) {
    Touched(m, m', length) && TouchedOnDisk(m, disk', start, length)
  }

  lemma HeadedTwice(m: MetaData, m1: MetaData, m2: MetaData, disk1: seq<byte>, disk2: seq<byte>, start: int, n1: int,
                    n2: int)
    requires m1 == m || Headed(m, m1, disk1, start, n1)
    requires Headed(m1, m2, disk2, start, n2)
    ensures Headed(m, m2, disk2, start, n2)
  {
    hide Decode;
  }

  /** The contents and the header after one write, for every write that finds its block. */
  lemma WriteRefines(first: int, s: Fs, s': Fs, start: int, offset: int, data: seq<byte>, cnt: int,
                     m: MetaData, m': MetaData, disk: seq<byte>, disk': seq<byte>, fat': Fat, avail': int)
    requires WriteOutcome(first, s, s', start, offset, data, cnt, true, m, m', disk, disk', fat', avail')
    requires 0 <= offset <= m.length && META + m.length <= BLOCK * |s.files[start]| && |s.fat| * BLOCK <= |disk|
    ensures Grown(first, s, start, s') && OnlyBlocks(disk, disk', s'.files[start])
    ensures OnDisk(disk, s.files[start]) && OnDisk(disk', s'.files[start])
    ensures META + m'.length <= BLOCK * |s'.files[start]|
    ensures Content(disk', s'.files[start], m'.length) == Content(disk, s.files[start], m.length)[..offset]
            + data[..cnt]
    ensures 0 <= start && start * BLOCK + META <= |disk'| && HeaderOf(disk', start) == Encode(m')
    ensures Touched(m, m', offset + cnt) && TouchedOnDisk(m, disk', start, offset + cnt)
  {
    hide Partition;
    hide Written;
    hide Content;
    hide Encode;
    hide Splice;
    hide Grown;
    hide OnlyBlocks;
    hide OnDisk;
    hide NoDup;
    hide HeaderOf;
    hide Decode;
    hide Reach;
    var p := META + offset;
    ReachFacts(first, s, start, p / BLOCK);
    GrownFacts(first, s, start, s');
    FileOnDisk(first, s', start, disk);
    WriteContent(disk, s.files[start], s'.files[start], m.length, offset, data[..cnt], Encode(m'));
    WrittenOnlyBlocks(disk, s'.files[start], p, data[..cnt], Encode(m'));
    WrittenHeader(disk, s'.files[start], p, data[..cnt], Encode(m'));
    HeaderTouched(m, m', disk', start, offset + cnt);
  }

  lemma GrownFacts(first: int, s: Fs, f: int, s': Fs)
    requires Grown(first, s, f, s')
    ensures Partition(first, s') && |s'.fat| == |s.fat| && f in s.files && f in s'.files && s.files[f] <= s'.files[f]
  {
  }

  /** A write at the end of a file that has the block for it. */
  ghost predicate Onward(s: Fs, start: int, offset: int, len: int) {
    start in s.files && 0 <= offset == len && (META + offset) / BLOCK < |s.files[start]|
  }

  /** A call of write with n bytes frees blocks of the file. */
  ghost predicate Cuts(s: Fs, start: int, offset: int, n: int, len: int) {
    offset <= len && Shortens(s, start, offset, n, len)
  }

  /** It has: the links run through the whole file and on through the free blocks, and the next free block
      is one of the file. */
  ghost predicate IsCut(s: Fs, s': Fs, start: int, offset: int, avail: int) {
    && start in s.files && 0 <= offset && (META + offset) / BLOCK + 1 < |s.files[start]|
    && 0 <= s.files[start][|s.files[start]| - 1] < |s.fat|
    && s' == Aliased(s, start, (META + offset) / BLOCK) && avail == s.files[start][(META + offset) / BLOCK + 1]
  }

  lemma WriteCuts(first: int, s: Fs, s': Fs, start: int, offset: int, data: seq<byte>, cnt: int, ok: bool,
                  m: MetaData, m': MetaData, disk: seq<byte>, disk': seq<byte>, fat': Fat, avail': int)
    requires WriteOutcome(first, s, s', start, offset, data, cnt, ok, m, m', disk, disk', fat', avail')
    requires Cuts(s, start, offset, |data|, m.length)
    requires META + m.length <= BLOCK * |s.files[start]| && |s.fat| * BLOCK <= |disk|
    ensures ok && s' == s && cnt == Min(|data|, BLOCK - (META + offset) % BLOCK) && m'.length == offset + cnt
    ensures (META + offset) / BLOCK + 1 < |s.files[start]| && 0 <= s.files[start][|s.files[start]| - 1] < |s.fat|
    ensures var r := Aliased(s, start, (META + offset) / BLOCK);
            && Partition(first, r) && IsCut(s, r, start, offset, avail') && r.fat == fat' && start in r.files
            && OnDisk(disk, s.files[start]) && OnDisk(disk', r.files[start])
            && META + m'.length <= BLOCK * |r.files[start]|
            && Content(disk', r.files[start], m'.length)
               == Content(disk, s.files[start], m.length)[..offset] + data[..cnt]
            && OnlyBlocks(disk, disk', r.files[start])
    ensures 0 <= start && start * BLOCK + META <= |disk'| && HeaderOf(disk', start) == Encode(m')
    ensures Touched(m, m', offset + cnt) && TouchedOnDisk(m, disk', start, offset + cnt)
  {
    hide Partition;
    hide Content;
    hide OnDisk;
    hide HeaderOf;
    hide Touched;
    hide TouchedOnDisk;
    hide Encode;
    hide OnlyBlocks;
    hide Written;
    hide NoDup;
    ReachFacts(first, s, start, (META + offset) / BLOCK);
    WriteRefines(first, s, s', start, offset, data, cnt, m, m', disk, disk', fat', avail');
    AliasedPartition(first, s, start, (META + offset) / BLOCK);
    var c, r := s.files[start], Aliased(s, start, (META + offset) / BLOCK);
    SameSize(disk, disk', c);
    FileOnDisk(first, r, start, disk');
    SameContent(disk', c, r.files[start], m'.length);
    MoreBlocks(disk, disk', c, r.files[start]);
  }

  lemma SameSize(disk: seq<byte>, disk': seq<byte>, chain: seq<int>)
    requires OnlyBlocks(disk, disk', chain)
    ensures |disk'| == |disk|
  {
  }

  lemma MoreBlocks(disk: seq<byte>, disk': seq<byte>, chain: seq<int>, longer: seq<int>)
    requires OnlyBlocks(disk, disk', chain) && chain <= longer
    ensures OnlyBlocks(disk, disk', longer)
  {
    assert forall b :: b in chain ==> b in longer;
  }

  lemma OnlyTwice(disk: seq<byte>, disk1: seq<byte>, disk2: seq<byte>, chain: seq<int>)
    requires (disk1 == disk || OnlyBlocks(disk, disk1, chain)) && OnlyBlocks(disk1, disk2, chain)
    ensures OnlyBlocks(disk, disk2, chain)
  {
  }

  /** A write at the end of the file frees nothing. */
  lemma NotAgain(s: Fs, start: int, offset: int, n: int, len: int)
    requires offset == len && 0 <= n
    ensures !Cuts(s, start, offset, n, len)
  {
  }

  lemma OnwardKeeps(s: Fs, start: int, offset: int, n: int, len: int)
    requires Onward(s, start, offset, len) || !Cuts(s, start, offset, n, len)
    requires 0 <= n
    ensures offset <= len ==> !Shortens(s, start, offset, n, len)
  {
  }

  lemma OnwardSame(first: int, s: Fs, s': Fs, start: int, offset: int, data: seq<byte>, cnt: int, ok: bool,
                   m: MetaData, m': MetaData, disk: seq<byte>, disk': seq<byte>, fat': Fat, avail': int)
    requires WriteOutcome(first, s, s', start, offset, data, cnt, ok, m, m', disk, disk', fat', avail')
    requires OnlyGrown(first, s, s', start, disk, disk')
    ensures Onward(s, start, offset, m.length) ==> ok && s' == s && OnlyBlocks(disk, disk', s.files[start])
  {
    hide Partition;
    hide WriteEffect;
  }

  /** After a cut there is a block for each byte that is still to be written. */
  lemma CutOnward(s: Fs, s': Fs, start: int, offset: nat, done: nat, total: nat, len: int, avail: int)
    requires IsCut(s, s', start, offset, avail) && Missing(s, start, BlocksOf(offset + total)) <= |s.free|
    requires done < total && offset + done == len
    ensures Onward(s', start, offset + done, len)
  {
  }

  /** A write of n bytes frees blocks of the file. */
  ghost predicate Shortens(s: Fs, start: int, offset: int, n: int, len: int) {
    0 <= offset && FreesTail(s, start, offset, Min(n, BLOCK - (META + offset) % BLOCK), len)
  }

  /** Nothing but the file has grown: the chain goes on where it ended, other chains and the bytes of
      other blocks are as they were. */
  ghost predicate OnlyGrown(first: int, s: Fs, s': Fs, start: int, disk: seq<byte>, disk': seq<byte>) {
    && Partition(first, s') && |s'.fat| == |s.fat|
    && start in s.files && start in s'.files && s.files[start] <= s'.files[start]
    && (forall g :: g in s.files && g != start ==> g in s'.files && s'.files[g] == s.files[g])
    && OnlyBlocks(disk, disk', s'.files[start])
  }

  lemma GrownNothing(first: int, s: Fs, start: int, disk: seq<byte>)
    requires Partition(first, s) && start in s.files
    ensures OnlyGrown(first, s, s, start, disk, disk)
  {
  }

  lemma GrownOnly(first: int, s: Fs, s': Fs, start: int, disk: seq<byte>, disk': seq<byte>)
    requires Grown(first, s, start, s') && OnlyBlocks(disk, disk', s'.files[start])
    ensures OnlyGrown(first, s, s', start, disk, disk')
  {
  }

  lemma GrownPartition(first: int, s: Fs, s': Fs, start: int, disk: seq<byte>, disk': seq<byte>)
    requires OnlyGrown(first, s, s', start, disk, disk')
    ensures Partition(first, s') && start in s'.files && |disk'| == |disk|
  {
  }

  lemma GrownTwice(first: int, s: Fs, s1: Fs, s2: Fs, start: int, disk: seq<byte>, disk1: seq<byte>, disk2: seq<byte>)
    requires OnlyGrown(first, s, s1, start, disk, disk1) && OnlyGrown(first, s1, s2, start, disk1, disk2)
    ensures OnlyGrown(first, s, s2, start, disk, disk2)
  {
    hide Partition;
    assert forall b :: b in s1.files[start] ==> b in s2.files[start];
  }

  /** What a write keeps and changes when it frees no block of the file. */
  lemma WriteKept(first: int, s: Fs, s': Fs, start: int, offset: int, data: seq<byte>, cnt: int, ok: bool,
                  m: MetaData, m': MetaData, disk: seq<byte>, disk': seq<byte>, fat': Fat, avail': int)
    requires WriteOutcome(first, s, s', start, offset, data, cnt, ok, m, m', disk, disk', fat', avail')
    requires 0 <= offset && META + m.length <= BLOCK * |s.files[start]| && |s.fat| * BLOCK <= |disk|
    requires data != [] && (offset <= m.length ==> !Shortens(s, start, offset, |data|, m.length))
    ensures offset <= m.length ==> !FreesTail(s', start, offset, cnt, m.length)
    ensures fat' == s'.fat && avail' == s'.avail
    ensures OnlyGrown(first, s, s', start, disk, disk')
    ensures cnt < 0 || !ok ==> m' == m && s' == s && disk' == disk
    ensures !ok ==> offset <= m.length && avail' == 0 && Stuck(s', start, (META + offset) / BLOCK + 1)
    ensures offset > m.length ==> ok && cnt == ERR_TOO_LONG
    ensures offset <= m.length && ok ==>
              && 0 < cnt == Min(|data|, BLOCK - (META + offset) % BLOCK) && m'.length == offset + cnt
              && Lengthened(s, s', start, (META + offset) / BLOCK + 1)
              && OnDisk(disk, s.files[start]) && OnDisk(disk', s'.files[start])
              && META + m'.length <= BLOCK * |s'.files[start]|
              && Content(disk', s'.files[start], m'.length) == Content(disk, s.files[start], m.length)[..offset]
                 + data[..cnt]
              && 0 <= start && start * BLOCK + META <= |disk'| && HeaderOf(disk', start) == Encode(m')
              && Touched(m, m', offset + cnt) && TouchedOnDisk(m, disk', start, offset + cnt)
  {
    hide Partition;
    hide Content;
    hide OnDisk;
    hide HeaderOf;
    hide TouchedOnDisk;
    hide Encode;
    hide OnlyBlocks;
    hide OnlyGrown;
    hide Grown;
    hide Written;
    hide NoDup;
    hide Reach;
    GrownNothing(first, s, start, disk);
    AvailFacts(first, s);
    if offset <= m.length && ok {
      WriteRefines(first, s, s', start, offset, data, cnt, m, m', disk, disk', fat', avail');
      ReachFacts(first, s, start, (META + offset) / BLOCK);
      GrownFacts(first, s, start, s');
      GrownOnly(first, s, s', start, disk, disk');
    }
  }

  /** A file whose chain has no changed block keeps its header and its contents. */
  lemma FileKept(first: int, s: Fs, disk: seq<byte>, disk': seq<byte>, chain: seq<int>, g: int, len: int)
    requires Partition(first, s) && g in s.files && OnlyBlocks(disk, disk', chain) && |s.fat| * BLOCK <= |disk|
    requires 0 <= len && META + len <= BLOCK * |s.files[g]| && forall b :: b in s.files[g] ==> b !in chain
    ensures OnDisk(disk, s.files[g]) && OnDisk(disk', s.files[g])
    ensures Content(disk', s.files[g], len) == Content(disk, s.files[g], len)
    ensures 0 <= g && g * BLOCK + META <= |disk| && HeaderOf(disk', g) == HeaderOf(disk, g)
  {
    FileOnDisk(first, s, g, disk);
    OtherContent(disk, disk', chain, s.files[g], len);
    assert g in s.files[g];
    assert forall x :: g * BLOCK <= x < g * BLOCK + META ==> x / BLOCK == g && disk'[x] == disk[x];
  }

  /** No other file changes, in its blocks or in its contents. */
  lemma WriteOthers(first: int, s: Fs, s': Fs, start: int, disk: seq<byte>, disk': seq<byte>, g: int, len: int)
    requires Partition(first, s) && Grown(first, s, start, s') && OnlyBlocks(disk, disk', s'.files[start])
    requires g in s.files && g != start && |s.fat| * BLOCK <= |disk| && 0 <= len && META + len <= BLOCK * |s.files[g]|
    ensures g in s'.files && s'.files[g] == s.files[g]
    ensures OnDisk(disk, s.files[g]) && OnDisk(disk', s.files[g])
    ensures Content(disk', s'.files[g], len) == Content(disk, s.files[g], len)
  {
    FileOnDisk(first, s, g, disk);
    FilesDisjoint(first, s', start, g);
    OtherContent(disk, disk', s'.files[start], s.files[g], len);
  }

  /** One write keeps the partition exactly when it frees no block of the file, which its arguments and the
      length of the chain tell. */
  lemma WritePartitionExact(first: int, s: Fs, s': Fs, start: int, offset: int, data: seq<byte>, cnt: int,
                            m: MetaData, m': MetaData, disk: seq<byte>, disk': seq<byte>, fat': Fat, avail': int)
    requires WriteOutcome(first, s, s', start, offset, data, cnt, true, m, m', disk, disk', fat', avail')
    requires 0 <= offset <= m.length && META + m.length <= BLOCK * |s.files[start]|
    ensures Explained(first, fat', avail', start) <==> !Shortens(s, start, offset, |data|, m.length)
  {
    var p := META + offset;
    ReachFacts(first, s, start, p / BLOCK);
    if offset + cnt < m.length {
      ShortenExact(first, s', start, p / BLOCK);
    } else {
      assert Partition(first, s') && s'.fat == fat' && s'.avail == avail' && start in s'.files;
    }
  }

  /** The places that one write touches. */
  lemma WriteFacts(first: int, s: Fs, start: int, offset: int, disk: seq<byte>)
    requires Partition(first, s) && start in s.files && |s.fat| * BLOCK <= |disk| && |s.fat| <= MAX_BLOCKS
    requires 0 <= offset && (META + offset) / BLOCK < |s.files[start]|
    ensures var c := s.files[start];
            && OnDisk(disk, c) && c[0] == start
            && 0 <= c[(META + offset) / BLOCK] && c[(META + offset) / BLOCK] * BLOCK + BLOCK <= |disk|
            && 0 <= start && start * BLOCK + BLOCK <= |disk|
            && 0 <= c[|c| - 1] < |s.fat|
            && offset + (BLOCK - (META + offset) % BLOCK) < U32
  {
    FileOnDisk(first, s, start, disk);
    BlockOnDisk(first, s, start, 0, disk);
    BlockOnDisk(first, s, start, (META + offset) / BLOCK, disk);
    LinkFacts(first, s, start, |s.files[start]| - 1);
  }

  lemma WriteAssembled(first: int, s: Fs, start: int, offset: int, data: seq<byte>, cnt: int, m: MetaData, m': MetaData,
                       disk: seq<byte>, disk1: seq<byte>, disk2: seq<byte>, fat': Fat, avail': int)
    requires Partition(first, s) && start in s.files && |s.fat| * BLOCK <= |disk| && |s.fat| <= MAX_BLOCKS
    requires 0 <= offset && (META + offset) / BLOCK < |s.files[start]|
    requires cnt == Min(|data|, BLOCK - (META + offset) % BLOCK) && offset + cnt < U32 && m' == Stamped(m, offset + cnt)
    requires var at := s.files[start][(META + offset) / BLOCK] * BLOCK + (META + offset) % BLOCK;
             0 <= at && at + cnt <= |disk| && disk1 == Overlay(disk, at, data[..cnt])
    requires var h := Encode(m')[..Min(META, BLOCK)];
             0 <= start && start * BLOCK + |h| <= |disk1| && disk2 == Overlay(disk1, start * BLOCK, h)
    requires 0 <= s.files[start][|s.files[start]| - 1] < |s.fat|
    requires (fat', avail')
          == if offset + cnt < m.length then Splice(s, start, (META + offset) / BLOCK) else (s.fat, s.avail)
    ensures WriteEffect(s, start, offset, data, cnt, m, m', disk, disk2, fat', avail')
  {
    hide Partition;
    hide Overlay;
    hide Splice;
    hide Encode;
    hide OnDisk;
    WriteFacts(first, s, start, offset, disk);
    assert Encode(m')[..Min(META, BLOCK)] == Encode(m');
  }

  /** The header after a write: the clock is not known. */
  function Stamped(m: MetaData, length: uint32): MetaData {
    m.(length := length, latime := U32 - 1, lmtime := U32 - 1)
  }

  ghost function ExtendOrNot(first: int, s: Fs, f: int): Fs
    requires Partition(first, s) && f in s.files
  {
    if s.avail == 0 then s else ExtendPartition(first, s, f); Extend(s, f)
  }

  lemma LinkFacts(first: int, s: Fs, f: int, i: int)
    requires Partition(first, s) && f in s.files && 0 <= i < |s.files[f]|
    ensures 0 < first <= s.files[f][i] < |s.fat| == |s.owner| && s.owner[s.files[f][i]] == f
    ensures s.fat[s.files[f][i]] == After(s.files[f], i)
    ensures i + 1 < |s.files[f]| ==> s.files[f][i + 1] != 0
    ensures s.avail != 0 ==> s.avail != s.files[f][i]
  {
    assert Link(s.fat, s.files[f], i);
    FileStart(first, s, f);
    AvailFacts(first, s);
    if i + 1 < |s.files[f]| {
      assert Link(s.fat, s.files[f], i + 1);
    }
  }
}
