/** The root directory of a FAT439 file system. */
module Fat439DirectoryFile {
  import opened BlockDevice
  import opened FatModel
  import opened FileModel
  import opened Fat439FileSystem
  import opened DirectoryModel

  class Fat439Directory {
    const start: int
    const content: OpenFile
    var entries: nat

    ghost predicate Valid()
      reads this, content, content.fs, content.fs.fat, content.fs.dev.disk
    {
      content.Valid() && content.start == start && content.metaData.length == ENTRY * entries
    }

    constructor (content: OpenFile)
      requires content.Valid() && content.metaData.length % ENTRY == 0
      ensures Valid() && this.content == content && this.start == content.start
    {
      this.start := content.start;
      this.content := content;
      entries := content.metaData.length / ENTRY;
    }

    /** The first block of the file of that name, or 0. */
    method Lookup(name: seq<byte>) returns (idx: int)
      requires Valid() && CString(name)
      ensures idx == LookupOf(start, content.Contents(), entries, name)
    {
      hide OpenFile.Chained;
      hide OpenFile.Contents;
      hide Find;
      hide Holds;
      if name == DOT {
        return start;
      }
      var entry := new byte[ENTRY];
      var offset := 0;
      ghost var c := content.Contents();
      for i := 0 to entries
        invariant offset == ENTRY * i && Valid() && content.Contents() == c
        invariant Find(c, entries, name, 0) == Find(c, entries, name, i)
      {
        ghost var before := entry[..];
        var _ := content.ReadFully(offset, entry, 0, ENTRY);
        EntryRead(before, entry[..], c, i);
        offset := offset + ENTRY;
        FindStep(c, entries, name, i);
        var same := SameName(entry, name);
        if same {
          return FromLe32(entry[NAME..]);
        }
      }
      FindStep(c, entries, name, entries);
      return 0;
    }

    /** Makes a new file and appends its entry. `junk` is what the stack held in place of the entry.
        False is the panic "not enough space". */
    method NewFile(name: seq<byte>, uid: uint32, gid: uint32, junk: seq<byte>) returns (file: OpenFile?, ok: bool)
      requires Valid() && CString(name) && |name| < ENTRY && |junk| == ENTRY
      modifies this`entries, content`metaData, content.fs`avail, content.fs`fs, content.fs.fat, content.fs.dev.disk
      ensures ok <==>
                var s := old(content.fs.fs);
                1 + Missing(s, start, BlocksOf(ENTRY * (old(entries) + 1))) <= |s.free|
      ensures !ok ==> content.fs.avail == 0
      ensures ok ==>
                && Valid() && entries == old(entries) + 1
                && file != null && file.fs == content.fs && file.start == old(content.fs.avail) != 0
                && file.Valid() && NewHeader(file.metaData, uid, gid)
                && content.Contents() == old(content.Contents()) + EntryFor(name, junk, file.start)
                && Serves(start, old(content.Contents()), old(entries), content.Contents(), name, junk, file.start)
                && Created(content.fs.first, old(content.fs.fs), content.fs.fs, start, file.start,
                           old(content.fs.dev.disk[..]), content.fs.dev.disk[..])
    {
      hide OpenFile.Chained;
      hide OpenFile.Contents;
      hide OnlyGrown;
      hide Created;
      hide TakenFor;
      hide Serves;
      hide EntryFor;
      ghost var before := content.Contents();
      ghost var fs := content.fs;
      ghost var s0, disk0 := fs.fs, fs.dev.disk[..];
      content.ValidFacts();
      file, ok := CreateFile(uid, gid);
      if !ok {
        return;
      }
      ghost var s1, disk1 := fs.fs, fs.dev.disk[..];
      TakenFacts(fs.first, s0, s1, file.start, disk0, disk1);
      ok := AddEntry(name, junk, file);
      if ok {
        NewServes(start, before, entries - 1, name, junk, file.start);
      }
      CreatedBoth(fs.first, s0, s1, fs.fs, start, file.start, disk0, disk1, fs.dev.disk[..]);
    }

    /** The part of newFile that appends the entry. */
    method AddEntry(name: seq<byte>, junk: seq<byte>, file: OpenFile) returns (ok: bool)
      requires Valid() && CString(name) && |name| < ENTRY && |junk| == ENTRY
      requires file.Valid() && file.fs == content.fs && file.start != start && file != content
      modifies this`entries, content`metaData, content.fs`avail, content.fs`fs, content.fs.fat, content.fs.dev.disk
      ensures OnlyGrown(content.fs.first, old(content.fs.fs), content.fs.fs, start, old(content.fs.dev.disk[..]),
                        content.fs.dev.disk[..])
      ensures file.Valid() && file.Contents() == old(file.Contents())
      ensures ok <==>
                var s := old(content.fs.fs);
                Missing(s, start, BlocksOf(ENTRY * (old(entries) + 1))) <= |s.free|
      ensures !ok ==> content.fs.avail == 0
      ensures ok ==>
                && Valid() && entries == old(entries) + 1 && 0 <= file.start < U32
                && content.Contents() == old(content.Contents()) + EntryFor(name, junk, file.start)
    {
      hide OpenFile.Chained;
      hide OnlyGrown;
      hide EntryFor;
      ghost var s, disk := content.fs.fs, content.fs.dev.disk[..];
      file.ValidFacts();
      content.ValidFacts();
      ghost var before := content.Contents();
      entries := entries + 1;
      var dirLength := content.metaData.length;
      var entry := EntryFor(name, junk, file.start);
      AppendFrees(s, start, dirLength, ENTRY);
      var done;
      done, ok := content.WriteFully(dirLength, entry);
      assert before[..dirLength] == before;
      content.ValidFacts();
      file.StillValid(s, disk, start);
    }

    /** The part of newFile that makes the file. */
    method CreateFile(uid: uint32, gid: uint32) returns (file: OpenFile?, ok: bool)
      requires Valid()
      modifies content.fs`avail, content.fs`fs, content.fs.fat, content.fs.dev.disk
      ensures Valid() && content.Contents() == old(content.Contents())
      ensures ok == (old(content.fs.avail) != 0)
      ensures !ok ==> content.fs.avail == 0 && content.fs.fs == old(content.fs.fs)
      ensures ok ==>
                && file != null && file.fs == content.fs && file.start == old(content.fs.avail) && fresh(file)
                && file.Valid() && file.metaData == NewMeta(uid, gid) && NewHeader(file.metaData, uid, gid)
                && TakenFor(content.fs.first, old(content.fs.fs), content.fs.fs, file.start,
                            old(content.fs.dev.disk[..]), content.fs.dev.disk[..])
    {
      hide Partition;
      hide Content;
      hide OnDisk;
      hide HeaderOf;
      hide Encode;
      hide Overlay;
      hide TakenFor;
      var fs := content.fs;
      ghost var s, disk := fs.fs, fs.dev.disk[..];
      var fileStart := fs.TakeBlock();
      if fileStart == 0 {
        return null, false;
      }
      SectorRoom(fs.dev, fileStart, 0);
      var _ := fs.dev.Write(fileStart * BLOCK, Encode(NewMeta(uid, gid)));
      CreateFacts(fs.first, s, fs.fs, content.start, content.metaData.length, fileStart, NewMeta(uid, gid), disk,
                  fs.dev.disk[..]);
      file := new OpenFile(fs, fileStart);
      ok := true;
    }
  }

  function NewMeta(uid: uint32, gid: uint32): MetaData {
    MetaData(1, 420, uid, gid, 0, U32 - 1, U32 - 1, U32 - 1, U32 - 1)
  }

  /** The header of a new file: permissions 0644, nothing in it, and times that are not known. */
  predicate NewHeader(m: MetaData, uid: uint32, gid: uint32) {
    && m.kind == 1 && m.permissions == 0x1a4 && m.uid == uid && m.gid == gid && m.length == 0
    && m.ctime == m.latime == m.lmtime == m.dtime == 0xffff_ffff
  }

  /** b has become a file of one block; nothing else has changed. */
  ghost predicate TakenFor(first: int, s: Fs, s': Fs, b: int, disk: seq<byte>, disk': seq<byte>) {
    && Partition(first, s) && Partition(first, s') && |s'.fat| == |s.fat|
    && b !in s.files && s'.files == s.files[b := [b]] && OnlyBlocks(disk, disk', [b])
    && s.free != [] && s'.free == s.free[1..]
  }

  /** b has become a file, and the chain of the directory goes on where it ended; other chains and the
      bytes of other blocks are as they were. */
  ghost predicate Created(first: int, s: Fs, s': Fs, dir: int, b: int, disk: seq<byte>, disk': seq<byte>) {
    && Partition(first, s') && |s'.fat| == |s.fat|
    && b !in s.files && b in s'.files && s'.files[b] == [b]
    && dir in s.files && dir in s'.files && s.files[dir] <= s'.files[dir]
    && (forall g :: g in s.files && g != dir ==> g in s'.files && s'.files[g] == s.files[g])
    && OnlyBlocks(disk, disk', s'.files[dir] + [b])
  }

  lemma TakenFacts(first: int, s: Fs, s': Fs, b: int, disk: seq<byte>, disk': seq<byte>)
    requires TakenFor(first, s, s', b, disk, disk')
    ensures b !in s.files && b in s'.files && |s'.free| == |s.free| - 1
    ensures forall f, n :: f in s.files ==> f in s'.files && Missing(s', f, n) == Missing(s, f, n)
  {
  }

  lemma CreatedBoth(first: int, s: Fs, s1: Fs, s2: Fs, dir: int, b: int, disk: seq<byte>, disk1: seq<byte>,
                    disk2: seq<byte>)
    requires TakenFor(first, s, s1, b, disk, disk1) && OnlyGrown(first, s1, s2, dir, disk1, disk2) && dir != b
    ensures Created(first, s, s2, dir, b, disk, disk2)
  {
    hide Partition;
  }

  /** An open file other than the directory is as it was before newFile. */
  lemma OpenStays(file: OpenFile, s: Fs, disk: seq<byte>, dir: int, b: int)
    requires file.fs.Valid() && file.start in s.files && file.start != dir
    requires Partition(file.fs.first, s) && |s.fat| * BLOCK <= |disk|
    requires Created(file.fs.first, s, file.fs.fs, dir, b, disk, file.fs.dev.disk[..])
    requires META + file.metaData.length <= BLOCK * |s.files[file.start]|
    requires 0 <= file.start && file.start * BLOCK + META <= |disk|
    requires HeaderOf(disk, file.start) == Encode(file.metaData)
    ensures file.Valid() && OnDisk(disk, s.files[file.start])
    ensures file.Contents() == Content(disk, s.files[file.start], file.metaData.length)
  {
    hide Partition;
    hide Content;
    hide OnDisk;
    hide HeaderOf;
    hide Encode;
    var s', disk' := file.fs.fs, file.fs.dev.disk[..];
    CreatedApart(file.fs.first, s, s', dir, b, disk, disk', file.start);
    FileKept(file.fs.first, s, disk, disk', s'.files[dir] + [b], file.start, file.metaData.length);
  }

  lemma CreatedApart(first: int, s: Fs, s': Fs, dir: int, b: int, disk: seq<byte>, disk': seq<byte>, g: int)
    requires Created(first, s, s', dir, b, disk, disk') && g in s.files && g != dir
    ensures g in s'.files && s'.files[g] == s.files[g] && forall x :: x in s.files[g] ==> x !in s'.files[dir] + [b]
    ensures OnlyBlocks(disk, disk', s'.files[dir] + [b])
  {
    hide OnlyBlocks;
    FilesDisjoint(first, s', dir, g);
    FilesDisjoint(first, s', b, g);
  }

  lemma AppendFrees(s: Fs, start: int, len: int, n: int)
    requires 0 <= len && 0 <= n
    ensures !Shortens(s, start, len, n, len)
  {
  }

  /** What taking a block for a file and writing its header leave behind. */
  lemma CreateFacts(first: int, s: Fs, s': Fs, dir: int, len: int, b: int, m: MetaData, disk: seq<byte>,
                    disk': seq<byte>)
    requires Partition(first, s) && 0 < b == s.avail < |s.fat| && |s.owner| == |s.fat| && s.free != [] && s' == Take(s)
    requires dir in s.files && 0 <= len && META + len <= BLOCK * |s.files[dir]| && |s.fat| * BLOCK <= |disk|
    requires disk' == Overlay(disk, b * BLOCK, Encode(m)[..Min(META, BLOCK)])
    ensures TakenFor(first, s, s', b, disk, disk') && b != dir
    ensures OnDisk(disk, s.files[dir]) && OnDisk(disk', s.files[dir])
    ensures Content(disk', s.files[dir], len) == Content(disk, s.files[dir], len)
    ensures 0 <= dir && dir * BLOCK + META <= |disk| && HeaderOf(disk', dir) == HeaderOf(disk, dir)
    ensures b * BLOCK + META <= |disk| && HeaderOf(disk', b) == Encode(m) && Decode(HeaderOf(disk', b)) == m
    ensures s'.files.Keys == s.files.Keys + {b} && s'.files[b] == [b] && s'.files[dir] == s.files[dir]
  {
    hide Content;
    hide Partition;
    hide Encode;
    AvailFacts(first, s);
    TakePartition(first, s);
    assert Encode(m)[..Min(META, BLOCK)] == Encode(m);
    assert OnlyBlocks(disk, disk', [b]) by {
      assert b in [b];
    }
    FileOwns(first, s, dir);
    FileStart(first, s, dir);
    MetaRoundTrip(m);
    forall x | x in s.files[dir]
      ensures x !in [b]
    {
      assert s.owner[x] == dir;
    }
    FileKept(first, s, disk, disk', [b], dir, len);
  }

  /** The comparison loop of lookup. */
  method SameName(entry: array<byte>, name: seq<byte>) returns (same: bool)
    requires entry.Length == ENTRY && CString(name)
    ensures same == Holds(entry[..], name)
  {
    var i := 0;
    while i < NAME
      invariant 0 <= i <= NAME && i <= |name| && entry[..i] == name[..i]
    {
      var x := entry[i];
      if x != CharAt(name, i) {
        return false;
      }
      if x == 0 {
        return true;
      }
      i := i + 1;
    }
    return false;
  }
}
