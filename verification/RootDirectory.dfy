/** The part of mkfs that makes the root directory and copies the files of the configuration. */
module RootDirectory {
  import opened BlockDevice
  import opened FatModel
  import opened FileModel
  import opened Fat439FileSystem
  import opened DirectoryModel
  import opened MakeFileSystem

  /** A line of the configuration: the base name of a file, what reading it yields, and its owner. */
  datatype Line = Line(name: seq<byte>, content: seq<byte>, uid: uint32, gid: uint32, permissions: uint32, now: uint32)

  ghost predicate Usable(line: Line) {
    CString(line.name) && |line.content| < U32
  }

  // ---------------------------------------------------------------- entries

  /** The bytes of an entry: the name is cut at 12 characters or padded with zeros. */
  function ConfEntry(name: seq<byte>, start: uint32): (e: seq<byte>)
    ensures |e| == ENTRY
  {
    seq(NAME, i requires 0 <= i < NAME => if i < |name| then name[i] else 0) + Le32(start)
  }

  /** The entry serves its name if it has at most 11 characters, and no other name. */
  lemma ConfEntryHolds(name: seq<byte>, start: uint32, other: seq<byte>)
    requires CString(name) && CString(other)
    ensures Holds(ConfEntry(name, start), other) <==> other == name && |name| <= 11
    ensures StartOf(ConfEntry(name, start)) == start == Number(ConfEntry(name, start), 3)
  {
    var e := ConfEntry(name, start);
    assert e[NAME..] == Le32(start);
    Le32RoundTrip(start);
    if |name| <= 11 {
      assert e[..|name|] == name && e[|name|] == 0;
      if |name| < |other| {
        ShorterHolds(e, name, other);
      } else if |other| < |name| && Holds(e, other) {
        ShorterHolds(e, other, name);
      } else if Holds(e, other) {
        assert other == e[..|name|];
      }
    } else {
      assert forall j :: 0 <= j < NAME ==> e[j] == name[j];
    }
  }

  function Entries(lines: seq<Line>, made: seq<uint32>): (c: seq<byte>)
    requires |made| <= |lines|
    ensures |c| == ENTRY * |made|
  {
    if made == [] then []
    else Entries(lines, made[..|made| - 1]) + ConfEntry(lines[|made| - 1].name, made[|made| - 1])
  }

  /** The first line with a name, among the first n, as the directory finds it. */
  function FirstNamed(lines: seq<Line>, made: seq<uint32>, name: seq<byte>): int
    requires |made| <= |lines|
  {
    if made == [] then 0
    else
      var before := FirstNamed(lines, made[..|made| - 1], name);
      if before != 0 then before
      else if lines[|made| - 1].name == name && |name| <= 11 then made[|made| - 1] else 0
  }

  /** It is the first: no line before it has the name, in 11 characters or less. */
  lemma {:induction false} FirstNamedIs(lines: seq<Line>, made: seq<uint32>, name: seq<byte>)
    requires |made| <= |lines| && forall k :: 0 <= k < |made| ==> made[k] != 0
    ensures var r := FirstNamed(lines, made, name);
            if |name| <= 11 && exists k :: 0 <= k < |made| && lines[k].name == name then
              exists k :: 0 <= k < |made| && lines[k].name == name && r == made[k]
                          && forall j :: 0 <= j < k ==> lines[j].name != name
            else r == 0
    decreases |made|
  {
    if made != [] {
      FirstNamedIs(lines, made[..|made| - 1], name);
    }
  }

  /** The entries of the root directory hold, for a name, the file of the first line with that name. */
  lemma {:induction false} RootLookup(lines: seq<Line>, made: seq<uint32>, name: seq<byte>)
    requires |made| <= |lines| && CString(name)
    requires forall k :: 0 <= k < |made| ==> CString(lines[k].name) && made[k] != 0
    ensures Find(Entries(lines, made), |made|, name, 0) == FirstNamed(lines, made, name)
    decreases |made|
  {
    if made != [] {
      var n := |made| - 1;
      var less := made[..n];
      RootLookup(lines, less, name);
      var c, e := Entries(lines, less), ConfEntry(lines[n].name, made[n]);
      ConfEntryHolds(lines[n].name, made[n], name);
      FindAppend(c, n, e, name, 0);
      FindFound(c, n, name, 0, lines, less);
    }
  }

  /** Entries name no block 0, so a name is found exactly when an entry holds it. */
  lemma {:induction false} FindFound(c: seq<byte>, n: nat, name: seq<byte>, from: nat, lines: seq<Line>,
                                     made: seq<uint32>)
    requires from <= n == |made| && |made| <= |lines| && c == Entries(lines, made)
    requires CString(name) && forall k :: 0 <= k < |made| ==> CString(lines[k].name) && made[k] != 0
    ensures Find(c, n, name, from) != 0 <==> exists i: nat :: from <= i < n && Holds(EntryAt(c, i), name)
    decreases n - from
  {
    hide Holds;
    hide Entries;
    hide ConfEntry;
    FindStep(c, n, name, from);
    if from < n {
      FindFound(c, n, name, from + 1, lines, made);
      EntryIs(lines, made, from);
      ConfEntryHolds(lines[from].name, made[from], name);
    }
  }

  lemma {:induction false} EntryIs(lines: seq<Line>, made: seq<uint32>, i: nat)
    requires i < |made| <= |lines|
    ensures EntryAt(Entries(lines, made), i) == ConfEntry(lines[i].name, made[i])
    decreases |made|
  {
    var n := |made| - 1;
    var c := Entries(lines, made[..n]);
    if i < n {
      EntryIs(lines, made[..n], i);
      assert EntryAt(Entries(lines, made), i) == EntryAt(c, i);
    }
  }

  lemma {:induction false} EntriesPrefix(lines: seq<Line>, made: seq<uint32>, n: nat)
    requires n <= |made| <= |lines|
    ensures Entries(lines, made)[..ENTRY * n] == Entries(lines, made[..n])
    decreases |made|
  {
    if n < |made| {
      var less := made[..|made| - 1];
      EntriesPrefix(lines, less, n);
      assert less[..n] == made[..n];
      assert Entries(lines, made)[..ENTRY * n] == Entries(lines, less)[..ENTRY * n];
    } else {
      assert made[..n] == made;
    }
  }

  /** The blocks that the files of these lines take. */
  function Needed(lines: seq<Line>): nat {
    if lines == [] then 0 else Needed(lines[..|lines| - 1]) + BlocksOf(|lines[|lines| - 1].content| + 1)
  }

  lemma {:induction false} NeededRising(lines: seq<Line>, k: nat, n: nat)
    requires k <= n <= |lines|
    ensures Needed(lines[..k]) <= Needed(lines[..n])
    decreases n
  {
    if k < n {
      NeededRising(lines, k, n - 1);
      assert lines[..n][..n - 1] == lines[..n - 1];
    }
  }

  lemma NeededNext(lines: seq<Line>, k: nat)
    requires k < |lines|
    ensures Needed(lines[..k + 1]) == Needed(lines[..k]) + BlocksOf(|lines[k].content| + 1)
  {
    assert lines[..k + 1][..k] == lines[..k];
  }

  // ---------------------------------------------------------------- the image so far

  /** The length comes from the number of line ends of the configuration. */
  function RootMeta(nFiles: nat, now: uint32): MetaData {
    MetaData(2, 0x1b4, 0, 0, nFiles * ENTRY % U32, now, now, now, 0)
  }

  /** A file of the image has the contents and the header of its line. */
  ghost predicate FileIs(s: Fs, disk: seq<byte>, start: int, line: Line) {
    && start in s.files && OnDisk(disk, s.files[start]) && |line.content| < U32
    && |s.files[start]| == BlocksOf(|line.content| + 1)
    && META + |line.content| <= BLOCK * |s.files[start]|
    && Content(disk, s.files[start], |line.content|) == line.content
    && 0 <= start && start * BLOCK + META <= |disk|
    && HeaderOf(disk, start) == Encode(FileMeta(line.content, line.uid, line.gid, line.permissions, line.now))
  }

  /** The root directory has its header, and these entries. */
  ghost predicate RootIs(s: Fs, disk: seq<byte>, root: int, entries: seq<byte>, m: MetaData) {
    && root in s.files && s.files[root] == [root] && OnDisk(disk, [root])
    && META + |entries| <= BLOCK && Content(disk, [root], |entries|) == entries
    && 0 <= root && root * BLOCK + META <= |disk| && HeaderOf(disk, root) == Encode(m)
  }

  ghost predicate Making(first: int, s: Fs, disk: seq<byte>, root: int, lines: seq<Line>, made: seq<uint32>,
                         m: MetaData) {
    && Partition(first, s) && |s.fat| * BLOCK <= |disk| && |made| <= |lines|
    && RootIs(s, disk, root, Entries(lines, made), m)
    && (forall k :: 0 <= k < |made| ==> made[k] != root && made[k] != 0 && FileIs(s, disk, made[k], lines[k]))
  }

  /** Copying one more file leaves the files before it alone. */
  lemma FileStays(first: int, s: Fs, s': Fs, start: int, disk: seq<byte>, disk': seq<byte>, content: seq<byte>,
                  m: MetaData, g: int, line: Line)
    requires Partition(first, s) && |s.fat| * BLOCK <= |disk| && Copied(first, s, s', start, content, m, disk, disk')
    requires FileIs(s, disk, g, line)
    ensures FileIs(s', disk', g, line) && g != start
  {
    hide Content;
    hide Partition;
    hide OnDisk;
    OthersStay(first, s, s', start, disk, disk', content, m, g);
    FileKept(first, s', disk, disk', s'.files[start], g, |line.content|);
  }

  lemma OthersStay(first: int, s: Fs, s': Fs, start: int, disk: seq<byte>, disk': seq<byte>, content: seq<byte>,
                   m: MetaData, g: int)
    requires Partition(first, s) && |s.fat| * BLOCK <= |disk|
             && Copied(first, s, s', start, content, m, disk, disk') && g in s.files
    ensures g != start && g in s'.files && s'.files[g] == s.files[g] && Partition(first, s')
            && |s'.fat| * BLOCK <= |disk|
    ensures OnlyBlocks(disk, disk', s'.files[start]) && forall b :: b in s'.files[g] ==> b !in s'.files[start]
  {
    hide Content;
    hide Partition;
    hide OnDisk;
    FilesDisjoint(first, s', start, g);
  }

  lemma RootStays(first: int, s: Fs, s': Fs, start: int, disk: seq<byte>, disk': seq<byte>, content: seq<byte>,
                  m: MetaData, root: int, entries: seq<byte>, rm: MetaData)
    requires Partition(first, s) && |s.fat| * BLOCK <= |disk| && Copied(first, s, s', start, content, m, disk, disk')
    requires RootIs(s, disk, root, entries, rm)
    ensures RootIs(s', disk', root, entries, rm) && root != start
  {
    hide Content;
    hide Partition;
    hide OnDisk;
    OthersStay(first, s, s', start, disk, disk', content, m, root);
    FileKept(first, s', disk, disk', s'.files[start], root, |entries|);
  }

  /** One more entry. */
  lemma RootGrows(first: int, s: Fs, root: int, disk: seq<byte>, entries: seq<byte>, e: seq<byte>, m: MetaData)
    requires Partition(first, s) && |s.fat| * BLOCK <= |disk| && RootIs(s, disk, root, entries, m)
             && META + |entries| + |e| <= BLOCK
    ensures root * BLOCK + META + |entries| + |e| <= |disk|
    ensures var disk' := Overlay(disk, root * BLOCK + META + |entries|, e);
            RootIs(s, disk', root, entries + e, m) && OnlyBlocks(disk, disk', [root])
  {
    hide Content;
    hide Encode;
    var disk' := Overlay(disk, root * BLOCK + META + |entries|, e);
    PieceContent(disk, [root], 0, META + |entries|, |entries|, e);
    assert HeaderOf(disk', root) == HeaderOf(disk, root);
  }

  lemma FileBeside(first: int, s: Fs, root: int, disk: seq<byte>, disk': seq<byte>, g: int, line: Line)
    requires Partition(first, s) && |s.fat| * BLOCK <= |disk| && root in s.files && s.files[root] == [root] && g != root
    requires FileIs(s, disk, g, line) && OnlyBlocks(disk, disk', [root])
    ensures FileIs(s, disk', g, line)
  {
    hide Content;
    hide OnDisk;
    FilesDisjoint(first, s, root, g);
    FileKept(first, s, disk, disk', [root], g, |line.content|);
  }

  /** One more line: the file is copied and its entry written. */
  lemma MakingStep(first: int, s: Fs, s': Fs, root: int, lines: seq<Line>, made: seq<uint32>, m: MetaData,
                   start: uint32, disk: seq<byte>, disk': seq<byte>)
    requires Making(first, s, disk, root, lines, made, m) && |made| < |lines| && META + ENTRY * (|made| + 1) <= BLOCK
    requires var x := lines[|made|];
             |x.content| < U32 && Copied(first, s, s', start, x.content,
                                         FileMeta(x.content, x.uid, x.gid, x.permissions, x.now), disk, disk')
    requires start != 0
    ensures var e := ConfEntry(lines[|made|].name, start);
            && 0 <= root && root * BLOCK + META + ENTRY * |made| + ENTRY <= |disk'|
            && Making(first, s', Overlay(disk', root * BLOCK + META + ENTRY * |made|, e), root, lines,
                      made + [start], m)
  {
    hide Content;
    hide OnDisk;
    hide Partition;
    hide Encode;
    var x := lines[|made|];
    var meta := FileMeta(x.content, x.uid, x.gid, x.permissions, x.now);
    var e := ConfEntry(x.name, start);
    RootStays(first, s, s', start, disk, disk', x.content, meta, root, Entries(lines, made), m);
    OthersStay(first, s, s', start, disk, disk', x.content, meta, root);
    RootGrows(first, s', root, disk', Entries(lines, made), e, m);
    var disk'' := Overlay(disk', root * BLOCK + META + ENTRY * |made|, e);
    EntriesGrow(lines, made, start);
    NewFileIs(first, s, s', start, disk, disk', x);
    var made' := made + [start];
    forall k | 0 <= k < |made'|
      ensures made'[k] != root && made'[k] != 0 && FileIs(s', disk'', made'[k], lines[k])
    {
      if k < |made| {
        FileStays(first, s, s', start, disk, disk', x.content, meta, made[k], lines[k]);
      }
      FileBeside(first, s', root, disk', disk'', made'[k], lines[k]);
    }
  }

  lemma EntriesGrow(lines: seq<Line>, made: seq<uint32>, start: uint32)
    requires |made| < |lines|
    ensures Entries(lines, made + [start]) == Entries(lines, made) + ConfEntry(lines[|made|].name, start)
  {
  }

  lemma NewFileIs(first: int, s: Fs, s': Fs, start: int, disk: seq<byte>, disk': seq<byte>, x: Line)
    requires |x.content| < U32
    requires Copied(first, s, s', start, x.content, FileMeta(x.content, x.uid, x.gid, x.permissions, x.now), disk,
                    disk')
    ensures FileIs(s', disk', start, x)
  {
    hide Content;
    hide OnDisk;
    hide Partition;
    hide Encode;
  }

  // ---------------------------------------------------------------- readConf

  /** How readConf ends: with all lines, or with the exit "disk is full", or by writing an entry over the
      end of the one block that the directory has. */
  datatype Ending = Made | DiskFull | BlockFull

  /** The entries that fit in the block of the directory behind its header. */
  const ROOM: nat := (BLOCK - META) / ENTRY

  /** What the lines and the number of free blocks say about it. */
  ghost function EndOf(lines: seq<Line>, free: nat): Ending {
    if |lines| <= ROOM && 1 + Needed(lines) <= free then Made
    else if ROOM < |lines| && 1 + Needed(lines[..ROOM + 1]) <= free then BlockFull
    else DiskFull
  }

  /** Thirty empty files, on an image that has room for them. */
  lemma ThirtyExample(name: seq<byte>, free: nat)
    requires 31 <= free
    ensures EndOf(seq(30, i => Line(name, [], 0, 0, 0, 0)), free) == BlockFull
  {
    var lines := seq(30, i => Line(name, [], 0, 0, 0, 0));
    assert lines[..30] == lines;
    NeededEach(lines);
  }

  lemma {:induction false} NeededEach(lines: seq<Line>)
    requires forall i :: 0 <= i < |lines| ==> lines[i].content == []
    ensures Needed(lines) == |lines|
    decreases |lines|
  {
    if lines != [] {
      NeededEach(lines[..|lines| - 1]);
    }
  }

  /** The loop after k files, with so many blocks left. */
  lemma EndsAt(lines: seq<Line>, k: nat, left: nat, free: nat)
    requires k <= |lines| && k <= ROOM && left + 1 + Needed(lines[..k]) == free
    ensures k == |lines| ==> EndOf(lines, free) == Made
    ensures k < |lines| && left < BlocksOf(|lines[k].content| + 1) ==> EndOf(lines, free) == DiskFull
    ensures k < |lines| && k == ROOM && BlocksOf(|lines[k].content| + 1) <= left ==> EndOf(lines, free) == BlockFull
    ensures k < |lines| && BlocksOf(|lines[k].content| + 1) <= left ==>
              left - BlocksOf(|lines[k].content| + 1) + 1 + Needed(lines[..k + 1]) == free
  {
    hide BlocksOf;
    assert lines[..|lines|] == lines;
    if k < |lines| {
      NeededNext(lines, k);
      NeededRising(lines, k + 1, if ROOM < |lines| then ROOM + 1 else |lines|);
    }
  }

  /** readConf, on a formatted image; nFiles is the number of line ends of the configuration. */
  method ReadConf(image: Image, lines: seq<Line>, nFiles: nat, now: uint32)
    returns (root: int, made: seq<uint32>, end: Ending)
    requires image.Valid() && 0 < image.first && forall k :: 0 <= k < |lines| ==> Usable(lines[k])
    modifies image`avail, image`fs, image.fat, image.dev.disk
    ensures end == Made ==>
              && image.Valid() && |made| == |lines|
              && Making(image.first, image.fs, image.dev.disk[..], root, lines, made, RootMeta(nFiles, now))
    ensures end == EndOf(lines, |old(image.fs).free|)
    ensures end == DiskFull ==> image.avail == 0
  {
    hide Partition;
    hide Making;
    hide Content;
    hide OnDisk;
    hide Overlay;
    hide Encode;
    hide Copied;
    hide RootMeta;
    hide BlocksOf;
    hide FileMeta;
    hide ConfEntry;
    hide EndOf;
    hide Needed;
    made := [];
    ghost var free := |image.fs.free|;
    NoneFree(lines);
    var ok;
    root, ok := MakeRoot(image, lines, nFiles, now);
    if !ok {
      return root, made, DiskFull;
    }
    var index := 0;
    while index < |lines|
      invariant 0 <= index == |made| <= |lines| && index <= ROOM && image.Valid()
      invariant Making(image.first, image.fs, image.dev.disk[..], root, lines, made, RootMeta(nFiles, now))
      invariant |image.fs.free| + 1 + Needed(lines[..index]) == free
    {
      var x := lines[index];
      ghost var s, disk := image.fs, image.dev.disk[..];
      assert Usable(x);
      EndsAt(lines, index, |image.fs.free|, free);
      var start;
      start, ok := image.OneFile(x.content, x.uid, x.gid, x.permissions, x.now);
      if !ok {
        return root, made, DiskFull;
      }
      var meta := FileMeta(x.content, x.uid, x.gid, x.permissions, x.now);
      CopiedFree(image.first, s, image.fs, start, x.content, meta, disk, image.dev.disk[..]);
      if META + ENTRY * (index + 1) > BLOCK {
        return root, made, BlockFull;
      }
      StartWord(image.first, s, image.fs, start, x.content, meta, disk, image.dev.disk[..]);
      MakingStep(image.first, s, image.fs, root, lines, made, RootMeta(nFiles, now), start, disk, image.dev.disk[..]);
      Memcpy(image.dev.disk, root * BLOCK + META + ENTRY * index, ConfEntry(x.name, start));
      made := made + [start];
      index := index + 1;
    }
    EndsAt(lines, index, |image.fs.free|, free);
    end := Made;
  }

  lemma NoneFree(lines: seq<Line>)
    ensures EndOf(lines, 0) == DiskFull && Needed(lines[..0]) == 0
  {
  }

  lemma CopiedFree(first: int, s: Fs, s': Fs, start: int, content: seq<byte>, m: MetaData, disk: seq<byte>,
                   disk': seq<byte>)
    requires Copied(first, s, s', start, content, m, disk, disk')
    ensures |s.free| == |s'.free| + BlocksOf(|content| + 1)
  {
    hide Content;
    hide Partition;
  }

  lemma StartWord(first: int, s: Fs, s': Fs, start: int, content: seq<byte>, m: MetaData, disk: seq<byte>,
                  disk': seq<byte>)
    requires Copied(first, s, s', start, content, m, disk, disk') && 0 < first && |s.fat| <= MAX_BLOCKS
    ensures 0 < start < U32
  {
    hide Content;
    FileStart(first, s', start);
  }

  /** The directory's block and its header. */
  method MakeRoot(image: Image, lines: seq<Line>, nFiles: nat, now: uint32) returns (root: int, ok: bool)
    requires image.Valid()
    modifies image`avail, image`fs, image.fat, image.dev.disk
    ensures ok <==> old(image.fs).free != []
    ensures !ok ==> image.avail == 0
    ensures ok ==>
              && image.Valid() && image.fs.free == old(image.fs).free[1..]
              && Making(image.first, image.fs, image.dev.disk[..], root, lines, [], RootMeta(nFiles, now))
  {
    hide Partition;
    hide Content;
    hide OnDisk;
    hide Overlay;
    hide Encode;
    AvailFacts(image.first, image.fs);
    root := image.GetBlock();
    if root == 0 {
      return 0, false;
    }
    TakePartition(image.first, image.fs);
    image.fs := Take(image.fs);
    RootBegins(image.first, image.fs, root, image.dev.disk[..], lines, RootMeta(nFiles, now));
    Memcpy(image.dev.disk, root * BLOCK, Encode(RootMeta(nFiles, now)));
    ok := true;
  }

  lemma RootBegins(first: int, s: Fs, root: int, disk: seq<byte>, lines: seq<Line>, m: MetaData)
    requires Partition(first, s) && |s.fat| * BLOCK <= |disk| && root in s.files && s.files[root] == [root]
    ensures 0 <= root && root * BLOCK + META <= |disk|
    ensures Making(first, s, Overlay(disk, root * BLOCK, Encode(m)), root, lines, [], m)
  {
    hide Encode;
    hide Partition;
    FileOnDisk(first, s, root, disk);
  }

  /** What mkfs made can be opened as a directory: the header and the contents fit, and the lines that end
      in a line end are found by their names as the configuration has them, with their contents. */
  lemma RootOpens(first: int, s: Fs, disk: seq<byte>, root: int, lines: seq<Line>, made: seq<uint32>,
                  nFiles: nat, now: uint32, name: seq<byte>, k: nat)
    requires |made| == |lines| && nFiles <= |lines| && CString(name) && k < |lines|
    requires forall i :: 0 <= i < |lines| ==> Usable(lines[i])
    requires Making(first, s, disk, root, lines, made, RootMeta(nFiles, now))
    ensures 0 <= root && root * BLOCK + META <= |disk| && root in s.files && OnDisk(disk, s.files[root])
    ensures var len := Decode(HeaderOf(disk, root)).length;
            && len == ENTRY * nFiles && META + len <= BLOCK * |s.files[root]|
            && LookupOf(root, Content(disk, s.files[root], len), nFiles, name)
               == if name == DOT then root else FirstNamed(lines, made[..nFiles], name)
    ensures RootHeader(Decode(HeaderOf(disk, root)), ENTRY * nFiles, now)
    ensures FileIs(s, disk, made[k], lines[k])
    ensures var x := lines[k];
            FileHeader(Decode(HeaderOf(disk, made[k])), |x.content|, x.uid, x.gid, x.permissions, x.now)
  {
    hide Content;
    hide Partition;
    hide Encode;
    hide Decode;
    hide Find;
    hide LookupOf;
    hide RootMeta;
    hide Entries;
    hide OnDisk;
    RootLength(s, disk, root, Entries(lines, made), nFiles, now);
    FileLength(s, disk, made[k], lines[k]);
    RootFinds(disk, root, lines, made, nFiles, name);
  }

  lemma RootLength(s: Fs, disk: seq<byte>, root: int, entries: seq<byte>, nFiles: nat, now: uint32)
    requires RootIs(s, disk, root, entries, RootMeta(nFiles, now)) && nFiles * ENTRY <= |entries|
    ensures RootHeader(Decode(HeaderOf(disk, root)), ENTRY * nFiles, now)
  {
    hide Content;
    hide Encode;
    hide Decode;
    MetaRoundTrip(RootMeta(nFiles, now));
  }

  lemma FileLength(s: Fs, disk: seq<byte>, start: int, line: Line)
    requires FileIs(s, disk, start, line)
    ensures FileHeader(Decode(HeaderOf(disk, start)), |line.content|, line.uid, line.gid, line.permissions, line.now)
  {
    hide Content;
    hide Encode;
    hide Decode;
    HeaderMade(line.content, line.uid, line.gid, line.permissions, line.now);
  }

  /** The header of the root directory: a directory of user 0, permissions 0664. */
  predicate RootHeader(m: MetaData, size: int, now: uint32) {
    && m.kind == 2 && m.permissions == 0x1b4 && m.uid == 0 && m.gid == 0 && m.length == size
    && m.ctime == m.latime == m.lmtime == now && m.dtime == 0
  }

  lemma RootFinds(disk: seq<byte>, root: int, lines: seq<Line>, made: seq<uint32>, nFiles: nat, name: seq<byte>)
    requires nFiles <= |made| <= |lines| && CString(name) && META + ENTRY * |made| <= BLOCK && OnDisk(disk, [root])
    requires forall i :: 0 <= i < |made| ==> CString(lines[i].name) && made[i] != 0
    requires Content(disk, [root], ENTRY * |made|) == Entries(lines, made)
    ensures LookupOf(root, Content(disk, [root], ENTRY * nFiles), nFiles, name)
         == if name == DOT then root else FirstNamed(lines, made[..nFiles], name)
  {
    hide Content;
    hide OnDisk;
    EntriesPrefix(lines, made, nFiles);
    ContentPrefix(disk, [root], ENTRY * nFiles, ENTRY * |made|);
    RootLookup(lines, made[..nFiles], name);
  }

  lemma ContentPrefix(disk: seq<byte>, chain: seq<int>, len: nat, longer: nat)
    requires OnDisk(disk, chain) && len <= longer && META + longer <= BLOCK * |chain|
    ensures Content(disk, chain, len) == Content(disk, chain, longer)[..len]
  {
  }
}
