/** Every sequence of new files and writes on a FAT439 file system: the files are as if each were a byte
    string of its own. */
module FileRuns {
  import opened BlockDevice
  import opened FatModel
  import opened FileModel
  import opened Fat439FileSystem
  import opened Fat439DirectoryFile
  import opened MakeFileSystem

  /** The links, the disk, and the header of each file. */
  datatype Store = Store(s: Fs, disk: seq<byte>, metas: map<int, MetaData>)

  ghost predicate FileSound(st: Store, f: int) {
    && f in st.s.files && f in st.metas && META + st.metas[f].length <= BLOCK * |st.s.files[f]|
    && 0 <= f && f * BLOCK + META <= |st.disk| && HeaderOf(st.disk, f) == Encode(st.metas[f])
  }

  ghost predicate Sound(first: int, st: Store) {
    && Partition(first, st.s) && |st.s.fat| * BLOCK <= |st.disk|
    && st.metas.Keys == st.s.files.Keys && forall f :: f in st.s.files ==> FileSound(st, f)
  }

  /** The bytes of a file. */
  ghost function Bytes(first: int, st: Store, f: int): (c: seq<byte>)
    requires Sound(first, st) && f in st.s.files
    ensures |c| == st.metas[f].length
  {
    FileOnDisk(first, st.s, f, st.disk);
    assert FileSound(st, f);
    Content(st.disk, st.s.files[f], st.metas[f].length)
  }

  /** What a user sees: byte strings, named by first blocks. */
  ghost function Files(first: int, st: Store): map<int, seq<byte>>
    requires Sound(first, st)
  {
    map f | f in st.s.files :: Bytes(first, st, f)
  }

  // ---------------------------------------------------------------- events

  /** A new empty file at b; or a call of write with its result, which may be the error. */
  datatype Event = Create(b: int, m: MetaData) | WriteTo(f: int, offset: uint32, data: seq<byte>, cnt: int)

  /** A write that frees blocks of its file is not among the events: it ends the partition. */
  ghost predicate Happens(first: int, st: Store, e: Event, st': Store) {
    match e
    case Create(b, m) =>
      && TakenFor(first, st.s, st'.s, b, st.disk, st'.disk) && m.length == 0 && st'.metas == st.metas[b := m]
      && 0 <= b && b * BLOCK + META <= |st'.disk| && HeaderOf(st'.disk, b) == Encode(m)
    case WriteTo(f, offset, data, cnt) =>
      && f in st.metas && f in st.s.files && f in st'.metas && st'.metas == st.metas[f := st'.metas[f]] && data != []
      && (offset <= st.metas[f].length ==> !Shortens(st.s, f, offset, |data|, st.metas[f].length))
      && WriteOutcome(first, st.s, st'.s, f, offset, data, cnt, true, st.metas[f], st'.metas[f], st.disk, st'.disk,
                      st'.s.fat, st'.s.avail)
  }

  /** The same on byte strings. */
  function Meant(files: map<int, seq<byte>>, e: Event): map<int, seq<byte>> {
    match e
    case Create(b, _) => files[b := []]
    case WriteTo(f, offset, data, cnt) =>
      if f in files && offset <= |files[f]| && 0 <= cnt <= |data|
      then files[f := files[f][..offset] + data[..cnt]]
      else files
  }

  lemma StepMeant(first: int, st: Store, e: Event, st': Store)
    requires Sound(first, st) && Happens(first, st, e, st')
    ensures Sound(first, st') && Files(first, st') == Meant(Files(first, st), e)
  {
    match e
    case Create(b, m) => CreateMeant(first, st, e, st');
    case WriteTo(f, offset, data, cnt) => WriteMeant(first, st, e, st');
  }

  /** File f has these bytes. */
  ghost predicate FileHas(st: Store, f: int, c: seq<byte>) {
    FileSound(st, f) && OnDisk(st.disk, st.s.files[f]) && Content(st.disk, st.s.files[f], st.metas[f].length) == c
  }

  /** A file none of whose blocks has changed. */
  lemma Untouched(first: int, st: Store, st': Store, chain: seq<int>, g: int)
    requires Sound(first, st) && Partition(first, st'.s) && |st'.s.fat| == |st.s.fat| && g in st.s.files
    requires g in st'.s.files && st'.s.files[g] == st.s.files[g] && g in st'.metas && st'.metas[g] == st.metas[g]
    requires OnlyBlocks(st.disk, st'.disk, chain) && forall b :: b in st.s.files[g] ==> b !in chain
    ensures FileHas(st', g, Bytes(first, st, g))
  {
    hide Content;
    hide Partition;
    hide OnDisk;
    assert FileSound(st, g);
    FileKept(first, st.s, st.disk, st'.disk, chain, g, st.metas[g].length);
  }

  /** File f has changed or is new, and no other file has changed. */
  lemma OneChanged(first: int, st: Store, st': Store, f: int, c: seq<byte>)
    requires Sound(first, st) && Partition(first, st'.s) && |st'.s.fat| * BLOCK <= |st'.disk|
    requires st'.metas.Keys == st'.s.files.Keys == st.s.files.Keys + {f}
    requires forall g :: g in st.s.files && g != f ==> FileHas(st', g, Bytes(first, st, g))
    requires FileHas(st', f, c)
    ensures Sound(first, st') && Files(first, st') == Files(first, st)[f := c]
  {
    hide Content;
    hide Partition;
    hide OnDisk;
    hide FileSound;
    assert forall g :: g in st'.s.files ==> FileSound(st', g);
    assert Sound(first, st');
    forall g | g in st'.s.files
      ensures Files(first, st')[g] == Files(first, st)[f := c][g]
    {
      assert g != f ==> FileHas(st', g, Bytes(first, st, g));
    }
  }

  lemma CreateMeant(first: int, st: Store, e: Event, st': Store)
    requires Sound(first, st) && Happens(first, st, e, st') && e.Create?
    ensures Sound(first, st') && Files(first, st') == Meant(Files(first, st), e)
  {
    hide Content;
    hide Partition;
    hide OnlyBlocks;
    hide FileSound;
    var b := e.b;
    forall g | g in st.s.files && g != b
      ensures FileHas(st', g, Bytes(first, st, g))
    {
      TakenApart(first, st.s, st'.s, b, g);
      Untouched(first, st, st', [b], g);
    }
    SameSize(st.disk, st'.disk, [b]);
    CreatedEmpty(first, st, e, st');
    OneChanged(first, st, st', b, []);
  }

  lemma CreatedEmpty(first: int, st: Store, e: Event, st': Store)
    requires Sound(first, st) && Happens(first, st, e, st') && e.Create?
    ensures FileHas(st', e.b, [])
  {
    hide OnlyBlocks;
    SameSize(st.disk, st'.disk, [e.b]);
    FileOnDisk(first, st'.s, e.b, st'.disk);
  }

  lemma TakenApart(first: int, s: Fs, s': Fs, b: int, g: int)
    requires Partition(first, s) && Partition(first, s')
    requires b !in s.files && s'.files == s.files[b := [b]] && g in s.files
    ensures forall x :: x in s.files[g] ==> x !in [b]
  {
    FilesDisjoint(first, s', b, g);
  }

  lemma WriteMeant(first: int, st: Store, e: Event, st': Store)
    requires Sound(first, st) && Happens(first, st, e, st') && e.WriteTo?
    ensures Sound(first, st') && Files(first, st') == Meant(Files(first, st), e)
  {
    hide Content;
    hide Partition;
    hide OnDisk;
    hide OnlyBlocks;
    hide HeaderOf;
    hide Encode;
    hide WriteOutcome;
    hide Shortens;
    hide FileSound;
    var f, m, m' := e.f, st.metas[e.f], st'.metas[e.f];
    WriteHas(first, st, e, st');
    WriteKeys(first, st.s, st'.s, f, e.offset, e.data, e.cnt, m, m', st.disk, st'.disk, st'.s.fat, st'.s.avail);
    var chain := st'.s.files[f];
    SameSize(st.disk, st'.disk, chain);
    forall g | g in st.s.files && g != f
      ensures FileHas(st', g, Bytes(first, st, g))
    {
      FilesDisjoint(first, st'.s, f, g);
      Untouched(first, st, st', chain, g);
    }
    OneChanged(first, st, st', f, Meant(Files(first, st), e)[f]);
  }

  lemma WriteHas(first: int, st: Store, e: Event, st': Store)
    requires Sound(first, st) && Happens(first, st, e, st') && e.WriteTo?
    ensures FileHas(st', e.f, Meant(Files(first, st), e)[e.f])
    ensures OnlyGrown(first, st.s, st'.s, e.f, st.disk, st'.disk)
  {
    hide Content;
    hide Partition;
    hide OnDisk;
    hide OnlyBlocks;
    hide HeaderOf;
    hide Encode;
    hide WriteOutcome;
    hide Shortens;
    var f, m, m' := e.f, st.metas[e.f], st'.metas[e.f];
    assert FileSound(st, f);
    FileOnDisk(first, st.s, f, st.disk);
    WriteKept(first, st.s, st'.s, f, e.offset, e.data, e.cnt, true, m, m', st.disk, st'.disk, st'.s.fat, st'.s.avail);
    assert Files(first, st)[f] == Bytes(first, st, f);
  }

  /** A write makes no file. */
  lemma WriteKeys(first: int, s: Fs, s': Fs, start: int, offset: int, data: seq<byte>, cnt: int,
                  m: MetaData, m': MetaData, disk: seq<byte>, disk': seq<byte>, fat': Fat, avail': int)
    requires WriteOutcome(first, s, s', start, offset, data, cnt, true, m, m', disk, disk', fat', avail')
    ensures s'.files.Keys == s.files.Keys
  {
    hide Partition;
    hide WriteEffect;
    if offset <= m.length && s.avail != 0 {
      ExtendPartition(first, s, start);
    }
  }

  // ---------------------------------------------------------------- every run

  ghost predicate Run(first: int, sts: seq<Store>, es: seq<Event>) {
    |sts| == |es| + 1 && Sound(first, sts[0]) && forall i: nat :: i < |es| ==> Happens(first, sts[i], es[i], sts[i + 1])
  }

  function AllMeant(files: map<int, seq<byte>>, es: seq<Event>): map<int, seq<byte>> {
    if es == [] then files else Meant(AllMeant(files, es[..|es| - 1]), es[|es| - 1])
  }

  /** After every run each file holds what the calls on it mean, and what was on the disk at the start of
      the run if there were none. */
  lemma {:induction false} RunMeant(first: int, sts: seq<Store>, es: seq<Event>, n: nat)
    requires Run(first, sts, es) && n <= |es|
    ensures Sound(first, sts[n]) && Files(first, sts[n]) == AllMeant(Files(first, sts[0]), es[..n])
    decreases n
  {
    hide Sound;
    hide Happens;
    hide Files;
    if n > 0 {
      RunMeant(first, sts, es, n - 1);
      assert Happens(first, sts[n - 1], es[n - 1], sts[n - 1 + 1]);
      StepMeant(first, sts[n - 1], es[n - 1], sts[n]);
      assert es[..n][..n - 1] == es[..n - 1];
    }
  }

  /** The bytes that read finds by block and offset. */
  ghost predicate Finds(st: Store, f: int, offset: nat, piece: seq<byte>) {
    f in st.s.files && var p := META + offset;
    var at := BlockAt(st.s.files[f], p / BLOCK) * BLOCK + p % BLOCK;
    0 <= at && at + |piece| <= |st.disk| && st.disk[at..at + |piece|] == piece
  }

  /** So what read finds is a piece of the string that the calls mean. */
  lemma ReadsMeant(first: int, sts: seq<Store>, es: seq<Event>, n: nat, f: int, offset: nat, m: nat)
    requires Run(first, sts, es) && n <= |es| && f in sts[n].s.files
    requires f in sts[n].metas && offset + m <= sts[n].metas[f].length && (META + offset) % BLOCK + m <= BLOCK
    ensures var files := AllMeant(Files(first, sts[0]), es[..n]);
            && f in files && |files[f]| == sts[n].metas[f].length
            && Finds(sts[n], f, offset, files[f][offset..offset + m])
  {
    hide Sound;
    hide Happens;
    hide Files;
    hide Finds;
    RunMeant(first, sts, es, n);
    FindsBytes(first, sts[n], f, offset, m);
  }

  lemma FindsBytes(first: int, st: Store, f: int, offset: nat, m: nat)
    requires Sound(first, st) && f in st.s.files
    requires offset + m <= st.metas[f].length && (META + offset) % BLOCK + m <= BLOCK
    ensures f in Files(first, st) && |Files(first, st)[f]| == st.metas[f].length
    ensures Finds(st, f, offset, Files(first, st)[f][offset..offset + m])
  {
    hide Partition;
    hide Content;
    hide OnDisk;
    FileOnDisk(first, st.s, f, st.disk);
    assert FileSound(st, f);
    assert Files(first, st)[f] == Bytes(first, st, f);
    ReadContent(st.disk, st.s.files[f], st.metas[f].length, offset, m);
  }

  /** Runs may start on an image that has just been formatted. */
  lemma FormattedSound(n: nat, disk: seq<byte>)
    requires 3 <= n && n * BLOCK <= |disk|
    ensures var st := Store(Formatted(n), disk, map[]);
            Sound(FirstData(n), st) && Files(FirstData(n), st) == map[]
  {
    FormattedPartition(n);
  }
}
