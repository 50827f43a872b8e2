/** A device that reads and writes whole sectors, and the byte-wise access built on it. */
module BlockDevice {

  type byte = x: int | 0 <= x < 0x100

  function Min(a: int, b: int): int {
    if a < b then a else b
  }

  /** The bytes of a with s laid over them from `at` on. */
  function Overlay<T>(a: seq<T>, at: int, s: seq<T>): (r: seq<T>)
    requires 0 <= at && at + |s| <= |a|
    ensures |r| == |a|
    ensures forall i :: 0 <= i < |a| ==> r[i] == if at <= i < at + |s| then s[i - at] else a[i]
  {
    a[..at] + s + a[at + |s|..]
  }

  lemma OverlayTwice<T>(a: seq<T>, at: int, s: seq<T>, t: seq<T>)
    requires 0 <= at && at + |s| + |t| <= |a|
    ensures Overlay(Overlay(a, at, s), at + |s|, t) == Overlay(a, at, s + t)
  {
  }

  /** A piece of a piece. */
  lemma SliceTwice<T>(a: seq<T>, from: nat, n: nat, k: nat, m: nat)
    requires from + n <= |a| && k + m <= n
    ensures a[from..from + n][k..k + m] == a[from + k..from + k + m]
  {
    var piece, want := a[from..from + n][k..k + m], a[from + k..from + k + m];
    assert forall i :: 0 <= i < m ==> piece[i] == want[i];
  }

  /** The next piece of some contents, behind the one before. */
  lemma OverlayOn<T>(a: seq<T>, at: nat, content: seq<T>, offset: nat, from: nat, c: nat)
    requires offset <= from && from + c <= |content| && at + (from - offset) + c <= |a|
    ensures Overlay(Overlay(a, at, content[offset..from]), at + (from - offset), content[from..from + c])
         == Overlay(a, at, content[offset..from + c])
  {
    OverlayTwice(a, at, content[offset..from], content[from..from + c]);
    assert content[offset..from] + content[from..from + c] == content[offset..from + c];
  }

  lemma OverlayNothing<T>(a: seq<T>, at: int)
    requires 0 <= at <= |a|
    ensures Overlay(a, at, []) == a
  {
  }

  /** Changing part of a sector and writing the sector back changes just that part. */
  lemma OverlayNested<T>(a: seq<T>, at: int, n: int, inner: int, s: seq<T>)
    requires 0 <= at && 0 <= n && at + n <= |a| && 0 <= inner && inner + |s| <= n
    ensures Overlay(a, at, Overlay(a[at..at + n], inner, s)) == Overlay(a, at + inner, s)
  {
  }

  /** memcpy from a value into an array. */
  method Memcpy(buf: array<byte>, at: nat, s: seq<byte>)
    requires at + |s| <= buf.Length
    modifies buf
    ensures buf[..] == Overlay(old(buf[..]), at, s)
  {
    forall i | 0 <= i < |s| {
      buf[at + i] := s[i];
    }
  }

  class Device {
    const blockSize: nat
    const sectors: nat
    const disk: array<byte>

    ghost predicate Valid() {
      0 < blockSize && disk.Length == sectors * blockSize
    }

    constructor (blockSize: nat, sectors: nat)
      requires 0 < blockSize
      ensures Valid() && this.blockSize == blockSize && this.sectors == sectors && fresh(disk)
    {
      this.blockSize := blockSize;
      this.sectors := sectors;
      disk := new byte[sectors * blockSize];
    }

    /** The sector of a byte of the disk lies on the disk. */
    lemma SectorOnDisk(offset: int)
      requires Valid() && 0 <= offset < disk.Length
      ensures var s := offset / blockSize * blockSize; 0 <= s <= offset < s + blockSize <= disk.Length
    {
      var q := offset / blockSize;
      assert offset == q * blockSize + offset % blockSize;
      SectorBelow(q, sectors, blockSize, offset);
    }

    static lemma {:induction false} MulLe(a: int, b: int, d: int)
      requires a <= b && 0 <= d
      ensures a * d <= b * d
      decreases b - a
    {
      if a < b {
        MulLe(a + 1, b, d);
      }
    }

    static lemma SectorBelow(q: int, n: int, d: int, x: int)
      requires 0 < d && q * d <= x < n * d
      ensures q * d + d <= n * d
    {
      if n <= q {
        MulLe(n, q, d);
      } else {
        MulLe(q + 1, n, d);
      }
    }

    /** The bytes from `offset` to the end of its sector. */
    function Room(offset: nat): (r: int)
      requires 0 < blockSize
      ensures 0 < r <= blockSize
    {
      blockSize - offset % blockSize
    }

    /** The driver: copies sector `sector` into the buffer. */
    method ReadBlock(sector: nat, data: array<byte>)
      requires data.Length == blockSize && sector * blockSize + blockSize <= disk.Length && data != disk
      modifies data
      ensures data[..] == disk[sector * blockSize..sector * blockSize + blockSize]
    {
      var base := sector * blockSize;
      forall i | 0 <= i < blockSize {
        data[i] := disk[base + i];
      }
    }

    method WriteBlock(sector: nat, data: array<byte>)
      requires data.Length == blockSize && sector * blockSize + blockSize <= disk.Length && data != disk
      modifies disk
      ensures disk[..] == Overlay(old(disk[..]), sector * blockSize, data[..])
    {
      var base := sector * blockSize;
      forall i | 0 <= i < blockSize {
        disk[base + i] := data[i];
      }
    }

    /** At most n bytes from `offset` on, as far as the sector goes. */
    method Read(offset: nat, buf: array<byte>, at: nat, n: nat) returns (m: nat)
      requires Valid() && offset < disk.Length && at + n <= buf.Length && buf != disk
      modifies buf
      ensures m == Min(n, Room(offset)) && offset + m <= disk.Length
      ensures buf[..] == Overlay(old(buf[..]), at, disk[..][offset..offset + m])
    {
      hide Overlay;
      SectorOnDisk(offset);
      var sector := offset / blockSize;
      var data := new byte[blockSize];
      ReadBlock(sector, data);
      var dataOffset := offset - sector * blockSize;
      m := Min(n, blockSize - dataOffset);
      SliceTwice(disk[..], sector * blockSize, blockSize, dataOffset, m);
      var s := data[..][dataOffset..dataOffset + m];
      Memcpy(buf, at, s);
    }

    /** At most as many bytes of s as the sector at `offset` takes; the rest of the disk is kept. */
    method Write(offset: nat, s: seq<byte>) returns (m: nat)
      requires Valid() && offset < disk.Length
      modifies disk
      ensures m == Min(|s|, Room(offset)) && offset + m <= disk.Length
      ensures disk[..] == Overlay(old(disk[..]), offset, s[..m])
    {
      hide Overlay;
      SectorOnDisk(offset);
      var sector := offset / blockSize;
      var data := new byte[blockSize];
      ReadBlock(sector, data);
      var dataOffset := offset - sector * blockSize;
      m := Min(|s|, blockSize - dataOffset);
      Memcpy(data, dataOffset, s[..m]);
      OverlayNested(disk[..], sector * blockSize, blockSize, dataOffset, s[..m]);
      WriteBlock(sector, data);
    }

    method ReadFully(offset: nat, buf: array<byte>, at: nat, n: nat)
      requires Valid() && offset + n <= disk.Length && at + n <= buf.Length && buf != disk
      modifies buf
      ensures buf[..] == Overlay(old(buf[..]), at, disk[..][offset..offset + n])
    {
      hide Overlay;
      hide Room;
      hide Valid;
      var togo, ptr, from := n, at, offset;
      ghost var content, before := disk[..], buf[..];
      assert content[offset..offset] == [];
      OverlayNothing(before, at);
      while 0 < togo
        invariant 0 <= togo <= n && ptr == at + n - togo && from == offset + n - togo
        invariant disk[..] == content && buf[..] == Overlay(before, at, content[offset..from])
      {
        var c := Read(from, buf, ptr, togo);
        OverlayOn(before, at, content, offset, from, c);
        togo, ptr, from := togo - c, ptr + c, from + c;
      }
    }

    method WriteFully(offset: nat, s: seq<byte>)
      requires Valid() && offset + |s| <= disk.Length
      modifies disk
      ensures disk[..] == Overlay(old(disk[..]), offset, s)
    {
      hide Overlay;
      hide Room;
      var done := 0;
      OverlayNothing(disk[..], offset);
      while done < |s|
        invariant done <= |s|
        invariant disk[..] == Overlay(old(disk[..]), offset, s[..done])
      {
        var c := Write(offset + done, s[done..]);
        OverlayTwice(old(disk[..]), offset, s[..done], s[done..][..c]);
        assert s[..done] + s[done..][..c] == s[..done + c];
        done := done + c;
      }
      assert s[..done] == s;
    }
  }
}
