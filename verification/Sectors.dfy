/** Reading and writing any range of bytes of a drive that transfers whole sectors. */
module Sectors {
  import opened Entries
  import opened Writing

  const SECTOR := 512        // bytes of a sector
  const ATA_MAX := 255       // sectors of one transfer

  // ----- cylinder, head and sector -----

  datatype Chs = Chs(cylinder: nat, head: nat, sector: nat)

  function LbaToChs(lba: nat, spt: nat, nh: nat): Chs
    requires spt > 0 && nh > 0
  {
    Chs(lba / spt / nh, lba / spt % nh, 1 + lba % spt)
  }

  /** The registers of the disk call: sixteen bits each. */
  function PackCx(chs: Chs): nat { chs.cylinder % 0x100 * 0x100 + chs.sector % 0x40 + chs.cylinder / 0x100 % 4 * 0x40 }

  function PackDh(chs: Chs): nat { chs.head % 0x100 }

  /** What the disk call reads from them. */
  function Unpack(cx: nat, dh: nat): Chs { Chs(cx / 0x100 % 0x100 + cx / 0x40 % 4 * 0x100, dh, cx % 0x40) }

  /** The sector that a cylinder, head and sector number stand for. */
  function ChsToLba(chs: Chs, spt: nat, nh: nat): int { (chs.cylinder * nh + chs.head) * spt + chs.sector - 1 }

  lemma ChsBack(lba: nat, spt: nat, nh: nat)
    requires spt > 0 && nh > 0
    ensures ChsToLba(LbaToChs(lba, spt, nh), spt, nh) == lba
    ensures LbaToChs(lba, spt, nh).head < nh && 1 <= LbaToChs(lba, spt, nh).sector <= spt
  {
    var temp := lba / spt;
    assert lba == temp * spt + lba % spt;
    assert temp == temp / nh * nh + temp % nh;
  }

  /** Sectors are counted along a track, then over the heads, then over the cylinders. */
  lemma ChsNext(lba: nat, spt: nat, nh: nat)
    requires spt > 0 && nh > 0
    ensures LbaToChs(0, spt, nh) == Chs(0, 0, 1)
    ensures var chs := LbaToChs(lba, spt, nh);
      LbaToChs(lba + 1, spt, nh) ==
        if chs.sector < spt then Chs(chs.cylinder, chs.head, chs.sector + 1)
        else if chs.head + 1 < nh then Chs(chs.cylinder, chs.head + 1, 1)
        else Chs(chs.cylinder + 1, 0, 1)
  {
    DivNext(lba, spt);
    DivNext(lba / spt, nh);
  }

  lemma DivNext(a: nat, d: nat)
    requires d > 0
    ensures 0 / d == 0 && 0 % d == 0
    ensures if a % d + 1 < d then (a + 1) / d == a / d && (a + 1) % d == a % d + 1
      else (a + 1) / d == a / d + 1 && (a + 1) % d == 0
  {
    var q, r := a / d, a % d;
    assert a == d * q + r;
    if r + 1 < d { DivIs(a + 1, q, r + 1, d); } else { DivIs(a + 1, q + 1, 0, d); }
  }

  lemma DivIs(a: nat, q: nat, r: nat, d: nat)
    requires d > 0 && a == d * q + r && r < d
    ensures a / d == q && a % d == r
  {
    var q', r' := a / d, a % d;
    assert d * (q - q') == r' - r by { assert d * (q - q') == d * q - d * q'; }
    if q > q' { AtLeast(d, q - q'); }
    assert d * (q' - q) == r - r' by { assert d * (q' - q) == d * q' - d * q; }
    if q < q' { AtLeast(d, q' - q); }
  }

  lemma {:induction false} AtLeast(d: nat, k: nat)
    requires k > 0
    ensures d * k >= d
  {
    if k > 1 {
      AtLeast(d, k - 1);
      assert d * k == d * (k - 1) + d;
    }
  }

  /** Where the numbers are in the registers: the low eight bits of the cylinder in the high byte of CX, two more in
      its bits 6 and 7, the sector below them, and the head in the high byte of DX. */
  lemma InRegisters(chs: Chs)
    requires chs.cylinder < 1024 && chs.head < 256 && chs.sector < 64
    ensures PackCx(chs) / 256 == chs.cylinder % 256 && PackCx(chs) / 64 % 4 == chs.cylinder / 256
    ensures PackCx(chs) % 64 == chs.sector && PackDh(chs) == chs.head
  {
    var low := chs.sector + chs.cylinder / 0x100 * 0x40;
    assert PackCx(chs) == chs.cylinder % 0x100 * 0x100 + low && low < 0x100;
    assert PackCx(chs) / 0x40 == chs.cylinder % 0x100 * 4 + chs.cylinder / 0x100;
  }

  /** Packing loses nothing exactly within 1024 cylinders, 256 heads and 63 sectors. */
  lemma PackBack(chs: Chs)
    ensures Unpack(PackCx(chs), PackDh(chs)) == chs <==> chs.cylinder < 1024 && chs.head < 256 && chs.sector < 64
  {
    Unpacked(chs);
    hide Unpack, PackCx, PackDh;
  }

  lemma Unpacked(chs: Chs)
    ensures Unpack(PackCx(chs), PackDh(chs)) == Chs(chs.cylinder % 0x400, chs.head % 0x100, chs.sector % 0x40)
  {
    hide PackCx, PackDh;
    var low := Chs(chs.cylinder % 0x400, chs.head % 0x100, chs.sector % 0x40);
    LowBits(chs);
    InRegisters(low);
    CylinderBits(chs.cylinder);
    assert low.cylinder % 256 % 0x100 == low.cylinder % 256;
  }

  lemma LowBits(chs: Chs)
    ensures var low := Chs(chs.cylinder % 0x400, chs.head % 0x100, chs.sector % 0x40);
      PackCx(chs) == PackCx(low) && PackDh(chs) == PackDh(low)
  {
    var c, s := chs.cylinder % 0x400, chs.sector % 0x40;
    CylinderBits(chs.cylinder);
    assert c / 0x100 % 4 == c / 0x100 && s % 0x40 == s;
  }

  lemma CylinderBits(c: nat)
    ensures c % 0x400 % 0x100 == c % 0x100 && c % 0x400 / 0x100 == c / 0x100 % 4
    ensures c % 0x100 + c / 0x100 % 4 * 0x100 == c % 0x400
  {}

  lemma LessThan(a: nat, b: nat, d: nat)
    requires d > 0 && a < b * d
    ensures a / d < b
  {}

  /** On a drive within those limits, every sector is found again from the registers. */
  lemma ChsReaches(lba: nat, spt: nat, nh: nat)
    requires 0 < spt <= 63 && 0 < nh <= 256 && lba < 1024 * nh * spt
    ensures ChsToLba(Unpack(PackCx(LbaToChs(lba, spt, nh)), PackDh(LbaToChs(lba, spt, nh))), spt, nh) == lba
  {
    var chs := LbaToChs(lba, spt, nh);
    LessThan(lba, 1024 * nh, spt);
    LessThan(lba / spt, 1024, nh);
    assert chs.head < nh && chs.sector <= spt;
    PackBack(chs);
    ChsBack(lba, spt, nh);
  }

  // ----- drives -----

  class Drive {
    const ata: bool
    const spt: nat
    const sides: nat
    const diskBuff: array<Byte>
    var data: seq<Byte>

    /** Whole sectors; on the BIOS path, no more of them than the registers can name. */
    predicate Valid()
      reads this
    {
      && diskBuff.Length == SECTOR && |data| % SECTOR == 0
      && (!ata ==> 0 < spt <= 63 && 0 < sides <= 256 && |data| / SECTOR <= 1024 * sides * spt)
    }

    constructor (ata: bool, spt: nat, sides: nat, data: seq<Byte>)
      requires |data| % SECTOR == 0
      requires !ata ==> 0 < spt <= 63 && 0 < sides <= 256 && |data| / SECTOR <= 1024 * sides * spt
      ensures Valid() && fresh(diskBuff) && this.data == data && this.ata == ata
    {
      this.ata, this.spt, this.sides, this.data := ata, spt, sides, data;
      diskBuff := new Byte[SECTOR];
    }

    /** The bytes of some sectors. */
    function Sector(s: nat, n: nat): seq<Byte>
      requires (s + n) * SECTOR <= |data|
      reads this`data
    {
      data[s * SECTOR..(s + n) * SECTOR]
    }

    /** One transfer from the device. */
    method AtaRead(s: nat, n: nat, buff: array<Byte>, at: nat)
      requires 0 < n <= ATA_MAX && (s + n) * SECTOR <= |data| && at + n * SECTOR <= buff.Length
      modifies buff
      ensures buff[..] == Overwritten(old(buff[..]), at, Sector(s, n))
    {
      Copy(buff, at, Sector(s, n));
    }

    /** One transfer to the device. */
    method AtaWrite(s: nat, n: nat, buff: array<Byte>, at: nat)
      requires 0 < n <= ATA_MAX && (s + n) * SECTOR <= |data| && at + n * SECTOR <= buff.Length
      modifies this`data
      ensures data == Overwritten(old(data), s * SECTOR, buff[at..at + n * SECTOR])
    {
      data := Overwritten(data, s * SECTOR, buff[at..at + n * SECTOR]);
    }

    /** The disk call: one sector, named by the registers, through the disk buffer. */
    method BiosRead(cx: nat, dh: nat)
      requires diskBuff.Length == SECTOR
      requires var lba := ChsToLba(Unpack(cx, dh), spt, sides); 0 <= lba && (lba + 1) * SECTOR <= |data|
      modifies diskBuff
      ensures diskBuff[..] == Sector(ChsToLba(Unpack(cx, dh), spt, sides), 1)
    {
      var bytes := Sector(ChsToLba(Unpack(cx, dh), spt, sides), 1);
      Copy(diskBuff, 0, bytes);
    }

    method BiosWrite(cx: nat, dh: nat)
      requires diskBuff.Length == SECTOR
      requires var lba := ChsToLba(Unpack(cx, dh), spt, sides); 0 <= lba && (lba + 1) * SECTOR <= |data|
      modifies this`data
      ensures data == Overwritten(old(data), ChsToLba(Unpack(cx, dh), spt, sides) * SECTOR, diskBuff[..])
    {
      data := Overwritten(data, ChsToLba(Unpack(cx, dh), spt, sides) * SECTOR, diskBuff[..]);
    }
  }

  method Copy(buff: array<Byte>, at: nat, bytes: seq<Byte>)
    requires at + |bytes| <= buff.Length
    modifies buff
    ensures buff[..] == Overwritten(old(buff[..]), at, bytes)
  {
    forall i | 0 <= i < |bytes| { buff[at + i] := bytes[i]; }
  }

  lemma DriveReaches(d: Drive, lba: nat)
    requires d.Valid() && !d.ata && (lba + 1) * SECTOR <= |d.data|
    ensures d.spt > 0 && d.sides > 0
    ensures var chs := LbaToChs(lba, d.spt, d.sides);
      ChsToLba(Unpack(PackCx(chs), PackDh(chs)), d.spt, d.sides) == lba
  {
    hide LbaToChs, PackCx, PackDh, Unpack, ChsToLba;
    ChsReaches(lba, d.spt, d.sides);
  }

  lemma PutNone(s: seq<Byte>, at: nat, bytes: seq<Byte>)
    requires at <= |s| && bytes == []
    ensures Overwritten(s, at, bytes) == s
  {}

  lemma ReadMore(s: seq<Byte>, at: nat, d: Drive, sector: nat, n: nat, m: nat)
    requires (sector + n + m) * SECTOR <= |d.data| && at + (n + m) * SECTOR <= |s|
    ensures Overwritten(Overwritten(s, at, d.Sector(sector, n)), at + n * SECTOR, d.Sector(sector + n, m)) ==
      Overwritten(s, at, d.Sector(sector, n + m))
  {
    assert d.Sector(sector, n) + d.Sector(sector + n, m) == d.Sector(sector, n + m);
    OverwrittenTwice(s, at, d.Sector(sector, n), d.Sector(sector + n, m));
  }

  /** Reads whole sectors in runs of up to 255. */
  method AtaReadSectors(d: Drive, sector: nat, count: nat, buff: array<Byte>, at: nat)
    requires (sector + count) * SECTOR <= |d.data| && at + count * SECTOR <= buff.Length
    modifies buff
    ensures buff[..] == Overwritten(old(buff[..]), at, d.Sector(sector, count))
  {
    hide Overwritten;
    ghost var before := buff[..];
    var n, s, b := count, sector, at;
    PutNone(before, at, d.Sector(sector, 0));
    while n > 0
      invariant 0 <= n <= count && s == sector + (count - n) && b == at + (count - n) * SECTOR
      invariant buff[..] == Overwritten(before, at, d.Sector(sector, count - n))
    {
      var some := Min(n, ATA_MAX);
      d.AtaRead(s, some, buff, b);
      ReadMore(before, at, d, sector, count - n, some);
      n := n - some;
      s := s + some;
      b := b + some * SECTOR;
    }
  }

  /** Reads whole sectors one by one through the disk buffer. */
  method BiosReadSectors(d: Drive, sector: nat, count: nat, buff: array<Byte>, at: nat)
    requires d.Valid() && !d.ata && (sector + count) * SECTOR <= |d.data| && at + count * SECTOR <= buff.Length
    requires buff == d.diskBuff ==> at == 0 && count == 1
    modifies buff, d.diskBuff
    ensures buff[..] == Overwritten(old(buff[..]), at, d.Sector(sector, count))
  {
    hide Overwritten, LbaToChs, PackCx, PackDh, Unpack, ChsToLba;
    ghost var before := buff[..];
    var s := 0;
    PutNone(before, at, d.Sector(sector, 0));
    while s < count
      invariant 0 <= s <= count
      invariant buff[..] == Overwritten(before, at, d.Sector(sector, s))
    {
      DriveReaches(d, sector + s);
      var chs := LbaToChs(sector + s, d.spt, d.sides);
      ReadMore(before, at, d, sector, s, 1);
      ghost var soFar := buff[..];
      d.BiosRead(PackCx(chs), PackDh(chs));
      if buff != d.diskBuff {
        assert buff[..] == soFar;
        Copy(buff, at + s * SECTOR, d.diskBuff[..]);
      } else {
        PutAll(before, d.Sector(sector, 1));
      }
      s := s + 1;
    }
  }

  lemma PutAll(s: seq<Byte>, bytes: seq<Byte>)
    requires |s| == |bytes|
    ensures Overwritten(s, 0, bytes) == bytes
  {}

  /** Reads whole sectors. */
  method ReadSectors(d: Drive, sector: nat, count: nat, buff: array<Byte>, at: nat)
    requires d.Valid() && (sector + count) * SECTOR <= |d.data| && at + count * SECTOR <= buff.Length
    requires buff == d.diskBuff ==> at == 0 && count == 1
    modifies buff, d.diskBuff
    ensures buff[..] == Overwritten(old(buff[..]), at, d.Sector(sector, count))
  {
    if d.ata {
      AtaReadSectors(d, sector, count, buff, at);
    } else {
      BiosReadSectors(d, sector, count, buff, at);
    }
  }

  lemma WriteMore(s: seq<Byte>, at: nat, bytes: seq<Byte>, lo: nat, hi: nat)
    requires lo <= hi <= |bytes| && at + |bytes| <= |s|
    ensures Overwritten(Overwritten(s, at, bytes[..lo]), at + lo, bytes[lo..hi]) == Overwritten(s, at, bytes[..hi])
  {
    assert bytes[..lo] + bytes[lo..hi] == bytes[..hi];
    OverwrittenTwice(s, at, bytes[..lo], bytes[lo..hi]);
  }

  lemma SliceOfSlice(s: seq<Byte>, i: nat, j: nat, lo: nat, hi: nat)
    requires i <= j <= |s| && lo <= hi <= j - i
    ensures s[i..j][lo..hi] == s[i + lo..i + hi]
  {
    var part := s[i..j];
    forall k | 0 <= k < hi - lo ensures part[lo..hi][k] == s[i + lo..i + hi][k] {
      assert part[lo + k] == s[i + (lo + k)];
    }
  }

  lemma PutLength(s: seq<Byte>, at: nat, bytes: seq<Byte>)
    requires at + |bytes| <= |s|
    ensures |Overwritten(s, at, bytes)| == |s|
  {}

  /** Writes whole sectors in runs of up to 255. */
  method AtaWriteSectors(d: Drive, sector: nat, count: nat, buff: array<Byte>, at: nat)
    requires (sector + count) * SECTOR <= |d.data| && at + count * SECTOR <= buff.Length
    modifies d`data
    ensures d.data == Overwritten(old(d.data), sector * SECTOR, buff[at..at + count * SECTOR])
  {
    hide Overwritten;
    ghost var before := d.data;
    ghost var bytes := buff[..][at..at + count * SECTOR];
    var n, s, b := count, sector, at;
    PutNone(before, sector * SECTOR, bytes[..0]);
    while n > 0
      invariant 0 <= n <= count && s == sector + (count - n) && b == at + (count - n) * SECTOR
      invariant d.data == Overwritten(before, sector * SECTOR, bytes[..(count - n) * SECTOR])
    {
      var some := Min(n, ATA_MAX);
      ghost var lo, hi := (count - n) * SECTOR, (count - n + some) * SECTOR;
      SliceOfSlice(buff[..], at, at + count * SECTOR, lo, hi);
      assert buff[b..b + some * SECTOR] == buff[..][at + lo..at + hi];
      WriteMore(before, sector * SECTOR, bytes, lo, hi);
      PutLength(before, sector * SECTOR, bytes[..lo]);
      d.AtaWrite(s, some, buff, b);
      n := n - some;
      s := s + some;
      b := b + some * SECTOR;
    }
    assert bytes[..count * SECTOR] == bytes;
  }

  /** Writes whole sectors one by one through the disk buffer. */
  method BiosWriteSectors(d: Drive, sector: nat, count: nat, buff: array<Byte>, at: nat)
    requires d.Valid() && !d.ata && (sector + count) * SECTOR <= |d.data| && at + count * SECTOR <= buff.Length
    requires buff == d.diskBuff ==> at == 0 && count == 1
    modifies d`data, d.diskBuff
    ensures d.data == Overwritten(old(d.data), sector * SECTOR, old(buff[at..at + count * SECTOR]))
    ensures buff[..] == old(buff[..])
  {
    hide Overwritten, LbaToChs, PackCx, PackDh, Unpack, ChsToLba;
    ghost var before, all := d.data, buff[..];
    ghost var bytes := all[at..at + count * SECTOR];
    assert bytes == buff[at..at + count * SECTOR];
    PutNone(before, sector * SECTOR, bytes[..0]);
    var s := 0;
    while s < count
      invariant 0 <= s <= count && d.Valid() && |d.data| == |before|
      invariant d.data == Overwritten(before, sector * SECTOR, bytes[..s * SECTOR])
      invariant buff[..] == all
    {
      ghost var lo, hi := s * SECTOR, (s + 1) * SECTOR;
      assert buff[at + s * SECTOR..at + (s + 1) * SECTOR] == bytes[lo..hi];
      if buff != d.diskBuff {
        PutAll(d.diskBuff[..], bytes[lo..hi]);
        Copy(d.diskBuff, 0, buff[at + s * SECTOR..at + (s + 1) * SECTOR]);
      }
      assert d.diskBuff[..] == bytes[lo..hi];
      DriveReaches(d, sector + s);
      var chs := LbaToChs(sector + s, d.spt, d.sides);
      WriteMore(before, sector * SECTOR, bytes, lo, hi);
      PutLength(before, sector * SECTOR, bytes[..hi]);
      d.BiosWrite(PackCx(chs), PackDh(chs));
      s := s + 1;
    }
    assert bytes[..count * SECTOR] == bytes;
  }

  /** Writes whole sectors. */
  method WriteSectors(d: Drive, sector: nat, count: nat, buff: array<Byte>, at: nat)
    requires d.Valid() && (sector + count) * SECTOR <= |d.data| && at + count * SECTOR <= buff.Length
    requires buff == d.diskBuff ==> at == 0 && count == 1
    modifies d`data, d.diskBuff
    ensures d.data == Overwritten(old(d.data), sector * SECTOR, old(buff[at..at + count * SECTOR]))
    ensures buff[..] == old(buff[..])
  {
    if d.ata {
      AtaWriteSectors(d, sector, count, buff, at);
    } else {
      BiosWriteSectors(d, sector, count, buff, at);
    }
  }

  // ----- ranges of bytes -----

  /** The bytes a call is about. */
  function Range(data: seq<Byte>, sector: nat, offset: nat, size: nat): seq<Byte>
    requires sector * SECTOR + offset + size <= |data|
  {
    data[sector * SECTOR + offset..sector * SECTOR + offset + size]
  }

  /** The range, and, when it starts inside a sector, that sector, lie on the drive. */
  predicate OnDrive(length: nat, sector: nat, offset: nat, size: nat) {
    sector * SECTOR + offset + size <= length && (offset % SECTOR != 0 ==> sector * SECTOR + offset < length)
  }

  lemma PieceOf(d: Drive, sector: nat, offset: nat, n: nat)
    requires (sector + 1) * SECTOR <= |d.data| && offset + n <= SECTOR
    ensures d.Sector(sector, 1)[offset..offset + n] == Range(d.data, sector, offset, n)
  {
    SliceSlice(d.data, sector * SECTOR, (sector + 1) * SECTOR, offset, offset + n);
  }

  lemma SliceSlice(s: seq<Byte>, a: nat, b: nat, c: nat, d: nat)
    requires a <= b <= |s| && c <= d <= b - a
    ensures s[a..b][c..d] == s[a + c..a + d]
  {
    var t := s[a..b];
    forall k | 0 <= k < d - c ensures t[c..d][k] == s[a + c..a + d][k] {
      assert t[c..d][k] == t[c + k] == s[a + (c + k)];
    }
  }

  /** Reads a piece of one sector through the disk buffer. */
  method ReadPiece(d: Drive, sector: nat, offset: nat, n: nat, buff: array<Byte>, at: nat)
    requires d.Valid() && buff != d.diskBuff && at + n <= buff.Length
    requires (sector + 1) * SECTOR <= |d.data| && offset + n <= SECTOR
    modifies buff, d.diskBuff
    ensures buff[..] == Overwritten(old(buff[..]), at, Range(d.data, sector, offset, n))
  {
    hide Overwritten;
    PutAll(d.diskBuff[..], d.Sector(sector, 1));
    ReadSectors(d, sector, 1, d.diskBuff, 0);
    PieceOf(d, sector, offset, n);
    Copy(buff, at, d.diskBuff[offset..offset + n]);
  }

  lemma RangeJoins(s: seq<Byte>, at: nat, data: seq<Byte>, start: nat, i: nat, n: nat)
    requires start + i + n <= |data| && at + i + n <= |s|
    ensures Overwritten(Overwritten(s, at, data[start..start + i]), at + i, data[start + i..start + i + n]) ==
      Overwritten(s, at, data[start..start + i + n])
  {
    assert data[start..start + i] + data[start + i..start + i + n] == data[start..start + i + n];
    OverwrittenTwice(s, at, data[start..start + i], data[start + i..start + i + n]);
  }

  /** Whole sectors and the sector the last bytes are in lie on the drive. */
  lemma AlignedFits(length: nat, sector: nat, size: nat)
    requires length % SECTOR == 0 && sector * SECTOR + size <= length
    ensures size / SECTOR * SECTOR <= size < size / SECTOR * SECTOR + SECTOR
    ensures (sector + size / SECTOR) * SECTOR <= length
    ensures size > size / SECTOR * SECTOR ==> (sector + size / SECTOR + 1) * SECTOR <= length
  {
    assert length == length / SECTOR * SECTOR;
  }

  /** The part of a read that starts at a sector: whole sectors, then a piece of the next one. */
  method ReadAligned(d: Drive, sector: nat, size: nat, buff: array<Byte>, at: nat)
    requires d.Valid() && buff != d.diskBuff && at + size <= buff.Length && sector * SECTOR + size <= |d.data|
    modifies buff, d.diskBuff
    ensures buff[..] == Overwritten(old(buff[..]), at, Range(d.data, sector, 0, size))
  {
    hide Overwritten;
    ghost var before, start := buff[..], sector * SECTOR;
    AlignedFits(|d.data|, sector, size);
    var count := size / SECTOR;
    var i := 0;
    PutNone(before, at, d.data[start..start + 0]);
    if count != 0 {
      ReadSectors(d, sector, count, buff, at);
      i := count * SECTOR;
    }
    if size > i {
      RangeJoins(before, at, d.data, start, i, size - i);
      ReadPiece(d, sector + count, 0, size - i, buff, at + i);
    }
  }

  /** Reads any range of bytes: a piece of a sector, whole sectors, another piece. */
  method ReadDisk(d: Drive, sector0: nat, offset0: nat, size0: nat, buff: array<Byte>)
    requires d.Valid() && buff != d.diskBuff && size0 <= buff.Length && OnDrive(|d.data|, sector0, offset0, size0)
    modifies buff, d.diskBuff
    ensures buff[..] == Overwritten(old(buff[..]), 0, Range(d.data, sector0, offset0, size0))
    ensures forall i :: 0 <= i < buff.Length ==>
      buff[i] == if i < size0 then d.data[512 * sector0 + offset0 + i] else old(buff[i])
  {
    hide Overwritten;
    ghost var before, start := buff[..], sector0 * SECTOR + offset0;
    SectorOf(|d.data|, sector0, offset0, size0);
    var sector, offset := sector0 + offset0 / SECTOR, offset0 % SECTOR;
    if offset != 0 {
      var i := Min(SECTOR - offset, size0);
      ReadPiece(d, sector, offset, i, buff, 0);
      RangeJoins(before, 0, d.data, start, i, size0 - i);
      if size0 > i {
        ReadAligned(d, sector + 1, size0 - i, buff, i);
      }
    } else {
      ReadAligned(d, sector, size0, buff, 0);
    }
    RangeRead(before, buff[..], d.data, sector0, offset0, size0);
  }

  lemma RangeRead(before: seq<Byte>, after: seq<Byte>, data: seq<Byte>, sector: nat, offset: nat, size: nat)
    requires sector * SECTOR + offset + size <= |data| && size <= |before|
    requires after == Overwritten(before, 0, Range(data, sector, offset, size))
    ensures |after| == |before|
    ensures forall i :: 0 <= i < |after| ==> after[i] == if i < size then data[512 * sector + offset + i] else before[i]
  {
    hide Overwritten;
    OverwrittenIs(before, 0, Range(data, sector, offset, size));
  }

  lemma SectorOf(length: nat, sector: nat, offset: nat, size: nat)
    requires length % SECTOR == 0 && OnDrive(length, sector, offset, size)
    ensures (sector + offset / SECTOR) * SECTOR + offset % SECTOR == sector * SECTOR + offset
    ensures offset % SECTOR != 0 ==> (sector + offset / SECTOR + 1) * SECTOR <= length
  {
    assert length == length / SECTOR * SECTOR;
  }

  lemma PieceWritten(data: seq<Byte>, sector: nat, offset: nat, bytes: seq<Byte>)
    requires (sector + 1) * SECTOR <= |data| && offset + |bytes| <= SECTOR
    ensures
      Overwritten(data, sector * SECTOR, Overwritten(data[sector * SECTOR..(sector + 1) * SECTOR], offset, bytes)) ==
      Overwritten(data, sector * SECTOR + offset, bytes)
  {
    hide Overwritten;
    var start := sector * SECTOR;
    var piece := data[start..(sector + 1) * SECTOR];
    OverwrittenIs(piece, offset, bytes);
    OverwrittenIs(data, start, Overwritten(piece, offset, bytes));
    OverwrittenIs(data, start + offset, bytes);
    var whole := Overwritten(piece, offset, bytes);
    forall i | 0 <= i < |data|
      ensures Overwritten(data, start, whole)[i] == Overwritten(data, start + offset, bytes)[i]
    {
      if start <= i < start + SECTOR { assert piece[i - start] == data[i]; }
    }
  }

  /** Writes a piece of one sector: reads it, changes it in the disk buffer, and writes it back. */
  method WritePiece(d: Drive, sector: nat, offset: nat, n: nat, buff: array<Byte>, at: nat)
    requires d.Valid() && buff != d.diskBuff && at + n <= buff.Length
    requires (sector + 1) * SECTOR <= |d.data| && offset + n <= SECTOR
    modifies d`data, d.diskBuff
    ensures d.data == Overwritten(old(d.data), sector * SECTOR + offset, buff[at..at + n])
  {
    hide Overwritten;
    ghost var data := d.data;
    PutAll(d.diskBuff[..], d.Sector(sector, 1));
    ReadSectors(d, sector, 1, d.diskBuff, 0);
    Copy(d.diskBuff, offset, buff[at..at + n]);
    PieceWritten(data, sector, offset, buff[at..at + n]);
    ghost var whole := d.diskBuff[..];
    assert whole == d.diskBuff[0..0 + 1 * SECTOR];
    WriteSectors(d, sector, 1, d.diskBuff, 0);
  }

  /** The first `i` bytes of a write are done. */
  ghost predicate Partly(before: seq<Byte>, data: seq<Byte>, start: nat, bytes: seq<Byte>, i: nat) {
    && i <= |bytes| && start + |bytes| <= |before|
    && data == Overwritten(before, start, bytes[..i])
  }

  lemma PartlyNone(data: seq<Byte>, start: nat, bytes: seq<Byte>)
    requires start + |bytes| <= |data|
    ensures Partly(data, data, start, bytes, 0)
  {}

  lemma PartlyMore(before: seq<Byte>, data: seq<Byte>, data': seq<Byte>, start: nat, bytes: seq<Byte>, i: nat, n: nat,
                   chunk: seq<Byte>)
    requires Partly(before, data, start, bytes, i) && i + n <= |bytes| && chunk == bytes[i..i + n]
    requires start + i + n <= |data| && data' == Overwritten(data, start + i, chunk)
    ensures Partly(before, data', start, bytes, i + n) && |data'| == |before|
  {
    hide Overwritten;
    WriteMore(before, start, bytes, i, i + n);
    PutLength(before, start, bytes[..i + n]);
  }

  lemma PartlyAll(before: seq<Byte>, data: seq<Byte>, start: nat, bytes: seq<Byte>, i: nat)
    requires Partly(before, data, start, bytes, i) && i == |bytes|
    ensures data == Overwritten(before, start, bytes)
  {
    assert bytes[..i] == bytes;
  }

  /** The part of a write that starts at a sector. */
  method WriteAligned(d: Drive, sector: nat, size: nat, buff: array<Byte>, at: nat)
    requires d.Valid() && buff != d.diskBuff && at + size <= buff.Length && sector * SECTOR + size <= |d.data|
    modifies d`data, d.diskBuff
    ensures d.data == Overwritten(old(d.data), sector * SECTOR, buff[at..at + size])
  {
    hide Overwritten, Partly;
    ghost var before, bytes, start := d.data, buff[at..at + size], sector * SECTOR;
    AlignedFits(|d.data|, sector, size);
    var count := size / SECTOR;
    var i := 0;
    PartlyNone(before, start, bytes);
    if count != 0 {
      i := count * SECTOR;
      WriteSectors(d, sector, count, buff, at);
      PartlyMore(before, before, d.data, start, bytes, 0, i, buff[at..at + i]);
    }
    if size > i {
      ghost var data := d.data;
      WritePiece(d, sector + count, 0, size - i, buff, at + i);
      PartlyMore(before, data, d.data, start, bytes, i, size - i, buff[at + i..at + i + (size - i)]);
      i := size;
    }
    PartlyAll(before, d.data, start, bytes, i);
  }

  /** Writes any range of bytes and leaves the others alone. */
  method WriteDisk(d: Drive, sector0: nat, offset0: nat, size0: nat, buff: array<Byte>)
    requires d.Valid() && buff != d.diskBuff && size0 <= buff.Length && OnDrive(|d.data|, sector0, offset0, size0)
    modifies d`data, d.diskBuff
    ensures d.data == Overwritten(old(d.data), sector0 * SECTOR + offset0, buff[..size0])
    ensures |d.data| == |old(d.data)| && forall x :: 0 <= x < |d.data| ==>
      var i := x - (512 * sector0 + offset0); d.data[x] == if 0 <= i < size0 then buff[i] else old(d.data)[x]
  {
    hide Overwritten, Partly;
    OverwrittenIs(d.data, sector0 * SECTOR + offset0, buff[..size0]);
    ghost var before, bytes, start := d.data, buff[..size0], sector0 * SECTOR + offset0;
    SectorOf(|d.data|, sector0, offset0, size0);
    var sector, offset := sector0 + offset0 / SECTOR, offset0 % SECTOR;
    if offset != 0 {
      var i := Min(SECTOR - offset, size0);
      PartlyNone(before, start, bytes);
      WritePiece(d, sector, offset, i, buff, 0);
      PartlyMore(before, before, d.data, start, bytes, 0, i, buff[0..0 + i]);
      if size0 > i {
        ghost var data := d.data;
        WriteAligned(d, sector + 1, size0 - i, buff, i);
        PartlyMore(before, data, d.data, start, bytes, i, size0 - i, buff[i..i + (size0 - i)]);
        i := size0;
      }
      PartlyAll(before, d.data, start, bytes, i);
    } else {
      WriteAligned(d, sector, size0, buff, 0);
      assert buff[0..0 + size0] == bytes;
    }
  }

  /** What was written is read back, and any range apart from it is read as before. */
  lemma ReadBack(data: seq<Byte>, sector: nat, offset: nat, bytes: seq<Byte>, sector': nat, offset': nat, size: nat)
    requires sector * SECTOR + offset + |bytes| <= |data| && sector' * SECTOR + offset' + size <= |data|
    ensures Range(Overwritten(data, sector * SECTOR + offset, bytes), sector, offset, |bytes|) == bytes
    ensures
      var p, q := sector * SECTOR + offset, sector' * SECTOR + offset';
      p + |bytes| <= q || q + size <= p ==>
        Range(Overwritten(data, p, bytes), sector', offset', size) == Range(data, sector', offset', size)
  {}
}
