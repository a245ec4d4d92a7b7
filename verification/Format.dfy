/** Formatting a disk, and what the boot sector loads from it. */
module Format {
  import opened Entries
  import opened Layout
  import opened Trees
  import opened Tables
  import opened Directories
  import opened Growth
  import opened Files
  import opened Sizing
  import opened Writing
  import opened Copying

  const BOOT_BLOCKS := 127   // blocks the boot sector loads

  /** Entries of a disk of this many blocks: a tenth of it, counted in 32 bits, at most 1024. */
  function TableSize(size: nat): nat { Min(size * BLOCK % 0x1_0000_0000 / 10 / BLOCK, 1024) }

  /** Below 2^23 blocks the table has one entry for every ten of them, at most 1024. */
  lemma TableTenth(size: nat)
    requires size < 0x80_0000
    ensures var t := TableSize(size); t <= 1024 && 10 * t <= size && (t < 1024 ==> size < 10 * (t + 1))
  {
    assert size * BLOCK < 0x1_0000_0000;
    var x := size * BLOCK / 10;
    assert 10 * x <= size * BLOCK < 10 * (x + 1);
    assert BLOCK * (x / BLOCK) <= x < BLOCK * (x / BLOCK + 1);
  }

  /** From there on the product wraps: a multiple of 2^23 blocks does not count. */
  lemma TableWraps(size: nat)
    ensures TableSize(size) == TableSize(size % 0x80_0000)
    ensures size % 0x80_0000 < 10 ==> TableSize(size) == 0
  {
    BlocksWrap(size / 0x80_0000, size % 0x80_0000);
    if size % 0x80_0000 < 10 { TableTenth(size % 0x80_0000); }
  }

  lemma BlocksWrap(k: nat, r: nat)
    requires r < 0x80_0000
    ensures (0x80_0000 * k + r) * BLOCK % 0x1_0000_0000 == r * BLOCK
  {
    assert (0x80_0000 * k + r) * BLOCK == 0x1_0000_0000 * k + r * BLOCK;
  }

  /** A floppy disk of 2880 blocks has 288 entries, and its data begins at block 290. */
  lemma Floppy()
    ensures TableSize(2880) == 288 && 2 + TableSize(2880) == 290
  {}

  /** An empty disk: the root directory and nothing else. */
  function Empty(): FS { map[0 := NewNode(Dir, ROOT_NAME, 0, 0)] }

  ghost predicate Blank(tab: Table) {
    && 0 < |tab| && tab[0] == Entry(Dir, ROOT_NAME, tab[0].time, 0, 0, 0, NoRefs())
    && forall e :: 1 <= e < |tab| ==> tab[e] == ZeroEntry()
  }

  lemma BlankStored(tab: Table)
    requires Blank(tab)
    ensures Represents(tab, Empty())
  {
    var m := NewNode(Dir, ROOT_NAME, 0, 0);
    NewStored(tab, 0, Dir, ROOT_NAME, tab[0].time, 0);
    assert tab[0 := tab[0]] == tab;
    assert Stored(tab, m);
    hide Stored;
    assert Owns(Empty(), 0, 0);
  }

  lemma EmptyOk(lo: nat, hi: nat)
    ensures WellFormed(Empty(), lo, hi)
  {
    hide BlocksOk, Under;
    UnderSelf(Empty(), 0);
    EmptyBlocks(lo, hi);
  }

  lemma EmptyBlocks(lo: nat, hi: nat)
    ensures BlocksOk(Empty(), lo, hi)
  {}

  /** Lays out an empty file system, whatever the disk held. */
  method LayOut(d: Disk, now: nat)
    requires d.table.Length > 0
    modifies d`fs, d.table
    ensures d.Valid() && d.fs == Empty() && Blank(d.table[..]) && d.table[0].time == now
  {
    hide Represents, WellFormed, Linked;
    // Entry 0 is the root
    d.table[0] := Entry(Dir, ROOT_NAME, 0, 0, 0, 0, NoRefs());
    ghost var root := NewNode(Dir, ROOT_NAME, 0, 0);
    RootLinked(d.table[..]);
    var ok := SetEntryTime(d, 0, now, root);
    // All others are free
    var e := 1;
    while e < d.table.Length
      invariant 1 <= e <= d.table.Length
      invariant d.table[0] == Entry(Dir, ROOT_NAME, now, 0, 0, 0, NoRefs())
      invariant forall i :: 1 <= i < e ==> d.table[i] == ZeroEntry()
    {
      d.table[e] := ZeroEntry();
      e := e + 1;
    }
    d.fs := Empty();
    BlankStored(d.table[..]);
    EmptyOk(d.FirstData(), d.blocks.Length);
  }

  lemma RootLinked(tab: Table)
    requires 0 < |tab| && tab[0] == Entry(Dir, ROOT_NAME, 0, 0, 0, 0, NoRefs())
    ensures Linked(tab, NewNode(Dir, ROOT_NAME, 0, 0))
  {}

  // ----- the kernel -----

  /** The file of the system disk that is copied: entry 1, in the root directory. */
  ghost predicate KernelReady(fs: FS) {
    1 in fs && fs[1].kind.File? && fs[1].parent == 0
  }

  /** The only file of the disk is the kernel, at entry 1, in the first data blocks without a gap. */
  ghost predicate Bootable(fs: FS, blocks: seq<Block>, name: string, bytes: seq<Byte>, lo: nat) {
    && fs.Keys == {0, 1} && fs[1].kind.File? && fs[1].parent == 0 && fs[1].name == name
    && FileHas(fs, blocks, 1, bytes)
    && forall j :: 0 <= j < |fs[1].refs| ==> fs[1].refs[j] == lo + j
  }

  /** On an empty disk the lowest free blocks are the first ones. */
  lemma {:induction false} LowestInRow(lo: nat, refs: seq<nat>, j: nat)
    requires LowestFree(Empty(), lo, refs) && j < |refs|
    ensures refs[j] == lo + j
    decreases j
  {
    forall c: nat ensures !InUse(Empty(), c) { forall h: nat ensures !UsesBlock(Empty(), h, c) {} }
    hide InUse;
    forall i | 0 <= i < j ensures refs[..j][i] == lo + i { LowestInRow(lo, refs, i); }
    InRow(refs[..j], lo, refs[j]);
  }

  lemma RowHas(row: seq<nat>, lo: nat, b: nat)
    requires forall i :: 0 <= i < |row| ==> row[i] == lo + i
    requires lo <= b < lo + |row|
    ensures b in row
  {
    assert row[b - lo] == b;
  }

  lemma InRow(row: seq<nat>, lo: nat, b: nat)
    requires forall i :: 0 <= i < |row| ==> row[i] == lo + i
    requires lo <= b && b !in row && forall c: nat :: lo <= c < b ==> c in row
    ensures b == lo + |row|
  {
    assert lo + |row| !in row;
    if b < lo + |row| { RowHas(row, lo, b); }
  }

  lemma KernelPlaced(tab0: Table, blocks0: seq<Block>, tab: Table, fs: FS, blocks: seq<Block>, n: nat, name: string,
                     bytes: seq<Byte>, lo: nat)
    requires Blank(tab0) && bytes != []
    requires Underway(tab0, Empty(), blocks0, tab, fs, blocks, n, 0, name, bytes, lo)
    ensures Bootable(fs, blocks, name, bytes, lo)
  {
    hide LowestFree, FileHas, OthersKept, SameNames, Padded;
    assert n > 1 ==> IsFree(tab0, 1);
    assert n == 1;
    forall j | 0 <= j < |fs[1].refs| ensures fs[1].refs[j] == lo + j { LowestInRow(lo, fs[1].refs, j); }
    PlacedAt(Empty(), 1, NewNode(File, name, 0, 1), 0);
    assert fs.Keys == {0, 1};
    assert FileHas(fs, blocks, 1, bytes);
    hide Underway, FreshCopy;
    HasSize(fs, blocks, 1, bytes);
  }

  /** A kernel of `count` blocks fits a disk of `size` blocks: its entries beside that of the root, its blocks
      behind the table. */
  predicate KernelFits(count: nat, size: nat) {
    count > 0 ==> ChainLen(count) < TableSize(size) && 2 + TableSize(size) + count <= size
  }

  function Range(lo: nat, hi: nat): (s: set<nat>)
    ensures forall b: nat :: b in s <==> lo <= b < hi
    ensures |s| == if lo < hi then hi - lo else 0
    decreases hi
  {
    if lo < hi then Range(lo, hi - 1) + {hi - 1} else {}
  }

  /** On an empty disk all entries but that of the root are free, and all data blocks are unused. */
  lemma EmptyRoom(tab: Table, lo: nat, hi: nat)
    requires Blank(tab)
    ensures |FreeSet(tab)| == |tab| - 1 && |Unused(Empty(), lo, hi)| == if lo < hi then hi - lo else 0
  {
    hide FreeSet, Unused;
    EmptyEntries(tab);
    EmptyUnused(lo, hi);
  }

  lemma EmptyEntries(tab: Table)
    requires Blank(tab)
    ensures FreeSet(tab) == Range(1, |tab|)
  {}

  lemma EmptyUnused(lo: nat, hi: nat)
    ensures Unused(Empty(), lo, hi) == Range(lo, hi)
  {
    forall b: nat ensures !InUse(Empty(), b) { assert forall h: nat :: !UsesBlock(Empty(), h, b); }
  }

  lemma FormatRoom(srcFs: FS, name: string, tab: Table, size: nat)
    requires KernelReady(srcFs) && srcFs[1].name == name && forall h :: IsItem(srcFs, h, 0, name) ==> h == 1
    requires Blank(tab) && |tab| == TableSize(size) && name != ROOT_NAME
    ensures CanCopy(srcFs, 0, name, tab, Empty(), 0, Normal(name), 2 + |tab|, size)
      <==> KernelFits(NeededBlocks(srcFs[1].size), size)
  {
    hide Blank, FreeSet, Unused;
    EmptyRoom(tab, 2 + |tab|, size);
    NewSpread(srcFs[1].size);
    OnlyRoot(name);
    CopyNeeds(srcFs, 1, 0, name, tab, Empty(), 0, Normal(name), 2 + |tab|, size);
  }

  lemma OnlyRoot(name: string)
    requires name != ROOT_NAME
    ensures forall h :: !IsItem(Empty(), h, 0, Normal(name))
  {
    assert |Normal(name)| == 1 ==> Normal(name)[0] == if Allowed(name[0]) then name[0] else '_';
  }

  /** Formats a disk of `size` blocks and copies the kernel of the system disk to it. */
  method FormatDisk(system: Disk, size: nat, now: nat) returns (r: Result<()>, d: Disk)
    requires system.Valid() && KernelReady(system.fs) && TableSize(size) > 0
    ensures fresh(d) && fresh(d.table) && fresh(d.blocks)
    ensures d.blocks.Length == size && d.FirstData() == 2 + TableSize(size)
    ensures size < 0x80_0000 ==>
      && d.table.Length <= 1024 && 10 * d.table.Length <= size
      && (d.table.Length < 1024 ==> size < 10 * (d.table.Length + 1))
    ensures r.Ok? ==> d.Valid() && KernelCopied(system.fs, system.blocks[..], d.fs, d.blocks[..], d.FirstData())
    ensures r.Ok? <==> KernelFits(NeededBlocks(system.fs[1].size), size)
    ensures r.Err? ==> r.error.NoSpace?
  {
    hide Represents, WellFormed, Blank, Underway, CopyRefused, CanCopy, KernelFits, Bootable, Contents, Readable,
      Normal, KernelCopied;
    if size < 0x80_0000 { TableTenth(size); }
    d := new Disk(TableSize(size), size);
    LayOut(d, now);
    // The kernel of the system disk comes along
    SystemRoot(system);
    HeadStored(system.table[..], system.fs, 1);
    var name := system.table[1].name;
    HeadOf(system.table[..], system.fs[1]);
    NamedOnce(system, 1, 0, name);
    ghost var tab0, blocks0 := d.table[..], d.blocks[..];
    ghost var s, n;
    assert IsItem(system.fs, 1, 0, name);
    FormatRoom(system.fs, name, tab0, size);
    r, s, n := CopyFile(system, d, 0, name, 0, name, now);
    if r.Ok? {
      KernelMade(system.fs, system.blocks[..], s, name, tab0, blocks0, d.table[..], d.fs, d.blocks[..], n,
        d.FirstData());
    } else {
      NotRefused(system.fs, name, tab0, d.FirstData(), d.blocks.Length, r.error);
    }
  }

  /** An empty kernel leaves an empty disk, any other one a bootable disk. */
  ghost predicate KernelCopied(srcFs: FS, srcBlocks: seq<Block>, fs: FS, blocks: seq<Block>, lo: nat) {
    && KernelReady(srcFs) && Readable(srcFs[1], |srcBlocks|)
    && var bytes := Contents(srcFs[1], srcBlocks);
      if bytes == [] then fs == Empty() else Bootable(fs, blocks, Normal(srcFs[1].name), bytes, lo)
  }

  lemma SystemRoot(d: Disk)
    requires d.Valid()
    ensures RootOk(d.fs) && 0 in d.fs && d.fs[0].kind.Dir?
    ensures forall h :: IsItem(d.fs, h, 0, ROOT_NAME) ==> h == 0
  {
    NamedOnce(d, 0, 0, ROOT_NAME);
  }

  lemma KernelMade(srcFs: FS, srcBlocks: seq<Block>, s: nat, name: string, tab0: Table, blocks0: seq<Block>,
                   tab: Table, fs: FS, blocks: seq<Block>, n: nat, lo: nat)
    requires CopyMade(srcFs, srcBlocks, s, 0, name, tab0, Empty(), blocks0, tab, fs, blocks, n, 0, Normal(name), lo)
    requires Blank(tab0) && KernelReady(srcFs) && srcFs[1].name == name
    requires forall h :: IsItem(srcFs, h, 0, name) ==> h == 1
    ensures KernelCopied(srcFs, srcBlocks, fs, blocks, lo)
  {
    hide Blank, Bootable, Contents, Readable, Normal, FreshCopy, FileHas, OthersKept;
    var bytes := Contents(srcFs[1], srcBlocks);
    if bytes != [] { KernelPlaced(tab0, blocks0, tab, fs, blocks, n, Normal(name), bytes, lo); }
  }

  lemma NotRefused(srcFs: FS, name: string, tab: Table, lo: nat, hi: nat, error: Error)
    requires CopyRefused(srcFs, 0, name, tab, Empty(), 0, Normal(name), lo, hi, error)
    requires IsItem(srcFs, 1, 0, name) && name != ROOT_NAME
    ensures error.NoSpace?
  {
    hide CopyRoom;
    OnlyRoot(name);
  }

  // ----- the boot sector -----

  /** Loads the blocks from the one the superblock names on, as far as the image goes. */
  method LoadStage(d: Disk, bootstart: nat) returns (r: Result<seq<Byte>>)
    requires bootstart > 1
    ensures r.Ok? <==> bootstart + BOOT_BLOCKS <= d.blocks.Length
    ensures r.Ok? ==> |r.value| == BLOCK * BOOT_BLOCKS
    ensures r.Ok? ==> forall p :: 0 <= p < |r.value| ==>
      0 <= p / BLOCK < BOOT_BLOCKS && r.value[p] == d.blocks[bootstart + p / BLOCK][p % BLOCK]
  {
    var image := [];
    var at, last := bootstart, bootstart + BOOT_BLOCKS;
    while true
      invariant bootstart <= at < last && |image| == BLOCK * (at - bootstart)
      invariant at > bootstart ==> at <= d.blocks.Length
      invariant forall p :: 0 <= p < |image| ==> image[p] == d.blocks[..][bootstart + p / BLOCK][p % BLOCK]
      decreases last - at
    {
      if at >= d.blocks.Length { return Err(Io); }
      ghost var before := image;
      image := image + d.blocks[at];
      forall p | 0 <= p < |image| ensures image[p] == d.blocks[..][bootstart + p / BLOCK][p % BLOCK] {
        if p >= |before| { InBlock(p, at - bootstart, p - |before|); }
      }
      at := at + 1;
      if at == last { break; }
    }
    return Ok(image);
  }

  /** The boot sector of a bootable disk loads the kernel whole exactly when it fits into 127 blocks. */
  lemma KernelLoaded(fs: FS, blocks: seq<Block>, name: string, bytes: seq<Byte>, lo: nat, image: seq<Byte>)
    requires Bootable(fs, blocks, name, bytes, lo) && |image| == BLOCK * BOOT_BLOCKS && lo + BOOT_BLOCKS <= |blocks|
    requires forall p :: 0 <= p < |image| ==>
      0 <= p / BLOCK < BOOT_BLOCKS && image[p] == blocks[lo + p / BLOCK][p % BLOCK]
    ensures bytes <= image <==> |bytes| <= BLOCK * BOOT_BLOCKS
    ensures image[..Min(|image|, |bytes|)] == bytes[..Min(|image|, |bytes|)]
  {
    forall p | 0 <= p < Min(|image|, |bytes|) ensures image[p] == bytes[p] {
      BlockOf(fs[1].size, p);
      assert bytes[p] == ByteAt(fs[1], blocks, p);
      assert fs[1].refs[p / BLOCK] == lo + p / BLOCK;
    }
  }
}
