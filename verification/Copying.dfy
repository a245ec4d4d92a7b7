/** Copying a file, 512 bytes at a time. */
module Copying {
  import opened Entries
  import opened Layout
  import opened Trees
  import opened Tables
  import opened Directories
  import opened Growth
  import opened Creating
  import opened Files
  import opened Sizing
  import opened Writing

  /** Bytes at the old place, the data, and what stays behind it. */
  lemma WroteContents(m: Node, blocks: seq<Block>, m': Node, blocks': seq<Block>, offset: nat, buff: seq<Byte>,
                      truncate: bool)
    requires Wrote(m, blocks, m', blocks', offset, buff)
    requires m'.size == NewSize(m.size, offset + |buff|, truncate) && offset <= m.size
    ensures Contents(m', blocks') == Contents(m, blocks)[..offset] + buff +
      (if truncate || m.size < offset + |buff| then [] else Contents(m, blocks)[offset + |buff|..])
  {
    var bytes, bytes' := Contents(m, blocks), Contents(m', blocks');
    hide Contents;
    var rest := if truncate || m.size < offset + |buff| then [] else bytes[offset + |buff|..];
    assert |bytes'| == |bytes[..offset] + buff + rest|;
    forall p | 0 <= p < |bytes'| ensures bytes'[p] == (bytes[..offset] + buff + rest)[p] {}
  }

  /** At any offset: the old bytes in front of it, the data, the old bytes behind unless cut, and no others but
      what fills a gap. */
  lemma WroteAnywhere(m: Node, blocks: seq<Block>, m': Node, blocks': seq<Block>, offset: nat, buff: seq<Byte>,
                      truncate: bool)
    requires Wrote(m, blocks, m', blocks', offset, buff)
    requires m'.size == NewSize(m.size, offset + |buff|, truncate)
    ensures var bytes, bytes', end := Contents(m, blocks), Contents(m', blocks'), offset + |buff|;
      && |bytes'| == (if truncate || |bytes| < end then end else |bytes|)
      && bytes'[offset..end] == buff
      && (offset <= |bytes| ==> bytes'[..offset] == bytes[..offset])
      && (offset > |bytes| ==> bytes'[..|bytes|] == bytes)
      && (!truncate && end < |bytes| ==> bytes'[end..] == bytes[end..])
  {
    hide Contents, Readable;
  }

  /** File `n` of `fs` holds `bytes`. */
  ghost predicate FileHas(fs: FS, blocks: seq<Block>, n: nat, bytes: seq<Byte>) {
    n in fs && fs[n].kind.File? && Readable(fs[n], |blocks|) && Contents(fs[n], blocks) == bytes
  }

  /** A step of the copy always fits what a write can do. */
  lemma StepSafe(offset: nat, count: nat)
    requires offset % BLOCK == 0 && 0 < count <= BLOCK
    ensures SafeResize(offset, offset + count, false)
  {
    assert NeededBlocks(offset + count) == NeededBlocks(offset) + 1;
  }

  /** The files when a chunk is written: as they were, or with the new empty copy in a directory that has room. */
  ghost function WithCopy(fs: FS, n: nat, parent: nat, path: string): FS
    requires parent in fs
  {
    if n in fs then fs else Placed(fs, n, NewNode(File, Normal(path), parent, n))
  }

  /** Copies made so far: none, or file `n` with the first `done` bytes; nothing else has changed. */
  ghost predicate Copied(fs0: FS, blocks0: seq<Block>, fs: FS, blocks: seq<Block>, n: nat, parent: nat, name: string,
                         bytes: seq<Byte>) {
    if bytes == [] then fs == fs0 && blocks == blocks0
    else
      && parent in fs0 && n !in fs0 && n in fs
      && fs == Placed(fs0, n, NewNode(File, name, parent, n))[n := fs[n]]
      && IsItem(fs, n, parent, name)
      && FileHas(fs, blocks, n, bytes)
      && OthersKept(fs0, blocks0, fs, blocks, n)
  }

  lemma OutcomeWritten(fs: FS, blocks: seq<Block>, fs': FS, blocks': seq<Block>, n: nat, lo: nat, hi: nat,
                       buff: seq<Byte>, bytes: seq<Byte>)
    requires Outcome(fs, blocks, fs', blocks', n, lo, hi, |bytes|, buff, false) && TreeOk(fs, {})
    requires SafeResize(|bytes|, |bytes| + |buff|, false) && |buff| > 0
    requires FileHas(fs, blocks, n, bytes)
    ensures WellFormed(fs', lo, hi) && fs' == fs[n := fs'[n]] && IsSame(fs, fs', n)
    ensures FileHas(fs', blocks', n, bytes + buff) && OthersKept(fs, blocks, fs', blocks', n)
  {
    hide TreeOk, BlocksOk, SafeResize, OthersKept, Contents, Readable;
    WroteContents(fs[n], blocks, fs'[n], blocks', |bytes|, buff, false);
    assert bytes[..|bytes|] + buff + [] == bytes + buff;
  }

  ghost predicate IsSame(fs: FS, fs': FS, n: nat) {
    n in fs && n in fs' && fs'[n].kind == fs[n].kind && fs'[n].name == fs[n].name && fs'[n].parent == fs[n].parent
  }

  lemma NewFileEmpty(fs: FS, blocks: seq<Block>, n: nat, m: Node)
    requires m.parent in fs && m == NewNode(File, m.name, m.parent, n) && m.parent != n
    ensures FileHas(Placed(fs, n, m), blocks, n, []) && Placed(fs, n, m)[n] == m
  {
    PlacedAt(fs, n, m, n);
  }

  lemma OthersPlaced(fs0: FS, blocks0: seq<Block>, n: nat, m: Node, fs': FS, blocks': seq<Block>)
    requires m.parent in fs0 && fs0[m.parent].kind.Dir? && n !in fs0
    requires OthersKept(Placed(fs0, n, m), blocks0, fs', blocks', n)
    ensures OthersKept(fs0, blocks0, fs', blocks', n)
  {
    hide Contents, Readable, Placed;
    forall h | h in fs0 && h != n && fs0[h].kind.File?
      ensures h in Placed(fs0, n, m) && Placed(fs0, n, m)[h] == fs0[h]
    {
      PlacedAt(fs0, n, m, h);
    }
  }

  lemma OthersTwice(fs0: FS, blocks0: seq<Block>, fs: FS, blocks: seq<Block>, fs': FS, blocks': seq<Block>, n: nat)
    requires OthersKept(fs0, blocks0, fs, blocks, n) && OthersKept(fs, blocks, fs', blocks', n)
    ensures OthersKept(fs0, blocks0, fs', blocks', n)
  {
    hide Contents, Readable;
  }

  /** The first chunk creates the copy. */
  lemma FirstStep(tab: Table, fs0: FS, blocks0: seq<Block>, fs': FS, blocks': seq<Block>, n: nat, parent: nat,
                  name: string, lo: nat, hi: nat, buff: seq<Byte>)
    requires WellFormed(fs0, lo, hi) && parent in fs0 && fs0[parent].kind.Dir? && Normal(name) == name
    requires |fs0[parent].refs| < REFS && forall h :: !IsItem(fs0, h, parent, name)
    requires Target(tab, fs0, n, parent, name, true) && 0 < |buff| <= BLOCK
    requires Outcome(WithCopy(fs0, n, parent, name), blocks0, fs', blocks', n, lo, hi, 0, buff, false)
    ensures WellFormed(fs', lo, hi) && Copied(fs0, blocks0, fs', blocks', n, parent, name, buff)
  {
    hide WellFormed, TreeOk, BlocksOk, Outcome, SafeResize, OthersKept, Contents, Readable, Placed, FirstFreeEntry;
    assert n in fs0 ==> IsItem(fs0, n, parent, name);
    var m := NewNode(File, name, parent, n);
    var fs := Placed(fs0, n, m);
    StepSafe(0, |buff|);
    NewFileEmpty(fs0, blocks0, n, m);
    CopyPlaced(fs0, n, m, lo, hi);
    OutcomeWritten(fs, blocks0, fs', blocks', n, lo, hi, buff, []);
    assert [] + buff == buff;
    OthersPlaced(fs0, blocks0, n, m, fs', blocks');
  }

  lemma CopyPlaced(fs: FS, n: nat, m: Node, lo: nat, hi: nat)
    requires WellFormed(fs, lo, hi) && n !in fs && m == NewNode(File, m.name, m.parent, n)
    requires m.parent in fs && fs[m.parent].kind.Dir? && |fs[m.parent].refs| < REFS
    requires forall h :: !IsItem(fs, h, m.parent, m.name)
    ensures TreeOk(Placed(fs, n, m), {})
  {
    hide *;
    ListingOk(fs, n, m, 0, lo, hi);
    RoomListing(fs, n, m, 0);
  }

  lemma RoomListing(fs: FS, n: nat, m: Node, f: nat)
    requires m.parent in fs && |fs[m.parent].refs| < REFS
    ensures Listing(fs, n, m, f) == Placed(fs, n, m)
  {}

  /** A later chunk extends the copy. */
  lemma NextStep(tab: Table, fs0: FS, blocks0: seq<Block>, fs: FS, blocks: seq<Block>, fs': FS, blocks': seq<Block>,
                 n: nat, n': nat, parent: nat, name: string, lo: nat, hi: nat, bytes: seq<Byte>, buff: seq<Byte>)
    requires WellFormed(fs, lo, hi) && parent in fs
    requires bytes != [] && |bytes| % BLOCK == 0 && Copied(fs0, blocks0, fs, blocks, n, parent, name, bytes)
    requires Target(tab, fs, n', parent, name, true) && 0 < |buff| <= BLOCK
    requires Outcome(WithCopy(fs, n', parent, name), blocks, fs', blocks', n', lo, hi, |bytes|, buff, false)
    ensures WellFormed(fs', lo, hi) && n' == n && Copied(fs0, blocks0, fs', blocks', n, parent, name, bytes + buff)
  {
    hide WellFormed, TreeOk, BlocksOk, Outcome, SafeResize, OthersKept, Contents, Readable, Placed, Target;
    SameItem(fs, n, n', parent, name, lo, hi, tab);
    StepSafe(|bytes|, |buff|);
    WellFormedTree(fs, lo, hi);
    OutcomeWritten(fs, blocks, fs', blocks', n, lo, hi, buff, bytes);
    OthersTwice(fs0, blocks0, fs, blocks, fs', blocks', n);
  }

  lemma SameItem(fs: FS, n: nat, n': nat, parent: nat, name: string, lo: nat, hi: nat, tab: Table)
    requires WellFormed(fs, lo, hi) && IsItem(fs, n, parent, name) && Target(tab, fs, n', parent, name, true)
    ensures n' == n
  {
    hide DirsOk, ParentsExist, Listed, Acyclic, BlocksOk, FirstFreeEntry;
    if n' in fs { assert fs[n'].name == fs[n].name; }
  }

  // ----- where the copy is put -----

  /** `refs` are the lowest blocks not in use in `fs`, in order. */
  ghost predicate LowestFree(fs: FS, lo: nat, refs: seq<nat>) {
    forall j :: 0 <= j < |refs| ==>
      && lo <= refs[j] && !InUse(fs, refs[j]) && refs[j] !in refs[..j]
      && forall c: nat :: lo <= c < refs[j] ==> InUse(fs, c) || c in refs[..j]
  }

  /** The copy starts at the first free entry, takes the lowest free blocks in order, leaves unused
      slots at zero and repeats its name in all its entries. */
  ghost predicate FreshCopy(tab0: Table, fs0: FS, tab: Table, fs: FS, n: nat, lo: nat) {
    && FirstFreeEntry(tab0, n) && n in fs
    && SameNames(tab, fs[n]) && Padded(tab, fs[n]) && LowestFree(fs0, lo, fs[n].refs)
  }

  /** Once the copy has begun, its blocks are in use on top of those used before. */
  lemma CopyInUse(fs0: FS, fs: FS, n: nat, m: Node, c: nat)
    requires m.parent in fs0 && fs0[m.parent].kind.Dir? && n !in fs0 && n in fs && fs[n].kind.File?
    requires fs == Placed(fs0, n, m)[n := fs[n]]
    ensures InUse(fs, c) <==> InUse(fs0, c) || c in fs[n].refs
  {
    hide Placed;
    if h: nat :| UsesBlock(fs, h, c) && h != n {
      PlacedAt(fs0, n, m, h);
      assert UsesBlock(fs0, h, c);
    }
    if h: nat :| UsesBlock(fs0, h, c) {
      PlacedAt(fs0, n, m, h);
      assert UsesBlock(fs, h, c);
    }
    if c in fs[n].refs { assert UsesBlock(fs, n, c); }
  }

  lemma LowestNext(fs0: FS, fs: FS, lo: nat, refs: seq<nat>, b: nat)
    requires LowestFree(fs0, lo, refs) && b >= lo && FirstUnusedBlock(fs, lo, b)
    requires forall c: nat :: InUse(fs, c) <==> InUse(fs0, c) || c in refs
    ensures LowestFree(fs0, lo, refs + [b])
  {
    hide InUse;
    var refs' := refs + [b];
    forall j | 0 <= j < |refs'|
      ensures refs'[..j] == if j < |refs| then refs[..j] else refs
    {}
  }

  lemma RefsGrow(m: Node, m': Node)
    requires |m.refs| == NeededBlocks(m.size) && |m'.refs| == NeededBlocks(m'.size)
    requires m.size % BLOCK == 0 && 0 < m'.size - m.size <= BLOCK
    ensures |m'.refs| == |m.refs| + 1
  {}

  lemma OneMoreRef(refs: seq<nat>, refs': seq<nat>)
    requires refs <= refs' && |refs'| == |refs| + 1
    ensures refs' == refs + [refs'[|refs|]]
  {}

  /** The file a chunk is written to, before the write. */
  ghost function Before(fs: FS, n: nat, parent: nat, name: string): Node
    requires parent in fs
  {
    if n in fs then fs[n] else NewNode(File, name, parent, n)
  }

  lemma FreshFirst(tab: Table, tab': Table, fs0: FS, fs': FS, n: nat, m: Node, lo: nat, hi: nat, now: nat)
    requires m.parent in fs0 && fs0[m.parent].kind.Dir? && n !in fs0 && m == NewNode(File, m.name, m.parent, n)
    requires FirstFreeEntry(tab, n) && n in fs' && fs'[n].kind.File? && BlocksOk(fs', lo, hi)
    requires |fs'[n].refs| == NeededBlocks(fs'[n].size) && 0 < fs'[n].size <= BLOCK
    requires FreshChain(tab', Placed(fs0, n, m), fs'[n], lo, now)
    ensures FreshCopy(tab, fs0, tab', fs', n, lo)
  {
    hide Placed, BlocksOk, FirstFreeEntry, SameNames, Padded, InUse, LowestFree;
    PlacedAt(fs0, n, m, n);
    var fs1 := Placed(fs0, n, m);
    assert fs1 == fs1[n := fs1[n]];
    forall c: nat ensures InUse(fs1, c) <==> InUse(fs0, c) || c in [] { CopyInUse(fs0, fs1, n, m, c); }
    RefsGrow(m, fs'[n]);
    BlocksReadable(fs', n, lo, hi);
    LowestNone(fs0, lo);
    LowestNext(fs0, fs1, lo, [], fs'[n].refs[0]);
    OneMoreRef([], fs'[n].refs);
    assert [] + [fs'[n].refs[0]] == fs'[n].refs;
  }

  lemma LowestNone(fs: FS, lo: nat)
    ensures LowestFree(fs, lo, [])
  {}

  lemma FreshNext(tab0: Table, tab: Table, tab': Table, fs0: FS, fs: FS, fs': FS, n: nat, m: Node, lo: nat, hi: nat,
                  now: nat)
    requires m.parent in fs0 && fs0[m.parent].kind.Dir? && n !in fs0 && n in fs && fs[n].kind.File?
    requires fs == Placed(fs0, n, m)[n := fs[n]] && FreshCopy(tab0, fs0, tab, fs, n, lo)
    requires n in fs' && fs'[n].kind.File? && BlocksOk(fs', lo, hi) && ChainKept(tab, tab', fs, fs[n], fs'[n], lo, now)
    requires |fs[n].refs| == NeededBlocks(fs[n].size) && |fs'[n].refs| == NeededBlocks(fs'[n].size)
    requires fs[n].size % BLOCK == 0 && 0 < fs'[n].size - fs[n].size <= BLOCK
    ensures FreshCopy(tab0, fs0, tab', fs', n, lo)
  {
    hide Placed, BlocksOk, FirstFreeEntry, SameNames, Padded, InUse, LowestFree, FirstUnusedBlock;
    forall c: nat ensures InUse(fs, c) <==> InUse(fs0, c) || c in fs[n].refs { CopyInUse(fs0, fs, n, m, c); }
    RefsGrow(fs[n], fs'[n]);
    BlocksReadable(fs', n, lo, hi);
    LowestNext(fs0, fs, lo, fs[n].refs, fs'[n].refs[|fs[n].refs|]);
    OneMoreRef(fs[n].refs, fs'[n].refs);
  }

  /** Copies so far, and where they are. */
  ghost predicate Underway(tab0: Table, fs0: FS, blocks0: seq<Block>, tab: Table, fs: FS, blocks: seq<Block>,
                           n: nat, parent: nat, name: string, bytes: seq<Byte>, lo: nat) {
    && Copied(fs0, blocks0, fs, blocks, n, parent, name, bytes)
    && (bytes == [] ==> tab == tab0)
    && (bytes != [] ==> FreshCopy(tab0, fs0, tab, fs, n, lo))
  }

  /** What a write does to the chain it writes to. */
  ghost predicate ChainAfter(tab: Table, tab': Table, fs: FS, fs': FS, n: nat, parent: nat, path: string, lo: nat,
                             now: nat) {
    n in fs' && if n in fs then ChainKept(tab, tab', fs, fs[n], fs'[n], lo, now)
    else parent in fs && FreshChain(tab', WithCopy(fs, n, parent, path), fs'[n], lo, now)
  }

  lemma WellFormedBlocks(fs: FS, lo: nat, hi: nat)
    requires WellFormed(fs, lo, hi)
    ensures BlocksOk(fs, lo, hi)
  {}

  lemma HasSize(fs: FS, blocks: seq<Block>, n: nat, bytes: seq<Byte>)
    requires FileHas(fs, blocks, n, bytes)
    ensures n in fs && fs[n].kind.File?
    ensures |fs[n].refs| == NeededBlocks(fs[n].size) && fs[n].size == |bytes|
  {}

  lemma PlaceStep(tab0: Table, fs0: FS, blocks0: seq<Block>, tab: Table, fs: FS, blocks: seq<Block>, tab': Table,
                  fs': FS, blocks': seq<Block>, n: nat, n': nat, parent: nat, name: string, lo: nat, hi: nat,
                  bytes: seq<Byte>, buff: seq<Byte>, now: nat)
    requires parent in fs0 && fs0[parent].kind.Dir? && Normal(name) == name && forall h :: !IsItem(fs0, h, parent, name)
    requires |bytes| % BLOCK == 0 && 0 < |buff| <= BLOCK && WellFormed(fs', lo, hi)
    requires Underway(tab0, fs0, blocks0, tab, fs, blocks, n, parent, name, bytes, lo)
    requires Copied(fs0, blocks0, fs', blocks', n', parent, name, bytes + buff)
    requires Target(tab, fs, n', parent, name, true) && ChainAfter(tab, tab', fs, fs', n', parent, name, lo, now)
    requires bytes != [] ==> n' == n
    ensures FreshCopy(tab0, fs0, tab', fs', n', lo)
  {
    hide WellFormed, BlocksOk, OthersKept, FileHas, Placed, ChainKept, FreshChain, FreshCopy, FirstFreeEntry, Normal;
    assert bytes + buff != [];
    WellFormedBlocks(fs', lo, hi);
    HasSize(fs', blocks', n', bytes + buff);
    var m := NewNode(File, name, parent, n');
    if bytes == [] {
      FreshFirst(tab, tab', fs0, fs', n', m, lo, hi, now);
    } else {
      HasSize(fs, blocks, n, bytes);
      FreshNext(tab0, tab, tab', fs0, fs, fs', n, m, lo, hi, now);
    }
  }

  // ----- the whole copy -----

  /** The file to copy is where it was. */
  ghost predicate SourceThere(fs: FS, blocks: seq<Block>, s: nat, parent: nat, name: string, bytes: seq<Byte>) {
    && IsItem(fs, s, parent, name) && FileHas(fs, blocks, s, bytes)
    && parent in fs && fs[parent].kind.Dir?
  }

  lemma SourceStarts(d: Disk, s: nat, parent: nat, name: string)
    requires d.Valid() && IsItem(d.fs, s, parent, name) && d.fs[s].kind.File? && parent in d.fs
    requires d.fs[parent].kind.Dir?
    ensures Readable(d.fs[s], d.blocks.Length)
    ensures SourceThere(d.fs, d.blocks[..], s, parent, name, Contents(d.fs[s], d.blocks[..]))
  {
    hide Contents, Readable;
    FileReadable(d, s);
  }

  /** The source, if it is there, is a file, and the directory of the copy has room. */
  ghost predicate CopyReady(srcFs: FS, srcParent: nat, srcName: string, fs: FS, parent: nat) {
    && srcParent in srcFs && srcFs[srcParent].kind.Dir?
    && (forall h :: IsItem(srcFs, h, srcParent, srcName) ==> srcFs[h].kind.File?)
    && parent in fs && fs[parent].kind.Dir? && |fs[parent].refs| < REFS
  }

  // ----- when there is room -----

  /** There is room for a copy of `size` bytes; an empty one takes none. */
  ghost predicate CopyRoom(tab: Table, fs: FS, size: nat, lo: nat, hi: nat) {
    size > 0 ==> ChainLen(NeededBlocks(size)) <= |FreeSet(tab)| && NeededBlocks(size) <= |Unused(fs, lo, hi)|
  }

  /** The name is not taken, the source is there, and there is room for its bytes. */
  ghost predicate CanCopy(srcFs: FS, srcParent: nat, srcName: string, tab: Table, fs: FS, parent: nat, name: string,
                          lo: nat, hi: nat) {
    && (forall h :: !IsItem(fs, h, parent, name))
    && exists s :: IsItem(srcFs, s, srcParent, srcName) && CopyRoom(tab, fs, srcFs[s].size, lo, hi)
  }

  /** Why a copy fails. */
  ghost predicate CopyRefused(srcFs: FS, srcParent: nat, srcName: string, tab: Table, fs: FS, parent: nat, name: string,
                              lo: nat, hi: nat, error: Error) {
    match error
    case Exists => exists h :: IsItem(fs, h, parent, name)
    case NotFound => forall h :: !IsItem(srcFs, h, srcParent, srcName)
    case NoSpace =>
      && (forall h :: !IsItem(fs, h, parent, name))
      && exists s :: IsItem(srcFs, s, srcParent, srcName) && !CopyRoom(tab, fs, srcFs[s].size, lo, hi)
    case Io => false
  }

  /** The entries and blocks of an unfinished copy are what is missing from those that were free. */
  lemma CopyTaken(tab0: Table, fs0: FS, tab: Table, fs: FS, n: nat, m: Node, lo: nat, hi: nat)
    requires n !in fs0 && m.parent in fs0 && fs0[m.parent].kind.Dir? && m == NewNode(File, m.name, m.parent, n)
    requires n in fs && fs[n].kind.File? && fs == Placed(fs0, n, m)[n := fs[n]] && |tab| == |tab0|
    requires BlocksOk(fs0, lo, hi) && BlocksOk(fs, lo, hi)
    requires Represents(tab0, fs0) && Represents(tab, fs)
    ensures |fs[n].chain| == ChainLen(|fs[n].refs|)
    ensures |FreeSet(tab0)| == |FreeSet(tab)| + |fs[n].chain|
    ensures |Unused(fs0, lo, hi)| == |Unused(fs, lo, hi)| + |fs[n].refs|
  {
    hide Represents, BlocksOk, Placed, FreeSet, Unused, Stored;
    var fs1 := Placed(fs0, n, m);
    PlacedChains(fs0, n, m);
    forall g: nat, e: nat | g != n ensures Owns(fs1, g, e) <==> Owns(fs, g, e) {}
    forall g: nat, b: nat | g != n ensures UsesBlock(fs1, g, b) <==> UsesBlock(fs, g, b) {}
    EntriesConserved(tab0, fs0, tab, fs, n);
    BlocksConserved(fs0, fs, n, lo, hi);
    HeadStored(tab, fs, n);
    HeadOf(tab, fs[n]);
  }

  lemma OneMoreBlock(offset: nat, count: nat, size: nat)
    requires offset % BLOCK == 0 && 0 < count <= BLOCK && offset + count <= size
    ensures NeededBlocks(offset + count) == NeededBlocks(offset) + 1 <= NeededBlocks(size)
    ensures ChainLen(NeededBlocks(offset + count)) <= ChainLen(NeededBlocks(size))
    ensures Touched(NeededBlocks(offset), NeededBlocks(offset) + 1) == 1
    ensures NewSize(offset, offset + count, false) == offset + count
  {}

  /** The first chunk is refused only if there is no room for the copy. */
  lemma FirstRefused(tab: Table, fs: FS, parent: nat, name: string, count: nat, size: nat, lo: nat, hi: nat)
    requires 0 < count <= BLOCK && count <= size && forall h :: !IsItem(fs, h, parent, name)
    requires !WriteRoom(tab, fs, parent, name, count, false, lo, hi) && Extra(fs, parent) == 0
    ensures !CopyRoom(tab, fs, size, lo, hi)
  {
    hide FreeSet, Unused, Room;
    OneMoreBlock(0, count, size);
  }

  /** A later chunk is refused only if there was no room for the copy from the start. */
  lemma NextRefused(tab0: Table, fs0: FS, tab: Table, fs: FS, n: nat, m: Node, count: nat, size: nat, lo: nat, hi: nat)
    requires n !in fs0 && m.parent in fs0 && fs0[m.parent].kind.Dir? && m == NewNode(File, m.name, m.parent, n)
    requires n in fs && fs[n].kind.File? && fs == Placed(fs0, n, m)[n := fs[n]] && |tab| == |tab0| && Padded(tab, fs[n])
    requires lo > 0
    requires 0 < count <= BLOCK && fs[n].size % BLOCK == 0 && fs[n].size + count <= size
    requires |fs[n].refs| == NeededBlocks(fs[n].size)
    requires BlocksOk(fs0, lo, hi) && BlocksOk(fs, lo, hi)
    requires !Room(tab, fs, fs[n], NewSize(fs[n].size, fs[n].size + count, false), lo, hi)
    requires Represents(tab0, fs0) && Represents(tab, fs)
    ensures !CopyRoom(tab0, fs0, size, lo, hi)
  {
    hide Represents, BlocksOk, Placed, FreeSet, Unused, Leftover, Padded, ChainLen, NeededBlocks, Touched, NewSize;
    CopyTaken(tab0, fs0, tab, fs, n, m, lo, hi);
    OneMoreBlock(fs[n].size, count, size);
    if b :| b in Unused(fs, lo, hi) {
      if b == 0 { NotBelow(fs, lo, hi, b); }
      NothingLeftover(tab, fs[n], NeededBlocks(fs[n].size + count), b);
    }
  }

  /** What stands before and after each chunk: the destination has its file system and the copy so far. */
  ghost predicate CopyState(tab0: Table, fs0: FS, tab: Table, fs: FS, lo: nat, hi: nat, parent: nat) {
    && parent in fs0 && fs0[parent].kind.Dir? && |tab| == |tab0| && lo > 0
    && BlocksOk(fs0, lo, hi) && BlocksOk(fs, lo, hi)
    && Represents(tab0, fs0) && Represents(tab, fs)
  }

  lemma ChunkRefused(tab0: Table, fs0: FS, blocks0: seq<Block>, tab: Table, fs: FS, blocks: seq<Block>, n: nat,
                     parent: nat, name: string, bytes: seq<Byte>, count: nat, size: nat, lo: nat, hi: nat)
    requires Underway(tab0, fs0, blocks0, tab, fs, blocks, n, parent, name, bytes, lo)
    requires CopyState(tab0, fs0, tab, fs, lo, hi, parent)
    requires if bytes == [] then forall h :: !IsItem(fs, h, parent, name)
      else IsItem(fs, n, parent, name) && forall h :: IsItem(fs, h, parent, name) ==> h == n
    requires 0 < count <= BLOCK && |bytes| % BLOCK == 0 && |bytes| + count <= size && Extra(fs0, parent) == 0
    requires !WriteRoom(tab, fs, parent, name, |bytes| + count, false, lo, hi)
    ensures !CopyRoom(tab0, fs0, size, lo, hi)
  {
    hide Represents, BlocksOk, Placed, CopyRoom, WriteRoom, Padded, SameNames, LowestFree, OthersKept, Contents,
      Readable, Room, NewSize, FileHas;
    if bytes == [] {
      FirstRefused(tab, fs, parent, name, count, size, lo, hi);
    } else {
      HasSize(fs, blocks, n, bytes);
      ThereOnce(tab, fs, n, parent, name, true, |bytes| + count, false, lo, hi);
      NextRefused(tab0, fs0, tab, fs, n, NewNode(File, name, parent, n), count, size, lo, hi);
    }
  }

  /** A copy that is complete had room. */
  lemma RoomTaken(tab0: Table, fs0: FS, blocks0: seq<Block>, tab: Table, fs: FS, blocks: seq<Block>, n: nat,
                  parent: nat, name: string, bytes: seq<Byte>, lo: nat, hi: nat)
    requires Underway(tab0, fs0, blocks0, tab, fs, blocks, n, parent, name, bytes, lo)
    requires CopyState(tab0, fs0, tab, fs, lo, hi, parent)
    ensures CopyRoom(tab0, fs0, |bytes|, lo, hi)
  {
    hide Represents, BlocksOk, Placed, FreeSet, Unused, SameNames, Padded, LowestFree, OthersKept, Contents, Readable,
      FileHas, ChainLen;
    if bytes != [] {
      HasSize(fs, blocks, n, bytes);
      CopyTaken(tab0, fs0, tab, fs, n, NewNode(File, name, parent, n), lo, hi);
    }
  }

  /** A copy has all the bytes of its source. */
  ghost predicate CopyMade(srcFs: FS, srcBlocks: seq<Block>, s: nat, srcParent: nat, srcName: string,
                           tab0: Table, fs0: FS, blocks0: seq<Block>, tab: Table, fs: FS, blocks: seq<Block>,
                           n: nat, parent: nat, name: string, lo: nat) {
    && IsItem(srcFs, s, srcParent, srcName) && srcFs[s].kind.File? && Readable(srcFs[s], |srcBlocks|)
    && Underway(tab0, fs0, blocks0, tab, fs, blocks, n, parent, name, Contents(srcFs[s], srcBlocks), lo)
  }

  /** When a copy succeeds, what it leaves then, and what it leaves when it fails. */
  ghost predicate CopyAnswered(r: Result<()>, srcFs: FS, srcBlocks: seq<Block>, s: nat, srcParent: nat,
                               srcName: string, tab: Table, fs: FS, blocks: seq<Block>, tab': Table, fs': FS,
                               blocks': seq<Block>, n: nat, parent: nat, name: string, lo: nat, hi: nat) {
    && (r.Ok? <==> CanCopy(srcFs, srcParent, srcName, tab, fs, parent, name, lo, hi))
    && match r
       case Ok(_) =>
         CopyMade(srcFs, srcBlocks, s, srcParent, srcName, tab, fs, blocks, tab', fs', blocks', n, parent, name, lo)
       case Err(error) =>
         && CopyRefused(srcFs, srcParent, srcName, tab, fs, parent, name, lo, hi, error)
         && if error.NoSpace? then Halfway(tab, fs, blocks, tab', blocks', n, 0, parent, name)
            else fs' == fs && tab' == tab && blocks' == blocks
  }

  /** Reads the next chunk of the source. */
  method ReadChunk(src: Disk, srcParent: nat, srcName: string, offset: nat, ghost s: nat, ghost bytes: seq<Byte>)
    returns (buff: seq<Byte>)
    requires src.Valid() && SourceThere(src.fs, src.blocks[..], s, srcParent, srcName, bytes) && offset <= |bytes|
    ensures buff == Piece(bytes, offset, BLOCK)
  {
    hide Represents, WellFormed, FileHas, ReadResult;
    SourceDir(src.fs, src.blocks[..], s, srcParent, srcName, bytes);
    var r := ReadFile(src, srcParent, srcName, offset, BLOCK);
    NamedOnce(src, s, srcParent, srcName);
    ReadSource(src.fs, src.blocks[..], s, srcParent, srcName, offset, r, bytes);
    buff := r.value;
  }

  /** Whatever could be copied before can be copied still. */
  ghost predicate SourcesKept(fs0: FS, blocks0: seq<Block>, fs: FS, blocks: seq<Block>) {
    forall s, parent, name, bytes ::
      SourceThere(fs0, blocks0, s, parent, name, bytes) ==> SourceThere(fs, blocks, s, parent, name, bytes)
  }

  /** A chunk written takes the copy one step further and leaves its source alone. */
  lemma ChunkDone(tab0: Table, fs0: FS, blocks0: seq<Block>, tab: Table, fs: FS, blocks: seq<Block>, tab': Table,
                  fs': FS, blocks': seq<Block>, n: nat, n': nat, parent: nat, name: string, lo: nat, hi: nat,
                  bytes: seq<Byte>, buff: seq<Byte>, now: nat)
    requires WellFormed(fs, lo, hi) && parent in fs && fs[parent].kind.Dir? && Normal(name) == name
    requires parent in fs0 && fs0[parent].kind.Dir? && |fs0[parent].refs| < REFS
    requires forall h :: !IsItem(fs0, h, parent, name)
    requires |bytes| % BLOCK == 0 && Underway(tab0, fs0, blocks0, tab, fs, blocks, n, parent, name, bytes, lo)
    requires Target(tab, fs, n', parent, name, true) && 0 < |buff| <= BLOCK
    requires Outcome(WithCopy(fs, n', parent, name), blocks, fs', blocks', n', lo, hi, |bytes|, buff, false)
    requires n' in fs' && if n' in fs then ChainKept(tab, tab', fs, fs[n'], fs'[n'], lo, now)
      else FreshChain(tab', WithCopy(fs, n', parent, name), fs'[n'], lo, now)
    ensures WellFormed(fs', lo, hi)
    ensures Underway(tab0, fs0, blocks0, tab', fs', blocks', n', parent, name, bytes + buff, lo)
    ensures SourcesKept(fs0, blocks0, fs', blocks')
  {
    hide WellFormed, Outcome, Copied, OthersKept, Placed, Target, FileHas, Normal, FreshCopy, ChainAfter, Underway,
      SourceThere, ChainKept, FreshChain, WithCopy;
    ChainIs(tab, tab', fs, fs', n', parent, name, lo, now);
    CopyStep(tab0, fs0, blocks0, tab, fs, blocks, tab', fs', blocks', n, n', parent, name, lo, hi, bytes, buff, now);
    forall s, srcParent, srcName, all | SourceThere(fs0, blocks0, s, srcParent, srcName, all)
      ensures SourceThere(fs', blocks', s, srcParent, srcName, all)
    {
      SourceKept(fs0, blocks0, fs', blocks', n', parent, name, bytes + buff, s, srcParent, srcName, all, lo, hi);
    }
  }

  /** A chunk that fails spares what the chunks before it have spared. */
  lemma SparedBefore(tab0: Table, fs0: FS, blocks0: seq<Block>, fs: FS, blocks: seq<Block>, tab': Table,
                     blocks': seq<Block>, n: nat, parent: nat, name: string, bytes: seq<Byte>)
    requires bytes != [] && Copied(fs0, blocks0, fs, blocks, n, parent, name, bytes)
    requires fs0[parent].kind.Dir? && (forall h :: !IsItem(fs0, h, parent, name)) && Normal(name) == name
    requires Extra(fs0, parent) == 0
    requires Spared(tab', fs, blocks, blocks', n)
    ensures Halfway(tab0, fs0, blocks0, tab', blocks', n, 0, parent, name)
  {
    hide Stored, Contents, Readable, Placed, FileHas;
    var m := NewNode(File, name, parent, n);
    forall h | h in Placed(fs0, n, m) && h != n
      ensures h in fs && fs[h] == Placed(fs0, n, m)[h]
      ensures fs[h].kind.File? ==> h in fs0 && fs0[h] == fs[h]
    {
      PlacedAt(fs0, n, m, h);
    }
  }

  lemma ChunkSpares(tab0: Table, fs0: FS, blocks0: seq<Block>, tab: Table, fs: FS, blocks: seq<Block>, tab': Table,
                    blocks': seq<Block>, n: nat, n': nat, f: nat, parent: nat, name: string, bytes: seq<Byte>, lo: nat)
    requires Underway(tab0, fs0, blocks0, tab, fs, blocks, n, parent, name, bytes, lo)
    requires parent in fs0 && fs0[parent].kind.Dir? && (forall h :: !IsItem(fs0, h, parent, name))
    requires Normal(name) == name && Extra(fs0, parent) == 0
    requires Halfway(tab, fs, blocks, tab', blocks', n', f, parent, name)
    requires bytes != [] ==> IsItem(fs, n, parent, name) && forall h :: IsItem(fs, h, parent, name) ==> h == n
    ensures Halfway(tab0, fs0, blocks0, tab', blocks', if bytes == [] then n' else n, 0, parent, name)
  {
    hide Spared, Placed, FileHas, OthersKept, FreshCopy;
    if bytes != [] {
      assert n' == n;
      SparedBefore(tab0, fs0, blocks0, fs, blocks, tab', blocks', n, parent, name, bytes);
    }
  }

  lemma RoomToList(tab: Table, fs: FS, n: nat, n': nat, f: nat, parent: nat, name: string, done: seq<Byte>)
    requires parent in fs && Target(tab, fs, n', parent, name, true)
    requires if done == [] then Extra(fs, parent) == 0 else IsItem(fs, n, parent, name)
    ensures Prepared(fs, n', f, parent, name) == WithCopy(fs, n', parent, name)
  {
    hide FirstFreeEntry;
  }

  /** All entries of file `n` carry this time. */
  ghost predicate Dated(tab: Table, fs: FS, n: nat, now: nat) {
    n in fs && forall k :: 0 <= k < |fs[n].chain| ==> fs[n].chain[k] < |tab| && tab[fs[n].chain[k]].time == now
  }

  lemma ChunkDated(tab: Table, tab': Table, fs: FS, fs': FS, fs1: FS, n: nat, lo: nat, now: nat)
    requires n in fs' && if n in fs then ChainKept(tab, tab', fs, fs[n], fs'[n], lo, now)
      else FreshChain(tab', fs1, fs'[n], lo, now)
    ensures Dated(tab', fs', n, now)
  {
    hide GrowsInOrder, SameNames, Padded, FirstUnusedBlock;
  }

  /** Writes the next chunk of a copy, which creates it with the first one. */
  method WriteChunk(d: Disk, parent: nat, name: string, offset: nat, buff: seq<Byte>, now: nat, ghost tab0: Table,
                    ghost fs0: FS, ghost blocks0: seq<Block>, ghost n: nat, ghost done: seq<Byte>, ghost size: nat)
    returns (r: Result<nat>, ghost n': nat)
    requires parent in fs0 && fs0[parent].kind.Dir? && Normal(name) == name && forall h :: !IsItem(fs0, h, parent, name)
    requires |done| == offset && offset % BLOCK == 0 && 0 < |buff| <= BLOCK && offset + |buff| <= size
    requires |tab0| == d.table.Length && |fs0[parent].refs| < REFS
    requires Underway(tab0, fs0, blocks0, d.table[..], d.fs, d.blocks[..], n, parent, name, done, d.FirstData())
    requires WellFormed(fs0, d.FirstData(), d.blocks.Length) && d.Valid() && Represents(tab0, fs0)
    modifies d`fs, d.table, d.blocks
    ensures r.Err? ==> r.error.NoSpace? && !CopyRoom(tab0, fs0, size, d.FirstData(), d.blocks.Length)
    ensures r.Err? ==> Halfway(tab0, fs0, blocks0, d.table[..], d.blocks[..], n', 0, parent, name)
    ensures r.Ok? ==> d.Valid()
    ensures r.Ok? ==>
      Underway(tab0, fs0, blocks0, d.table[..], d.fs, d.blocks[..], n', parent, name, done + buff, d.FirstData())
    ensures r.Ok? ==> SourcesKept(fs0, blocks0, d.fs, d.blocks[..])
    ensures r.Ok? ==> Dated(d.table[..], d.fs, n', now)
  {
    hide Halfway, CopyRoom, WriteRoom, WriteStops, CopyState, Represents, WellFormed, Stored, Linked, Contents,
      Readable, Outcome, Copied, OthersKept, Placed, Target, ChainKept, FreshChain, FileHas, WithCopy, Prepared,
      SafeResize, Normal, FreshCopy, ChainAfter, Underway, SourceThere;
    ghost var tab, fs, blocks, lo, hi := d.table[..], d.fs, d.blocks[..], d.FirstData(), d.blocks.Length;
    TargetKept(tab0, fs0, blocks0, tab, fs, blocks, n, parent, name, done, lo, hi);
    StateIs(tab0, fs0, tab, fs, lo, hi, parent);
    if offset > 0 { NamedOnce(d, n, parent, name); }
    ghost var f;
    r, n', f := WriteFile(d, parent, name, offset, buff, true, false, now);
    if r.Err? {
      if r.error.Io? { StepFits(tab, fs, blocks, n, n', parent, name, lo, hi, done, |buff|); }
      ChunkRefused(tab0, fs0, blocks0, tab, fs, blocks, n, parent, name, done, |buff|, size, lo, hi);
      ChunkSpares(tab0, fs0, blocks0, tab, fs, blocks, d.table[..], d.blocks[..], n, n', f, parent, name, done,
        lo);
      n' := if done == [] then n' else n;
      return;
    }
    ChunkDated(tab, d.table[..], fs, d.fs, Prepared(fs, n', f, parent, name), n', lo, now);
    RoomToList(tab, fs, n, n', f, parent, name, done);
    ChunkDone(tab0, fs0, blocks0, tab, fs, blocks, d.table[..], d.fs, d.blocks[..], n, n', parent, name, lo, hi, done,
      buff, now);
  }

  /** Copies a file to the same disk or another. An empty file leaves nothing behind: it is not created. */
  method CopyFile(src: Disk, d: Disk, srcParent: nat, srcName: string, dstParent: nat, dstPath: string, now: nat)
    returns (r: Result<()>, ghost s: nat, ghost n: nat)
    requires src.Valid() && d.Valid() && (src == d || (src.table != d.table && src.blocks != d.blocks))
    requires CopyReady(src.fs, srcParent, srcName, d.fs, dstParent)
    modifies d`fs, d.table, d.blocks
    ensures r.Ok? ==> d.Valid()
    ensures CopyAnswered(r, old(src.fs), old(src.blocks[..]), s, srcParent, srcName, old(d.table[..]), old(d.fs),
      old(d.blocks[..]), d.table[..], d.fs, d.blocks[..], n, dstParent, Normal(dstPath), d.FirstData(),
      d.blocks.Length)
    ensures r.Ok? ==> s in old(src.fs) && (old(src.fs)[s].size > 0 ==> Dated(d.table[..], d.fs, n, now))
  {
    hide Halfway, CanCopy, CopyRefused, CopyRoom, CopyState, Represents, WellFormed, Stored, Linked, Contents, Readable,
      Normal, Underway, SourceThere, Dated;
    s, n := 0, 0;
    ghost var tab0, fs0, blocks0 := d.table[..], d.fs, d.blocks[..];
    ghost var lo, hi := d.FirstData(), d.blocks.Length;
    var name := StringToName(dstPath);
    NormalTwice(dstPath);
    var there := Lookup(d, dstParent, name);
    if there.Ok? {
      CopyTwice(src.fs, srcParent, srcName, tab0, fs0, there.value, dstParent, name, lo, hi);
      return Err(Exists), s, n;
    }
    var from := Lookup(src, srcParent, srcName);
    if from.Err? {
      CopyNothing(src.fs, srcParent, srcName, tab0, fs0, dstParent, name, lo, hi);
      return Err(NotFound), s, n;
    }
    s := from.value;
    SourceStarts(src, s, srcParent, srcName);
    NamedOnce(src, s, srcParent, srcName);
    CopyNeeds(src.fs, s, srcParent, srcName, tab0, fs0, dstParent, name, lo, hi);
    ghost var bytes := Contents(src.fs[s], src.blocks[..]);
    assert src == d ==> SourceThere(fs0, blocks0, s, srcParent, srcName, bytes);

    // One chunk after another until nothing is left to read
    var offset := 0;
    UnderwayNone(tab0, fs0, blocks0, n, dstParent, name, lo);
    while true
      invariant src.Valid() && d.Valid() && 0 <= offset <= |bytes|
      invariant Underway(tab0, fs0, blocks0, d.table[..], d.fs, d.blocks[..], n, dstParent, name, bytes[..offset], lo)
      invariant SourceThere(src.fs, src.blocks[..], s, srcParent, srcName, bytes)
      invariant offset < |bytes| ==> offset % BLOCK == 0
      invariant offset > 0 ==> Dated(d.table[..], d.fs, n, now)
      decreases |bytes| - offset
    {
      var buff := ReadChunk(src, srcParent, srcName, offset, s, bytes);
      if |buff| == 0 { break; }
      var wrote;
      wrote, n := WriteChunk(d, dstParent, name, offset, buff, now, tab0, fs0, blocks0, n, bytes[..offset], |bytes|);
      if wrote.Err? { return Err(wrote.error), s, n; }
      assert bytes[..offset] + buff == bytes[..offset + |buff|];
      offset := offset + |buff|;
    }
    assert bytes[..offset] == bytes;
    StateIs(tab0, fs0, d.table[..], d.fs, lo, hi, dstParent);
    RoomTaken(tab0, fs0, blocks0, d.table[..], d.fs, d.blocks[..], n, dstParent, name, bytes, lo, hi);
    return Ok(()), s, n;
  }

  lemma StateIs(tab0: Table, fs0: FS, tab: Table, fs: FS, lo: nat, hi: nat, parent: nat)
    requires parent in fs0 && fs0[parent].kind.Dir? && |tab| == |tab0| && lo > 0
    requires WellFormed(fs0, lo, hi) && WellFormed(fs, lo, hi)
    requires Represents(tab0, fs0) && Represents(tab, fs)
    ensures CopyState(tab0, fs0, tab, fs, lo, hi, parent)
  {
    hide Represents, BlocksOk, TreeOk;
  }

  lemma CopyTwice(srcFs: FS, srcParent: nat, srcName: string, tab: Table, fs: FS, h: nat, parent: nat, name: string,
                  lo: nat, hi: nat)
    requires IsItem(fs, h, parent, name)
    ensures !CanCopy(srcFs, srcParent, srcName, tab, fs, parent, name, lo, hi)
    ensures CopyRefused(srcFs, srcParent, srcName, tab, fs, parent, name, lo, hi, Exists)
  {}

  lemma CopyNothing(srcFs: FS, srcParent: nat, srcName: string, tab: Table, fs: FS, parent: nat, name: string, lo: nat,
                    hi: nat)
    requires forall h :: !IsItem(srcFs, h, srcParent, srcName)
    ensures !CanCopy(srcFs, srcParent, srcName, tab, fs, parent, name, lo, hi)
    ensures CopyRefused(srcFs, srcParent, srcName, tab, fs, parent, name, lo, hi, NotFound)
  {}

  lemma CopyNeeds(srcFs: FS, s: nat, srcParent: nat, srcName: string, tab: Table, fs: FS, parent: nat, name: string,
                  lo: nat, hi: nat)
    requires IsItem(srcFs, s, srcParent, srcName) && forall h :: IsItem(srcFs, h, srcParent, srcName) ==> h == s
    requires forall h :: !IsItem(fs, h, parent, name)
    ensures CanCopy(srcFs, srcParent, srcName, tab, fs, parent, name, lo, hi)
      <==> CopyRoom(tab, fs, srcFs[s].size, lo, hi)
    ensures CopyRefused(srcFs, srcParent, srcName, tab, fs, parent, name, lo, hi, NoSpace)
      <==> !CopyRoom(tab, fs, srcFs[s].size, lo, hi)
  {
    hide CopyRoom;
  }

  lemma UnderwayNone(tab: Table, fs: FS, blocks: seq<Block>, n: nat, parent: nat, name: string, lo: nat)
    ensures Underway(tab, fs, blocks, tab, fs, blocks, n, parent, name, [], lo)
  {}

  lemma ChainIs(tab: Table, tab': Table, fs: FS, fs': FS, n: nat, parent: nat, path: string, lo: nat, now: nat)
    requires parent in fs && n in fs'
    requires if n in fs then ChainKept(tab, tab', fs, fs[n], fs'[n], lo, now)
      else FreshChain(tab', WithCopy(fs, n, parent, path), fs'[n], lo, now)
    ensures ChainAfter(tab, tab', fs, fs', n, parent, path, lo, now)
  {}

  lemma SourceDir(fs: FS, blocks: seq<Block>, s: nat, parent: nat, name: string, bytes: seq<Byte>)
    requires SourceThere(fs, blocks, s, parent, name, bytes)
    ensures parent in fs && fs[parent].kind.Dir? && IsItem(fs, s, parent, name) && FileHas(fs, blocks, s, bytes)
  {}

  /** While a copy grows, its source stays what it was. */
  lemma SourceKept(fs0: FS, blocks0: seq<Block>, fs: FS, blocks: seq<Block>, n: nat, parent: nat, name: string,
                   done: seq<Byte>, s: nat, srcParent: nat, srcName: string, bytes: seq<Byte>, lo: nat, hi: nat)
    requires Copied(fs0, blocks0, fs, blocks, n, parent, name, done)
    requires parent in fs0 && fs0[parent].kind.Dir?
    requires SourceThere(fs0, blocks0, s, srcParent, srcName, bytes)
    ensures SourceThere(fs, blocks, s, srcParent, srcName, bytes)
  {
    hide WellFormed, Contents, Readable, Placed;
    if done != [] {
      var m := NewNode(File, name, parent, n);
      PlacedAt(fs0, n, m, srcParent);
      PlacedAt(fs0, n, m, s);
    }
  }

  /** The directory of the copy is still one, with the copy in it once the copy exists. */
  lemma TargetKept(tab0: Table, fs0: FS, blocks0: seq<Block>, tab: Table, fs: FS, blocks: seq<Block>, n: nat,
                   parent: nat, name: string, done: seq<Byte>, lo: nat, hi: nat)
    requires Underway(tab0, fs0, blocks0, tab, fs, blocks, n, parent, name, done, lo) && WellFormed(fs, lo, hi)
    requires parent in fs0 && fs0[parent].kind.Dir? && forall h :: !IsItem(fs0, h, parent, name)
    ensures parent in fs && fs[parent].kind.Dir?
    ensures done == [] ==> fs == fs0 && blocks == blocks0
    ensures done != [] ==> IsItem(fs, n, parent, name) && FileHas(fs, blocks, n, done)
    ensures forall h :: IsItem(fs, h, parent, name) ==> fs[h].kind.File?
  {
    hide WellFormed, Contents, Readable, OthersKept, Placed, FreshCopy;
    if done != [] { PlacedAt(fs0, n, NewNode(File, name, parent, n), parent); }
    NotDirectory(fs, blocks, n, parent, name, lo, hi, done);
  }

  lemma CopyStep(tab0: Table, fs0: FS, blocks0: seq<Block>, tab: Table, fs: FS, blocks: seq<Block>, tab': Table,
                 fs': FS, blocks': seq<Block>, n: nat, n': nat, parent: nat, name: string, lo: nat, hi: nat,
                 bytes: seq<Byte>, buff: seq<Byte>, now: nat)
    requires WellFormed(fs, lo, hi) && parent in fs && fs[parent].kind.Dir? && Normal(name) == name
    requires parent in fs0 && fs0[parent].kind.Dir? && |fs0[parent].refs| < REFS
    requires forall h :: !IsItem(fs0, h, parent, name)
    requires |bytes| % BLOCK == 0 && Underway(tab0, fs0, blocks0, tab, fs, blocks, n, parent, name, bytes, lo)
    requires Target(tab, fs, n', parent, name, true) && 0 < |buff| <= BLOCK
    requires Outcome(WithCopy(fs, n', parent, name), blocks, fs', blocks', n', lo, hi, |bytes|, buff, false)
    requires ChainAfter(tab, tab', fs, fs', n', parent, name, lo, now)
    ensures WellFormed(fs', lo, hi)
    ensures Underway(tab0, fs0, blocks0, tab', fs', blocks', n', parent, name, bytes + buff, lo)
    ensures Copied(fs0, blocks0, fs', blocks', n', parent, name, bytes + buff)
  {
    hide WellFormed, Outcome, Copied, OthersKept, Placed, Target, FileHas, Normal, FreshCopy, ChainAfter;
    if bytes == [] {
      assert bytes + buff == buff;
      CopiedFirst(fs0, blocks0, fs, blocks, n, parent, name);
      FirstStep(tab, fs0, blocks0, fs', blocks', n', parent, name, lo, hi, buff);
    } else {
      NextStep(tab, fs0, blocks0, fs, blocks, fs', blocks', n, n', parent, name, lo, hi, bytes, buff);
    }
    PlaceStep(tab0, fs0, blocks0, tab, fs, blocks, tab', fs', blocks', n, n', parent, name, lo, hi, bytes, buff, now);
  }

  lemma CopiedFirst(fs0: FS, blocks0: seq<Block>, fs: FS, blocks: seq<Block>, n: nat, parent: nat, name: string)
    requires Copied(fs0, blocks0, fs, blocks, n, parent, name, [])
    ensures fs == fs0 && blocks == blocks0
  {}

  lemma ReadSource(fs: FS, blocks: seq<Block>, s: nat, parent: nat, name: string, offset: nat, r: Result<seq<Byte>>,
                   bytes: seq<Byte>)
    requires ReadResult(fs, blocks, parent, name, offset, BLOCK, r)
    requires IsItem(fs, s, parent, name) && FileHas(fs, blocks, s, bytes) && offset <= |bytes|
    requires forall n :: IsItem(fs, n, parent, name) ==> n == s
    ensures r.Ok? && r.value == bytes[offset..offset + Min(BLOCK, |bytes| - offset)]
  {
    hide Contents, Readable;
  }

  /** The write of a chunk cannot fail for another reason than lack of space. */
  lemma StepFits(tab: Table, fs: FS, blocks: seq<Block>, n: nat, n': nat, parent: nat, name: string, lo: nat, hi: nat,
                 bytes: seq<Byte>, count: nat)
    requires WellFormed(fs, lo, hi) && Target(tab, fs, n', parent, name, true) && 0 < count <= BLOCK
    requires |bytes| % BLOCK == 0
    requires if bytes == [] then forall h :: !IsItem(fs, h, parent, name)
      else IsItem(fs, n, parent, name) && FileHas(fs, blocks, n, bytes)
    ensures SafeResize(if n' in fs then fs[n'].size else 0, |bytes| + count, false)
  {
    hide WellFormed, SafeResize, Readable, FirstFreeEntry;
    StepSafe(|bytes|, count);
    if bytes != [] { SameItem(fs, n, n', parent, name, lo, hi, tab); }
  }

  lemma NotDirectory(fs: FS, blocks: seq<Block>, n: nat, parent: nat, name: string, lo: nat, hi: nat, bytes: seq<Byte>)
    requires WellFormed(fs, lo, hi)
    requires if bytes == [] then forall h :: !IsItem(fs, h, parent, name)
      else IsItem(fs, n, parent, name) && FileHas(fs, blocks, n, bytes)
    ensures forall h :: IsItem(fs, h, parent, name) ==> fs[h].kind.File?
  {
    hide DirsOk, ParentsExist, Listed, Acyclic, BlocksOk, Readable, Contents;
    if bytes != [] {
      forall h | IsItem(fs, h, parent, name) ensures h == n { assert fs[h].name == fs[n].name; }
    }
  }
}
