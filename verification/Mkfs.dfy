/** Building a disk image on the development machine. */
module Mkfs {
  import opened Entries
  import opened Layout
  import opened Trees
  import opened Tables
  import opened Directories
  import opened Files
  import opened Copying
  import opened Format

  datatype Input = Input(name: string, bytes: seq<Byte>)

  /** A name as it is stored: cut, but with all its symbols. */
  function Cut(name: string): (r: string)
    ensures r <= name && |r| == if |name| < 14 then |name| else 14
  {
    name[..Min(|name|, NAME_MAX)]
  }

  function EntriesFor(size: nat): nat { ChainLen(NeededBlocks(size)) }

  /** Entry `k` of a file of `size` bytes laid out from entry `e` and block `b` on. */
  function ImageEntry(name: string, e: nat, b: nat, size: nat, k: nat): Entry {
    Entry(File, name, 0, SizeFrom(File, size, k), if k == 0 then 0 else e + k - 1,
      if k + 1 < EntriesFor(size) then e + k + 1 else 0,
      seq(REFS, i requires 0 <= i < REFS => if REFS * k + i < NeededBlocks(size) then b + REFS * k + i else 0))
  }

  /** The file those entries store: consecutive entries, consecutive blocks. */
  function ImageNode(name: string, e: nat, b: nat, size: nat): Node {
    Node(File, name, 0, seq(EntriesFor(size), k requires 0 <= k => e + k), size,
      seq(NeededBlocks(size), j requires 0 <= j => b + j))
  }

  /** From entry `e` on, the table holds this file and nothing else. */
  ghost predicate Laid(tab: Table, name: string, e: nat, b: nat, size: nat) {
    forall x :: e <= x < |tab| ==>
      tab[x] == if x - e < EntriesFor(size) then ImageEntry(name, e, b, size, x - e) else ZeroEntry()
  }

  lemma LaidAt(tab: Table, name: string, e: nat, b: nat, size: nat, k: nat)
    requires Laid(tab, name, e, b, size) && e + k < |tab|
    ensures tab[e + k] == if k < EntriesFor(size) then ImageEntry(name, e, b, size, k) else ZeroEntry()
  {}

  lemma LaidLinked(tab: Table, name: string, e: nat, b: nat, size: nat)
    requires Laid(tab, name, e, b, size) && e > 0 && e + EntriesFor(size) <= |tab|
    ensures Linked(tab, ImageNode(name, e, b, size))
  {
    var m := ImageNode(name, e, b, size);
    hide Laid;
    forall k | 0 <= k < |m.chain| ensures m.chain[k] == e + k && tab[m.chain[k]] == ImageEntry(name, e, b, size, k) {
      LaidAt(tab, name, e, b, size, k);
    }
    hide ImageNode;
  }

  lemma LaidHolds(tab: Table, name: string, e: nat, b: nat, size: nat)
    requires Laid(tab, name, e, b, size) && e > 0 && e + EntriesFor(size) <= |tab|
    ensures Holds(tab, ImageNode(name, e, b, size).chain, ImageNode(name, e, b, size).refs)
    ensures Sized(tab, ImageNode(name, e, b, size))
  {
    var m := ImageNode(name, e, b, size);
    hide Laid;
    forall k | 0 <= k < |m.chain| ensures m.chain[k] == e + k && tab[m.chain[k]] == ImageEntry(name, e, b, size, k) {
      LaidAt(tab, name, e, b, size, k);
    }
  }

  lemma LaidStored(tab: Table, name: string, e: nat, b: nat, size: nat)
    requires Laid(tab, name, e, b, size) && e > 0 && e + EntriesFor(size) <= |tab|
    ensures Stored(tab, ImageNode(name, e, b, size))
  {
    LaidLinked(tab, name, e, b, size);
    LaidHolds(tab, name, e, b, size);
    hide Laid, Linked, Holds, Sized;
  }

  // ----- one file -----

  /** Where the next block goes. */
  function SlotOf(done: nat): nat {
    if done == 0 then 0 else (done / BLOCK - 1) % REFS + 1
  }

  /** Table after one more block is recorded. */
  lemma LaidNext(tab: Table, tab': Table, name: string, e: nat, b: nat, done: nat, cc: nat)
    requires Laid(tab, name, e, b, done) && done % BLOCK == 0 && 0 < cc <= BLOCK && name != ""
    requires |tab'| == |tab| && e > 0 && e + EntriesFor(done + cc) <= |tab|
    requires forall x :: e <= x < |tab| ==> tab'[x] == Recorded(tab, name, e, b + done / BLOCK, done, cc, x)
    ensures Laid(tab', name, e, b, done + cc)
  {
    hide ImageEntry, Recorded, EntriesFor;
    forall x | e <= x < |tab|
      ensures tab'[x] == if x - e < EntriesFor(done + cc) then ImageEntry(name, e, b, done + cc, x - e) else ZeroEntry()
    {
      RecordedAt(tab, name, e, b, done, cc, x - e);
    }
  }

  /** Entry `x` after the block is recorded: a new chained entry, the reference, and the sizes. */
  function Recorded(tab: Table, name: string, e: nat, b: nat, done: nat, cc: nat, x: nat): Entry
    requires e <= x < |tab|
  {
    var ec := e + done / CAPACITY;
    var start := ec != e && done % CAPACITY == 0;
    var t := if start && x == ec then Entry(File, name, 0, 0, ec - 1, 0, tab[x].refs)
      else if start && x == ec - 1 then tab[x].(next := ec) else tab[x];
    var t := if x == ec then t.(refs := t.refs[done / BLOCK % REFS := b]) else t;
    if x <= ec then t.(size := t.size + cc) else t
  }

  lemma Sizes(done: nat, cc: nat)
    requires done % BLOCK == 0 && 0 < cc <= BLOCK
    ensures NeededBlocks(done) == done / BLOCK && NeededBlocks(done + cc) == done / BLOCK + 1
    ensures done / CAPACITY == done / BLOCK / REFS
    ensures EntriesFor(done + cc) == done / CAPACITY + 1
    ensures EntriesFor(done) == if done % CAPACITY == 0 && done > 0 then done / CAPACITY else done / CAPACITY + 1
  {
    var n := done / BLOCK;
    assert done == n * BLOCK;
  }

  lemma RecordedAt(tab: Table, name: string, e: nat, b: nat, done: nat, cc: nat, k: nat)
    requires Laid(tab, name, e, b, done) && done % BLOCK == 0 && 0 < cc <= BLOCK && e > 0
    requires e + k < |tab|
    ensures Recorded(tab, name, e, b + done / BLOCK, done, cc, e + k) ==
      if k < EntriesFor(done + cc) then ImageEntry(name, e, b, done + cc, k) else ZeroEntry()
  {
    LaidAt(tab, name, e, b, done, k);
    hide Laid;
    Sizes(done, cc);
    hide EntriesFor, NeededBlocks;
    var ec := done / CAPACITY;
    var r := Recorded(tab, name, e, b + done / BLOCK, done, cc, e + k);
    if k <= ec {
      var x := ImageEntry(name, e, b, done + cc, k);
      forall i | 0 <= i < REFS ensures r.refs[i] == x.refs[i] {
        SlotRef(done, k, i);
      }
      assert r.refs == x.refs;
      assert r.size == x.size;
    }
  }

  lemma SlotRef(done: nat, k: nat, i: nat)
    requires done % BLOCK == 0 && i < REFS && k <= done / CAPACITY
    ensures REFS * k + i < done / BLOCK + 1
      <==> REFS * k + i < done / BLOCK || (k == done / CAPACITY && i == done / BLOCK % REFS)
    ensures k == done / CAPACITY && i == done / BLOCK % REFS ==> REFS * k + i == done / BLOCK
  {
    assert done / CAPACITY == done / BLOCK / REFS;
  }

  /** The head entry of a file laid out so far. */
  lemma LaidHead(tab: Table, name: string, e: nat, b: nat, size: nat)
    requires Laid(tab, name, e, b, size) && e < |tab|
    ensures tab[e].kind.File? && tab[e].size == size && tab[e].name == name
  {
    LaidAt(tab, name, e, b, size, 0);
  }

  /** A further entry is there exactly when the file has grown past the one before it. */
  lemma LaidMore(tab: Table, name: string, e: nat, b: nat, done: nat)
    requires Laid(tab, name, e, b, done) && done % BLOCK == 0 && name != "" && e + done / CAPACITY < |tab|
    ensures done >= CAPACITY ==> (tab[e + done / CAPACITY].name == "" <==> done % CAPACITY == 0)
  {
    LaidAt(tab, name, e, b, done, done / CAPACITY);
    Sizes(done, 1);
  }

  /** Counts `cc` more bytes in the entries from `ec` back to the head `e`. */
  method AddSizes(d: Disk, e: nat, ec: nat, cc: nat)
    requires e <= ec < d.table.Length
    modifies d.table
    ensures forall x :: 0 <= x < d.table.Length ==>
      d.table[x] == if e <= x <= ec then old(d.table[x]).(size := old(d.table[x]).size + cc) else old(d.table[x])
  {
    ghost var tab := d.table[..];
    var at: int := ec;
    while at >= e
      invariant e - 1 <= at <= ec
      invariant forall x :: 0 <= x < |tab| ==>
        d.table[x] == if at < x <= ec then tab[x].(size := tab[x].size + cc) else tab[x]
    {
      d.table[at] := d.table[at].(size := d.table[at].size + cc);
      at := at - 1;
    }
  }

  /** Table with a chained entry started at `ec` behind entry `ec - 1`. */
  function Started(tab: Table, ec: nat, name: string): Table
    requires 0 < ec < |tab|
  {
    tab[ec - 1 := tab[ec - 1].(next := ec)][ec := Entry(File, name, 0, 0, ec - 1, 0, tab[ec].refs)]
  }

  /** Puts block `b` into its slot, in a new chained entry when the last one is full. */
  method PutRef(d: Disk, e: nat, slot: nat, b: nat, ghost name: string, ghost start: nat, ghost done: nat)
    returns (ec: nat, i: nat)
    requires Laid(d.table[..], name, e, start, done) && name != "" && done % BLOCK == 0
    requires 0 < e && e + done / CAPACITY < d.table.Length && slot == SlotOf(done)
    modifies d.table
    ensures ec == e + done / CAPACITY && i == done / BLOCK % REFS
    ensures d.table[..] ==
      var t := if ec != e && done % CAPACITY == 0 then Started(old(d.table[..]), ec, name) else old(d.table[..]);
      t[ec := t[ec].(refs := t[ec].refs[i := b])]
  {
    hide Laid, ImageEntry, NeededBlocks, SlotOf, EntriesFor, SizeFrom;
    ghost var tab := d.table[..];
    i := slot;
    LaidHead(tab, name, e, start, done);
    LaidMore(tab, name, e, start, done);
    Slots(done);
    ec := e + d.table[e].size / CAPACITY;
    if e != ec && d.table[ec].name == "" {
      d.table[ec] := d.table[ec].(name := d.table[e].name);
      d.table[ec-1] := d.table[ec-1].(next := ec);
      d.table[ec] := Entry(File, d.table[ec].name, 0, 0, ec - 1, 0, d.table[ec].refs);
      i := 0;
      assert d.table[..] == Started(tab, ec, name);
    }
    d.table[ec] := d.table[ec].(refs := d.table[ec].refs[i := b]);
  }

  lemma RecordedIs(tab: Table, tab': Table, name: string, e: nat, b: nat, done: nat, cc: nat)
    requires 0 < e && e + done / CAPACITY < |tab| == |tab'|
    requires var ec, i := e + done / CAPACITY, done / BLOCK % REFS;
      var t := if ec != e && done % CAPACITY == 0 then Started(tab, ec, name) else tab;
      var t := t[ec := t[ec].(refs := t[ec].refs[i := b])];
      forall x :: 0 <= x < |tab| ==> tab'[x] == if e <= x <= ec then t[x].(size := t[x].size + cc) else t[x]
    ensures forall x :: 0 <= x < |tab| ==> tab'[x] == if x < e then tab[x] else Recorded(tab, name, e, b, done, cc, x)
  {}

  /** Records block `b` as the next one of the file at entry `e`. */
  method Record(d: Disk, e: nat, slot: nat, b: nat, cc: nat, ghost name: string, ghost start: nat, ghost done: nat)
    returns (i: nat)
    requires Laid(d.table[..], name, e, start, done) && name != "" && done % BLOCK == 0 && 0 < cc <= BLOCK
    requires 0 < e && e + EntriesFor(done + cc) <= d.table.Length && slot == SlotOf(done) && b == start + done / BLOCK
    modifies d.table
    ensures Laid(d.table[..], name, e, start, done + cc)
    ensures forall x :: 0 <= x < e ==> d.table[x] == old(d.table[x])
    ensures (done + cc) % BLOCK == 0 ==> i == SlotOf(done + cc)
  {
    hide Laid, ImageEntry, NeededBlocks, SlotOf, EntriesFor, SizeFrom, Recorded, Started;
    ghost var tab := d.table[..];
    Sizes(done, cc);
    Slots(done);
    var ec;
    ec, i := PutRef(d, e, slot, b, name, start, done);
    AddSizes(d, e, ec, cc);
    i := i + 1;
    RecordedIs(tab, d.table[..], name, e, b, done, cc);
    LaidNext(tab, d.table[..], name, e, start, done, cc);
  }

  lemma Slots(done: nat)
    requires done % BLOCK == 0
    ensures SlotOf(done) == REFS <==> done > 0 && done % CAPACITY == 0
    ensures SlotOf(done) != REFS ==> SlotOf(done) == done / BLOCK % REFS
    ensures done % CAPACITY == 0 ==> done / BLOCK % REFS == 0
    ensures SlotOf(done + BLOCK) == done / BLOCK % REFS + 1
  {
    var n := done / BLOCK;
    assert done == BLOCK * n;
    WholeEntries(n);
    Before(n);
    assert (done + BLOCK) / BLOCK == n + 1;
  }

  lemma WholeEntries(n: nat)
    ensures BLOCK * n % CAPACITY == 0 <==> n % REFS == 0
  {}

  lemma Before(n: nat)
    ensures n > 0 ==> (n - 1) % REFS + 1 == if n % REFS == 0 then REFS else n % REFS
  {}

  /** The bytes from block `b` on. */
  ghost predicate Spread(blocks: seq<Block>, b: nat, bytes: seq<Byte>) {
    && b + NeededBlocks(|bytes|) <= |blocks|
    && forall p :: 0 <= p < |bytes| ==>
         p / BLOCK < NeededBlocks(|bytes|) && blocks[b + p / BLOCK][p % BLOCK] == bytes[p]
  }

  lemma SpreadNext(blocks: seq<Block>, b: nat, bytes: seq<Byte>, chunk: seq<Byte>, block: Block)
    requires Spread(blocks, b, bytes) && |bytes| % BLOCK == 0 && 0 < |chunk| <= BLOCK && chunk <= block
    requires b + NeededBlocks(|bytes|) < |blocks|
    ensures Spread(blocks[b + NeededBlocks(|bytes|) := block], b, bytes + chunk)
  {
    Sizes(|bytes|, |chunk|);
    var n := NeededBlocks(|bytes|);
    hide NeededBlocks;
    var blocks' := blocks[b + n := block];
    forall p | 0 <= p < |bytes + chunk|
      ensures p / BLOCK < n + 1 && blocks'[b + p / BLOCK][p % BLOCK] == (bytes + chunk)[p]
    {
      if p < |bytes| {
        assert blocks[b + p / BLOCK][p % BLOCK] == bytes[p];
      } else {
        InBlock(p, n, p - |bytes|);
      }
    }
  }

  /** A file laid out over those blocks has those bytes. */
  lemma SpreadContents(blocks: seq<Block>, name: string, e: nat, b: nat, bytes: seq<Byte>)
    requires Spread(blocks, b, bytes)
    ensures Readable(ImageNode(name, e, b, |bytes|), |blocks|)
    ensures Contents(ImageNode(name, e, b, |bytes|), blocks) == bytes
  {
    var m := ImageNode(name, e, b, |bytes|);
    forall p | 0 <= p < |bytes| ensures Contents(m, blocks)[p] == bytes[p] {
      BlockOf(m.size, p);
      assert blocks[b + p / BLOCK][p % BLOCK] == bytes[p];
    }
  }

  lemma EntriesMonotone(size: nat, total: nat)
    requires size <= total
    ensures EntriesFor(size) <= EntriesFor(total) && NeededBlocks(size) <= NeededBlocks(total)
  {}

  lemma LaidFirst(tab: Table, name: string, e: nat, b: nat)
    requires e < |tab| && tab[e] == Entry(File, name, 0, 0, 0, 0, NoRefs())
    requires forall x :: e < x < |tab| ==> tab[x] == ZeroEntry()
    ensures Laid(tab, name, e, b, 0)
  {
    assert ImageEntry(name, e, b, 0, 0).refs == NoRefs();
  }

  /** Adds the next block of a file that holds `bytes` so far. */
  method AddBlock(d: Disk, e: nat, slot: nat, at: nat, cc: nat, buf: Block, ghost name: string, ghost b: nat,
                  ghost bytes: seq<Byte>)
    returns (i: nat)
    requires |bytes| % BLOCK == 0 && 0 < cc <= BLOCK && name != ""
    requires 0 < e && e + EntriesFor(|bytes| + cc) <= d.table.Length && slot == SlotOf(|bytes|)
    requires at == b + NeededBlocks(|bytes|) && at < d.blocks.Length
    requires Laid(d.table[..], name, e, b, |bytes|) && Spread(d.blocks[..], b, bytes)
    modifies d.table, d.blocks
    ensures Laid(d.table[..], name, e, b, |bytes| + cc)
    ensures Spread(d.blocks[..], b, bytes + buf[..cc])
    ensures forall x :: 0 <= x < e ==> d.table[x] == old(d.table[x])
    ensures forall x :: 0 <= x < d.blocks.Length && x != at ==> d.blocks[x] == old(d.blocks[x])
    ensures (|bytes| + cc) % BLOCK == 0 ==> i == SlotOf(|bytes| + cc)
    ensures b + NeededBlocks(|bytes| + cc) == at + 1
  {
    hide Laid, Spread, EntriesFor, NeededBlocks, SlotOf;
    Sizes(|bytes|, cc);
    i := Record(d, e, slot, at, cc, name, b, |bytes|);
    ghost var blocks := d.blocks[..];
    SpreadNext(blocks, b, bytes, buf[..cc], buf);
    d.blocks[at] := buf;
    assert d.blocks[..] == blocks[at := buf];
  }

  lemma NextChunk(size: nat, done: nat, cc: nat)
    requires done < size && done % BLOCK == 0 && cc == Min(BLOCK, size - done)
    ensures 0 < cc <= BLOCK && done + cc <= size && NeededBlocks(done) < NeededBlocks(size)
    ensures EntriesFor(done + cc) <= EntriesFor(size)
    ensures done + cc < size ==> (done + cc) % BLOCK == 0
  {
    Sizes(done, cc);
    hide EntriesFor, NeededBlocks;
    EntriesMonotone(done + cc, size);
  }

  lemma CutSome(name: string)
    requires name != ""
    ensures Cut(name) != ""
  {}

  /** Adds a file to the image: its entries from `e` on, its blocks from `b` on. */
  method AddFile(d: Disk, e: nat, b: nat, file: Input) returns (b': nat)
    requires file.name != "" && 0 < e && e + EntriesFor(|file.bytes|) < d.table.Length
    requires forall x :: e <= x < d.table.Length ==> d.table[x] == ZeroEntry()
    requires b + NeededBlocks(|file.bytes|) <= d.blocks.Length
    modifies d.table, d.blocks
    ensures b' == b + NeededBlocks(|file.bytes|)
    ensures Laid(d.table[..], Cut(file.name), e, b, |file.bytes|)
    ensures forall x :: 0 <= x < e ==> d.table[x] == old(d.table[x])
    ensures Spread(d.blocks[..], b, file.bytes)
    ensures forall x :: 0 <= x < d.blocks.Length && !(b <= x < b') ==> d.blocks[x] == old(d.blocks[x])
  {
    hide Laid, Spread, EntriesFor, NeededBlocks, SlotOf, Cut;
    var name := Cut(file.name);
    CutSome(file.name);
    var buf: Block := *;
    d.table[e] := Entry(File, name, 0, 0, 0, 0, d.table[e].refs);
    LaidFirst(d.table[..], name, e, b);
    SpreadNone(d.blocks[..], b);
    var done, i := 0, 0;
    b' := b;
    while done < |file.bytes|
      invariant 0 <= done <= |file.bytes| && b' == b + NeededBlocks(done)
      invariant done < |file.bytes| ==> done % BLOCK == 0 && i == SlotOf(done)
      invariant Laid(d.table[..], name, e, b, done)
      invariant Spread(d.blocks[..], b, file.bytes[..done])
      invariant forall x :: 0 <= x < e ==> d.table[x] == old(d.table[x])
      invariant forall x :: 0 <= x < d.blocks.Length && !(b <= x < b') ==> d.blocks[x] == old(d.blocks[x])
    {
      var cc := Min(BLOCK, |file.bytes| - done);
      NextChunk(|file.bytes|, done, cc);
      buf := file.bytes[done..done + cc] + buf[cc..];
      i := AddBlock(d, e, i, b', cc, buf, name, b, file.bytes[..done]);
      assert file.bytes[..done] + buf[..cc] == file.bytes[..done + cc];
      done := done + cc;
      b' := b' + 1;
    }
    assert file.bytes[..done] == file.bytes;
  }

  lemma SpreadNone(blocks: seq<Block>, b: nat)
    requires b <= |blocks|
    ensures Spread(blocks, b, []) && NeededBlocks(0) == 0 && SlotOf(0) == 0
  {}

  // ----- the image -----

  /** Names that differ once cut, none of them that of the root. */
  predicate Distinct(files: seq<Input>) {
    && (forall i :: 0 <= i < |files| ==> Cut(files[i].name) != ROOT_NAME)
    && forall i, j :: 0 <= i < j < |files| ==> Cut(files[i].name) != Cut(files[j].name)
  }

  function TotalEntries(files: seq<Input>): nat {
    if files == [] then 0 else TotalEntries(files[..|files|-1]) + EntriesFor(|files[|files|-1].bytes|)
  }

  function TotalBlocks(files: seq<Input>): nat {
    if files == [] then 0 else TotalBlocks(files[..|files|-1]) + NeededBlocks(|files[|files|-1].bytes|)
  }

  /** Item `h` is the file, in blocks that follow one another. */
  ghost predicate Filed(fs: FS, blocks: seq<Block>, h: nat, file: Input) {
    && h != 0 && IsItem(fs, h, 0, Cut(file.name)) && FileHas(fs, blocks, h, file.bytes)
    && forall j :: 0 <= j < |fs[h].refs| ==> fs[h].refs[j] == fs[h].refs[0] + j
  }

  /** The root lists one item per file, in order, and there is nothing else. */
  ghost predicate Image(fs: FS, blocks: seq<Block>, files: seq<Input>) {
    && 0 in fs && fs[0] == Node(Dir, ROOT_NAME, 0, [0], |files|, fs[0].refs)
    && |fs[0].refs| == |files| && NoDup(fs[0].refs)
    && (forall h :: h in fs ==> h == 0 || h in fs[0].refs)
    && forall f :: 0 <= f < |files| ==> Filed(fs, blocks, fs[0].refs[f], files[f])
  }

  /** The first file is where the boot sector looks for it. */
  ghost predicate KernelFirst(fs: FS, lo: nat) {
    0 in fs && fs[0].refs != [] ==>
      && fs[0].refs[0] == 1 && 1 in fs && (fs[1].refs != [] ==> fs[1].refs[0] == lo)
  }

  lemma RootItem(tab: Table, m: Node, ref: nat)
    requires Stored(tab, m) && m.kind.Dir? && m.chain == [0] && m.size < REFS && 0 < |tab|
    ensures Stored(tab[0 := tab[0].(refs := tab[0].refs[m.size := ref], size := m.size + 1)], WithItem(m, ref))
  {
    var tab1 := tab[0 := tab[0].(refs := tab[0].refs[m.size := ref])];
    var tab' := tab[0 := tab[0].(refs := tab[0].refs[m.size := ref], size := m.size + 1)];
    hide Stored;
    HeadOf(tab, m);
    assert SizesSet(tab1, tab', m, m.size + 1, 1);
    AddedRef(tab, tab', m, ref);
  }

  /** The table, with the root counting only the files added so far. */
  function Counting(tab: Table, count: nat): Table
    requires 0 < |tab|
  {
    tab[0 := tab[0].(size := count)]
  }

  lemma FileInserted(tab: Table, tab2: Table, fs: FS, e: nat, b: nat, name: string, size: nat)
    requires Represents(tab, fs) && 0 < e && e + EntriesFor(size) < |tab| == |tab2|
    requires forall x :: e <= x < |tab| ==> tab[x] == ZeroEntry()
    requires forall x :: 0 <= x < e ==> tab2[x] == tab[x]
    requires Laid(tab2, name, e, b, size)
    ensures Represents(tab2, fs[e := ImageNode(name, e, b, size)]) && e !in fs
  {
    var m := ImageNode(name, e, b, size);
    LaidStored(tab2, name, e, b, size);
    hide Represents, Stored;
    FreshItem(tab, fs, e);
    forall x | 0 <= x < |tab| && x !in m.chain && x !in [] ensures tab2[x] == tab[x] {
      if x >= e { LaidOutside(tab2, name, e, b, size, x - e); }
    }
    Inserted(tab, tab2, fs, e, m);
  }

  lemma LaidOutside(tab: Table, name: string, e: nat, b: nat, size: nat, k: nat)
    requires Laid(tab, name, e, b, size) && e + k < |tab| && e + k !in ImageNode(name, e, b, size).chain
    ensures tab[e + k] == ZeroEntry()
  {
    var m := ImageNode(name, e, b, size);
    assert k < EntriesFor(size) ==> m.chain[k] == e + k;
  }

  /** The table stores `fs` but for the count of the root. */
  ghost predicate Counted(tab: Table, fs: FS, f: nat) {
    && 0 < |tab| && 0 in fs && fs[0].chain == [0] && fs[0].kind.Dir? && fs[0].size == f
    && Represents(Counting(tab, f), fs)
  }

  /** The file system with one more file, listed last in the root. */
  function WithFile(fs: FS, e: nat, b: nat, name: string, size: nat): FS {
    if 0 in fs then Placed(fs, e, ImageNode(name, e, b, size)) else fs
  }

  /** One more file in the table. */
  lemma FileRepresented(tab: Table, tab': Table, fs: FS, e: nat, b: nat, name: string, size: nat, f: nat)
    requires 0 < e && e + EntriesFor(size) < |tab| == |tab'|
    requires f < REFS
    requires forall x :: e <= x < |tab| ==> tab[x] == ZeroEntry()
    requires forall x :: 1 <= x < e ==> tab'[x] == tab[x]
    requires tab'[0] == tab[0].(refs := tab[0].refs[f := e])
    requires Laid(tab', name, e, b, size) && Counted(tab, fs, f)
    ensures e !in fs && Counted(tab', WithFile(fs, e, b, name, size), f + 1)
  {
    hide Represents, Stored, Laid, Placed;
    var m := ImageNode(name, e, b, size);
    var w, w1, w2 := Counting(tab, f), tab'[0 := tab[0].(size := f)], Counting(tab', f + 1);
    LaidElsewhere(tab', w1, name, e, b, size);
    FileInserted(w, w1, fs, e, b, name, size);
    HeadStored(w1, fs[e := m], 0);
    RootItem(w1, fs[0], e);
    assert w2 == w1[0 := w1[0].(refs := w1[0].refs[f := e], size := f + 1)];
    PlacedRepresented(w1, w2, fs, e, m);
    PlacedAt(fs, e, m, 0);
  }

  lemma LaidElsewhere(tab: Table, tab': Table, name: string, e: nat, b: nat, size: nat)
    requires Laid(tab, name, e, b, size) && |tab'| == |tab| && forall x :: e <= x < |tab| ==> tab'[x] == tab[x]
    ensures Laid(tab', name, e, b, size)
  {}

  lemma FileBlocks(fs: FS, e: nat, b: nat, name: string, size: nat, lo: nat)
    requires BlocksOk(fs, lo, b) && lo <= b && e !in fs && 0 in fs && fs[0].kind.Dir? && e != 0
    ensures BlocksOk(Placed(fs, e, ImageNode(name, e, b, size)), lo, b + NeededBlocks(size))
  {
    hide Placed, NeededBlocks;
    var m := ImageNode(name, e, b, size);
    var fs' := Placed(fs, e, m);
    forall h: nat, x: nat | UsesBlock(fs', h, x)
      ensures if h == e then b <= x < b + NeededBlocks(size) else UsesBlock(fs, h, x) && lo <= x < b
    {
      PlacedAt(fs, e, m, h);
    }
    forall h | h in fs' && fs'[h].kind.File? ensures NoDup(fs'[h].refs) {
      PlacedAt(fs, e, m, h);
      if h != e { assert NoDup(fs[h].refs); }
    }
  }

  lemma PlacedTwice(fs: FS, e: nat, m: Node)
    requires m.parent in fs && m.parent != e
    ensures Placed(fs, e, m) == Placed(fs, e, NewNode(m.kind, m.name, m.parent, e))[e := m]
  {}

  lemma ImageName(fs: FS, blocks: seq<Block>, files: seq<Input>, file: Input, h: nat)
    requires Image(fs, blocks, files) && Distinct(files + [file]) && h in fs
    ensures fs[h].name != Cut(file.name)
  {
    var all := files + [file];
    assert all[|files|] == file;
    if h != 0 {
      var f :| 0 <= f < |files| && fs[0].refs[f] == h;
      assert Filed(fs, blocks, fs[0].refs[f], files[f]);
      assert all[f] == files[f];
    }
  }

  /** The tree with one more file, if its name is new. */
  lemma FileTree(fs: FS, blocks: seq<Block>, files: seq<Input>, file: Input, e: nat, m: Node, lo: nat, b: nat)
    requires Image(fs, blocks, files) && Distinct(files + [file]) && |files| < REFS
    requires WellFormed(fs, lo, b) && e !in fs && e != 0
    requires m.kind.File? && m.name == Cut(file.name) && m.parent == 0
    ensures TreeOk(Placed(fs, e, m), {})
  {
    hide TreeOk, BlocksOk, Placed, Distinct, Filed, NoDup;
    var m0 := NewNode(File, m.name, 0, e);
    forall h | h in fs ensures fs[h].name != m.name { ImageName(fs, blocks, files, file, h); }
    assert 0 in fs && fs[0].kind.Dir? && |fs[0].refs| < REFS;
    CreatedOk(fs, e, m0, lo, b);
    PlacedAt(fs, e, m0, e);
    FileChanged(Placed(fs, e, m0), e, m);
    PlacedTwice(fs, e, m);
  }

  lemma SameFiled(fs: FS, blocks: seq<Block>, fs': FS, blocks': seq<Block>, h: nat, file: Input, lo: nat, b: nat)
    requires Filed(fs, blocks, h, file) && BlocksOk(fs, lo, b) && |blocks'| == |blocks| && b <= |blocks|
    requires h in fs' && fs'[h] == fs[h] && forall x :: 0 <= x < b ==> blocks'[x] == blocks[x]
    ensures Filed(fs', blocks', h, file)
  {
    BlocksReadable(fs, h, lo, b);
    forall p | 0 <= p < fs[h].size ensures ByteAt(fs[h], blocks', p) == ByteAt(fs[h], blocks, p) {
      BlockOf(fs[h].size, p);
    }
  }

  lemma NewFiled(fs: FS, blocks: seq<Block>, file: Input, e: nat, b: nat)
    requires Spread(blocks, b, file.bytes) && e != 0
    requires e in fs && fs[e] == ImageNode(Cut(file.name), e, b, |file.bytes|)
    ensures Filed(fs, blocks, e, file) && (fs[e].refs != [] ==> fs[e].refs[0] == b)
  {
    SpreadContents(blocks, Cut(file.name), e, b, file.bytes);
    hide Contents, Readable, Spread;
  }

  /** The image with one more file. */
  lemma ImageNext(fs: FS, blocks: seq<Block>, blocks': seq<Block>, files: seq<Input>, file: Input, e: nat, b: nat,
                  lo: nat)
    requires Image(fs, blocks, files) && e !in fs && e != 0 && lo <= b <= |blocks| == |blocks'| && BlocksOk(fs, lo, b)
    requires Spread(blocks', b, file.bytes) && forall x :: 0 <= x < b ==> blocks'[x] == blocks[x]
    ensures Image(Placed(fs, e, ImageNode(Cut(file.name), e, b, |file.bytes|)), blocks', files + [file])
  {
    hide Filed, BlocksOk, Placed, Spread, ImageNode, NoDup, Image;
    var m := ImageNode(Cut(file.name), e, b, |file.bytes|);
    ImageRoot(fs, blocks, files);
    ImageParent(Cut(file.name), e, b, |file.bytes|);
    var fs' := Placed(fs, e, m);
    PlacedAt(fs, e, m, 0);
    PlacedAt(fs, e, m, e);
    forall f | 0 <= f < |files| + 1 ensures Filed(fs', blocks', fs'[0].refs[f], (files + [file])[f]) {
      if f < |files| {
        ImageFile(fs, blocks, files, f);
        PlacedAt(fs, e, m, fs[0].refs[f]);
        SameFiled(fs, blocks, fs', blocks', fs[0].refs[f], files[f], lo, b);
      } else {
        NewFiled(fs', blocks', file, e, b);
      }
    }
    forall h | h in fs' ensures h == 0 || h in fs'[0].refs {
      PlacedAt(fs, e, m, h);
      if h != e { ImageKeys(fs, blocks, files, h); }
    }
    NoDupNext(fs[0].refs, e);
    ImageIs(fs', blocks', files + [file]);
  }

  lemma NoDupNext(s: seq<nat>, x: nat)
    requires NoDup(s) && x !in s
    ensures NoDup(s + [x])
  {}

  lemma ImageParent(name: string, e: nat, b: nat, size: nat)
    ensures ImageNode(name, e, b, size).parent == 0 && ImageNode(name, e, b, size).kind.File?
    ensures ImageNode(name, e, b, size).name == name && ImageNode(name, e, b, size).size == size
  {}

  lemma ImageRoot(fs: FS, blocks: seq<Block>, files: seq<Input>)
    requires Image(fs, blocks, files)
    ensures 0 in fs && fs[0] == Node(Dir, ROOT_NAME, 0, [0], |files|, fs[0].refs)
    ensures |fs[0].refs| == |files| && NoDup(fs[0].refs)
    ensures forall h :: h in fs[0].refs ==> h in fs
  {
    hide Filed;
    forall h | h in fs[0].refs ensures h in fs {
      var f :| 0 <= f < |fs[0].refs| && fs[0].refs[f] == h;
      ImageFile(fs, blocks, files, f);
    }
  }

  lemma ImageFile(fs: FS, blocks: seq<Block>, files: seq<Input>, f: nat)
    requires Image(fs, blocks, files) && f < |files|
    ensures 0 in fs && f < |fs[0].refs| && Filed(fs, blocks, fs[0].refs[f], files[f]) && fs[0].refs[f] in fs
    ensures fs[0].refs[f] != 0
  {}

  lemma ImageKeys(fs: FS, blocks: seq<Block>, files: seq<Input>, h: nat)
    requires Image(fs, blocks, files) && h in fs
    ensures 0 in fs && (h == 0 || h in fs[0].refs)
  {}

  lemma ImageIs(fs: FS, blocks: seq<Block>, files: seq<Input>)
    requires 0 in fs && fs[0] == Node(Dir, ROOT_NAME, 0, [0], |files|, fs[0].refs)
    requires |fs[0].refs| == |files| && NoDup(fs[0].refs)
    requires forall h :: h in fs ==> h == 0 || h in fs[0].refs
    requires forall f :: 0 <= f < |files| ==> Filed(fs, blocks, fs[0].refs[f], files[f])
    ensures Image(fs, blocks, files)
  {}

  /** Two inputs whose names agree once cut give two items of one name, and one called `.` another root. */
  lemma ClashesShow(fs: FS, blocks: seq<Block>, files: seq<Input>)
    requires Image(fs, blocks, files) && NamesOk(fs)
    ensures Distinct(files)
  {
    hide FileHas;
    forall i | 0 <= i < |files| ensures Cut(files[i].name) != ROOT_NAME {
      ImageFile(fs, blocks, files, i);
      assert fs[fs[0].refs[i]].name == Cut(files[i].name) && fs[0].name == ROOT_NAME;
    }
    forall i, j | 0 <= i < j < |files| ensures Cut(files[i].name) != Cut(files[j].name) {
      ImageFile(fs, blocks, files, i);
      ImageFile(fs, blocks, files, j);
      assert fs[fs[0].refs[i]].name == Cut(files[i].name) && fs[fs[0].refs[j]].name == Cut(files[j].name);
    }
  }

  // ----- the whole program -----

  /** The inputs fit: entries, with one to spare for the scan past the last file, and blocks. */
  predicate Fits(files: seq<Input>, entries: nat, blocks: nat) {
    && 1 + TotalEntries(files) < entries
    && 2 + entries + TotalBlocks(files) <= blocks
  }

  lemma {:induction false} TotalsMonotone(files: seq<Input>, f: nat)
    requires f < |files|
    ensures TotalEntries(files[..f]) + EntriesFor(|files[f].bytes|) <= TotalEntries(files)
    ensures TotalBlocks(files[..f]) + NeededBlocks(|files[f].bytes|) <= TotalBlocks(files)
    ensures TotalEntries(files[..f+1]) == TotalEntries(files[..f]) + EntriesFor(|files[f].bytes|)
    ensures TotalBlocks(files[..f+1]) == TotalBlocks(files[..f]) + NeededBlocks(|files[f].bytes|)
  {
    hide EntriesFor, NeededBlocks;
    assert files[..f+1][..f] == files[..f] && files[..f+1][f] == files[f];
    if f + 1 < |files| {
      var less := files[..|files|-1];
      assert less[..f] == files[..f] && less[f] == files[f];
      TotalsMonotone(less, f);
    } else {
      assert files[..f+1] == files;
    }
  }

  /** The image while files are being added: the table, the file system so far, and what is still free. */
  ghost predicate Partial(tab: Table, fs: FS, blocks: seq<Block>, files: seq<Input>, e: nat, b: nat, lo: nat) {
    && 0 < e <= |tab| && lo <= b <= |blocks|
    && Counted(tab, fs, |files|) && Image(fs, blocks, files) && KernelFirst(fs, lo)
    && (files == [] ==> e == 1 && b == lo)
    && (forall x :: e <= x < |tab| ==> tab[x] == ZeroEntry())
    && BlocksOk(fs, lo, b) && (Distinct(files) ==> TreeOk(fs, {}))
  }

  lemma PartialStart(tab: Table, blocks: seq<Block>, count: nat, lo: nat)
    requires 0 < |tab| && tab[0] == Entry(Dir, ROOT_NAME, 0, count, 0, 0, NoRefs()) && lo <= |blocks|
    requires forall x :: 1 <= x < |tab| ==> tab[x] == ZeroEntry()
    ensures Partial(tab, Empty(), blocks, [], 1, lo, lo)
  {
    hide Represents, TreeOk, BlocksOk;
    BlankStored(Counting(tab, 0));
    EmptyOk(lo, lo);
  }

  lemma DistinctLess(files: seq<Input>, file: Input)
    requires Distinct(files + [file])
    ensures Distinct(files)
  {
    forall i | 0 <= i < |files| ensures Cut(files[i].name) == Cut((files + [file])[i].name) {}
    forall i | 0 <= i < |files| ensures Cut(files[i].name) != ROOT_NAME {
      assert Cut((files + [file])[i].name) != ROOT_NAME;
    }
    forall i, j | 0 <= i < j < |files| ensures Cut(files[i].name) != Cut(files[j].name) {
      assert Cut((files + [file])[i].name) != Cut((files + [file])[j].name);
    }
  }

  /** Adding a file keeps all of that. */
  lemma PartialNext(tab: Table, tab': Table, fs: FS, blocks: seq<Block>, blocks': seq<Block>, files: seq<Input>,
                    file: Input, e: nat, b: nat, lo: nat)
    requires |files| < REFS && 0 < e
    requires e + EntriesFor(|file.bytes|) < |tab| == |tab'| && b <= |blocks| == |blocks'|
    requires b + NeededBlocks(|file.bytes|) <= |blocks|
    requires forall x :: 1 <= x < e ==> tab'[x] == tab[x]
    requires tab'[0] == tab[0].(refs := tab[0].refs[|files| := e])
    requires Laid(tab', Cut(file.name), e, b, |file.bytes|)
    requires Spread(blocks', b, file.bytes) && forall x :: 0 <= x < b ==> blocks'[x] == blocks[x]
    requires Partial(tab, fs, blocks, files, e, b, lo)
    ensures Partial(tab', WithFile(fs, e, b, Cut(file.name), |file.bytes|), blocks', files + [file],
      e + EntriesFor(|file.bytes|), b + NeededBlocks(|file.bytes|), lo)
  {
    hide Counted, Image, TreeOk, BlocksOk, Laid, Spread, Placed, Distinct, ImageNode, EntriesFor, NeededBlocks, Cut;
    var name, size := Cut(file.name), |file.bytes|;
    var m := ImageNode(name, e, b, size);
    ImageParent(name, e, b, size);
    ImageRoot(fs, blocks, files);
    FileRepresented(tab, tab', fs, e, b, name, size, |files|);
    ImageNext(fs, blocks, blocks', files, file, e, b, lo);
    FileBlocks(fs, e, b, name, size, lo);
    KernelNext(fs, e, b, name, size, lo);
    forall x | e + EntriesFor(size) <= x < |tab'| ensures tab'[x] == ZeroEntry() {
      LaidAt(tab', name, e, b, size, x - e);
    }
    if Distinct(files + [file]) {
      DistinctLess(files, file);
      Whole(fs, lo, b);
      FileTree(fs, blocks, files, file, e, m, lo, b);
    }
  }

  lemma Whole(fs: FS, lo: nat, hi: nat)
    requires TreeOk(fs, {}) && BlocksOk(fs, lo, hi)
    ensures WellFormed(fs, lo, hi)
  {}

  lemma KernelNext(fs: FS, e: nat, b: nat, name: string, size: nat, lo: nat)
    requires 0 in fs && KernelFirst(fs, lo) && e != 0 && e !in fs
    requires fs[0].refs == [] ==> e == 1 && b == lo
    ensures KernelFirst(Placed(fs, e, ImageNode(name, e, b, size)), lo)
  {
    hide Placed;
    var m := ImageNode(name, e, b, size);
    PlacedAt(fs, e, m, 0);
    PlacedAt(fs, e, m, 1);
  }

  lemma BlocksMore(fs: FS, lo: nat, b: nat, hi: nat)
    requires BlocksOk(fs, lo, b) && b <= hi
    ensures BlocksOk(fs, lo, hi)
  {}

  lemma PartialEnd(tab: Table, fs: FS, blocks: seq<Block>, files: seq<Input>, e: nat, b: nat, lo: nat)
    requires Partial(tab, fs, blocks, files, e, b, lo) && tab[0].size == |files|
    ensures Represents(tab, fs) && Image(fs, blocks, files) && KernelFirst(fs, lo)
    ensures WellFormed(fs, lo, |blocks|) <==> Distinct(files)
  {
    hide Represents, Image, TreeOk, Distinct, BlocksOk, KernelFirst;
    assert Counting(tab, |files|) == tab;
    BlocksMore(fs, lo, b, |blocks|);
    if TreeOk(fs, {}) {
      TreeNames(fs);
      ClashesShow(fs, blocks, files);
    }
  }

  lemma TreeNames(fs: FS)
    requires TreeOk(fs, {})
    ensures NamesOk(fs)
  {}

  /** Scans past the entries of a file. */
  method NextFree(d: Disk, start: nat, ghost b: nat, ghost file: Input) returns (e: nat)
    requires Laid(d.table[..], Cut(file.name), start, b, |file.bytes|) && file.name != ""
    requires start + EntriesFor(|file.bytes|) < d.table.Length
    ensures e == start + EntriesFor(|file.bytes|)
  {
    hide Laid, EntriesFor;
    e := start;
    LaidName(d.table[..], file, start, b, 0);
    while d.table[e].name != ""
      invariant start <= e <= start + EntriesFor(|file.bytes|)
      invariant e < start + EntriesFor(|file.bytes|) <==> d.table[e].name != ""
      decreases d.table.Length - e
    {
      e := e + 1;
      LaidName(d.table[..], file, start, b, e - start);
    }
  }

  /** Writes the image. It stores a well-formed file system exactly when the names differ once cut. */
  method MakeImage(d: Disk, files: seq<Input>)
    requires 1 <= |files| <= REFS && Fits(files, d.table.Length, d.blocks.Length)
    requires forall f :: 0 <= f < |files| ==> files[f].name != ""
    modifies d`fs, d.table, d.blocks
    ensures Represents(d.table[..], d.fs)
    ensures d.Valid() <==> Distinct(files)
    ensures Image(d.fs, d.blocks[..], files) && KernelFirst(d.fs, d.FirstData())
  {
    hide Represents, WellFormed, Image, KernelFirst, Distinct, Laid, Spread, Placed, EntriesFor, NeededBlocks, Partial,
      Cut, ImageNode;
    // Zero blocks and free entries throughout
    ClearDisk(d);
    // Entry 0 is the root, which will list every input
    d.table[0] := Entry(Dir, ROOT_NAME, 0, |files|, 0, 0, d.table[0].refs);
    var e, b := 1, d.FirstData();
    ghost var lo := d.FirstData();
    ghost var fs := Empty();
    PartialStart(d.table[..], d.blocks[..], |files|, lo);
    var f := 0;
    while f < |files|
      invariant 0 <= f <= |files|
      invariant Partial(d.table[..], fs, d.blocks[..], files[..f], e, b, lo)
      invariant e == 1 + TotalEntries(files[..f]) && b == lo + TotalBlocks(files[..f])
      invariant d.table[0].size == |files|
    {
      ghost var tab, blocks := d.table[..], d.blocks[..];
      TotalsMonotone(files, f);
      PartialFree(tab, fs, blocks, files[..f], e, b, lo);
      d.table[0] := d.table[0].(refs := d.table[0].refs[f := e]);
      var b' := AddFile(d, e, b, files[f]);
      PartialNext(tab, d.table[..], fs, blocks, d.blocks[..], files[..f], files[f], e, b, lo);
      assert files[..f] + [files[f]] == files[..f+1];
      fs := WithFile(fs, e, b, Cut(files[f].name), |files[f].bytes|);
      e := NextFree(d, e, b, files[f]);
      b := b';
      f := f + 1;
    }
    assert files[..f] == files;
    PartialEnd(d.table[..], fs, d.blocks[..], files, e, b, lo);
    d.fs := fs;
  }

  lemma PartialFree(tab: Table, fs: FS, blocks: seq<Block>, files: seq<Input>, e: nat, b: nat, lo: nat)
    requires Partial(tab, fs, blocks, files, e, b, lo)
    ensures 0 < e <= |tab| && 0 in fs && forall x :: e <= x < |tab| ==> tab[x] == ZeroEntry()
  {
    hide Represents, Image, BlocksOk, TreeOk;
  }

  /** The scan past a file stops behind its last entry. */
  lemma LaidName(tab: Table, file: Input, e: nat, b: nat, k: nat)
    requires Laid(tab, Cut(file.name), e, b, |file.bytes|) && file.name != "" && e + k < |tab|
    ensures k < EntriesFor(|file.bytes|) <==> tab[e + k].name != ""
  {
    LaidAt(tab, Cut(file.name), e, b, |file.bytes|, k);
  }

  method ClearDisk(d: Disk)
    modifies d.table, d.blocks
    ensures forall x :: 0 <= x < d.table.Length ==> d.table[x] == ZeroEntry()
  {
    var i := 0;
    while i < d.blocks.Length
      invariant 0 <= i <= d.blocks.Length
    {
      d.blocks[i] := seq(BLOCK, _ => 0);
      i := i + 1;
    }
    i := 0;
    while i < d.table.Length
      invariant 0 <= i <= d.table.Length
      invariant forall x :: 0 <= x < i ==> d.table[x] == ZeroEntry()
    {
      d.table[i] := ZeroEntry();
      i := i + 1;
    }
  }
}
