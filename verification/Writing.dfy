/** Writing files. */
module Writing {
  import opened Entries
  import opened Layout
  import opened Trees
  import opened Tables
  import opened Directories
  import opened Growth
  import opened Creating
  import opened Files
  import opened Sizing

  /** `s` with the bytes from `off` on replaced by `data`. */
  function Overwritten(s: seq<Byte>, off: nat, data: seq<Byte>): seq<Byte>
    requires off + |data| <= |s|
  {
    s[..off] + data + s[off + |data|..]
  }

  lemma OverwrittenIs(s: seq<Byte>, off: nat, data: seq<Byte>)
    requires off + |data| <= |s|
    ensures |Overwritten(s, off, data)| == |s|
    ensures forall i :: 0 <= i < |s| ==>
      Overwritten(s, off, data)[i] == if off <= i < off + |data| then data[i - off] else s[i]
  {}

  lemma OverwrittenTwice(s: seq<Byte>, off: nat, data: seq<Byte>, more: seq<Byte>)
    requires off + |data| + |more| <= |s|
    ensures Overwritten(Overwritten(s, off, data), off + |data|, more) == Overwritten(s, off, data + more)
  {}

  /** Writing a piece of one block writes that piece of the file, if its blocks are distinct. */
  lemma ChunkWritten(m: Node, blocks: seq<Block>, b: nat, o: nat, data: seq<Byte>)
    requires Readable(m, |blocks|) && NoDup(m.refs)
    requires |data| > 0 && o + |data| <= BLOCK && BLOCK * b + o + |data| <= m.size
    ensures b < |m.refs| && m.refs[b] < |blocks|
    ensures Contents(m, blocks[m.refs[b] := Overwritten(blocks[m.refs[b]], o, data)]) ==
      Overwritten(Contents(m, blocks), BLOCK * b + o, data)
  {
    InBlock(BLOCK * b + o, b, o);
    BlockOf(m.size, BLOCK * b + o);
    var blocks' := blocks[m.refs[b] := Overwritten(blocks[m.refs[b]], o, data)];
    var bytes', bytes := Contents(m, blocks'), Overwritten(Contents(m, blocks), BLOCK * b + o, data);
    forall p | 0 <= p < m.size ensures bytes'[p] == bytes[p] {
      ByteWritten(m, blocks, b, o, data, p);
    }
  }

  lemma ByteWritten(m: Node, blocks: seq<Block>, b: nat, o: nat, data: seq<Byte>, p: nat)
    requires Readable(m, |blocks|) && NoDup(m.refs) && p < m.size
    requires |data| > 0 && o + |data| <= BLOCK && BLOCK * b + o + |data| <= m.size && b < |m.refs|
    ensures Contents(m, blocks[m.refs[b] := Overwritten(blocks[m.refs[b]], o, data)])[p] ==
      Overwritten(Contents(m, blocks), BLOCK * b + o, data)[p]
  {
    var q, i := p / BLOCK, p % BLOCK;
    assert p == BLOCK * q + i;
    BlockOf(m.size, p);
    var blocks' := blocks[m.refs[b] := Overwritten(blocks[m.refs[b]], o, data)];
    ByteIn(m, blocks, q, i);
    ByteIn(m, blocks', q, i);
    hide Contents, Readable;
    if q == b {
      assert blocks'[m.refs[q]][i] == Overwritten(blocks[m.refs[b]], o, data)[i];
    } else {
      assert m.refs[q] != m.refs[b];
    }
  }

  // ----- writing the data -----

  /** Every reference is either cleared or a block of the disk. */
  ghost predicate Writable(m: Node, lo: nat, hi: nat) {
    && |m.refs| == NeededBlocks(m.size)
    && forall j :: 0 <= j < |m.refs| ==> m.refs[j] == 0 || lo <= m.refs[j] < hi
  }

  ghost predicate Intact(m: Node) {
    NoDup(m.refs) && 0 !in m.refs
  }

  lemma IntactReadable(m: Node, lo: nat, hi: nat)
    requires Writable(m, lo, hi) && Intact(m)
    ensures Readable(m, hi)
  {}

  /** Blocks that are not the file's are as they were. */
  ghost predicate BlocksKept(m: Node, blocks: seq<Block>, blocks': seq<Block>) {
    |blocks'| == |blocks| && forall b :: 0 <= b < |blocks| && b !in m.refs ==> blocks'[b] == blocks[b]
  }

  /** Blocks that are not the file's are as they were; an intact file has its bytes overwritten. */
  ghost predicate Written(m: Node, blocks: seq<Block>, blocks': seq<Block>, lo: nat, off: nat, data: seq<Byte>) {
    && BlocksKept(m, blocks, blocks')
    && (Writable(m, lo, |blocks|) && Intact(m) ==>
         && Readable(m, |blocks|) && off + |data| <= m.size
         && Contents(m, blocks') == Overwritten(Contents(m, blocks), off, data))
  }

  lemma WrittenKeeps(m: Node, blocks: seq<Block>, blocks': seq<Block>, lo: nat, off: nat, data: seq<Byte>)
    requires Written(m, blocks, blocks', lo, off, data)
    ensures BlocksKept(m, blocks, blocks')
  {}

  lemma WrittenNone(m: Node, blocks: seq<Block>, lo: nat, off: nat)
    requires off <= m.size
    ensures Written(m, blocks, blocks, lo, off, [])
  {
    if Writable(m, lo, |blocks|) && Intact(m) {
      IntactReadable(m, lo, |blocks|);
      assert Overwritten(Contents(m, blocks), off, []) == Contents(m, blocks);
    }
  }

  lemma WrittenOnce(m: Node, blocks: seq<Block>, blocks1: seq<Block>, lo: nat, off: nat, data: seq<Byte>,
                    more: seq<Byte>, b: nat, o: nat)
    requires Written(m, blocks, blocks1, lo, off, data)
    requires |more| > 0 && o + |more| <= BLOCK && BLOCK * b + o == off + |data| && off + |data| + |more| <= m.size
    requires b < |m.refs| && m.refs[b] < |blocks|
    ensures Written(m, blocks, blocks1[m.refs[b] := Overwritten(blocks1[m.refs[b]], o, more)], lo, off, data + more)
  {
    if Writable(m, lo, |blocks|) && Intact(m) {
      ChunkWritten(m, blocks1, b, o, more);
      OverwrittenTwice(Contents(m, blocks), off, data, more);
    }
  }

  /** No byte from `off` on, `count` of them, falls to a reference that was cleared. */
  ghost predicate Reachable(m: Node, off: nat, count: nat) {
    forall p: nat :: off <= p < off + count && p / BLOCK < |m.refs| ==> m.refs[p / BLOCK] != 0
  }

  lemma ReachMore(m: Node, off: nat, count: nat, b: nat, o: nat, more: nat)
    requires Reachable(m, off, count) && BLOCK * b + o == off + count && o + more <= BLOCK
    requires b < |m.refs| && m.refs[b] != 0
    ensures Reachable(m, off, count + more)
  {
    forall p: nat | off + count <= p < off + count + more ensures p / BLOCK == b { InBlock(p, b, p - BLOCK * b); }
  }

  lemma ReachStops(m: Node, off: nat, count: nat, b: nat, o: nat, all: nat)
    requires BLOCK * b + o == off + count && o < BLOCK && count < all && b < |m.refs| && m.refs[b] == 0
    ensures !Reachable(m, off, all)
  {
    InBlock(off + count, b, o);
    assert m.refs[(off + count) / BLOCK] == 0;
  }

  /** The walk of `WriteBytes` to the entry that holds the current block. */
  method Walk(d: Disk, entry0: Entry, off0: nat, ghost m: Node, ghost k0: nat, ghost p: nat)
    returns (r: Result<Entry>, off: nat, current: nat, ghost k: nat)
    requires Stored(d.table[..], m) && m.kind.File? && k0 < |m.chain|
    requires m.chain[k0] < d.table.Length && entry0 == d.table[m.chain[k0]]
    requires p < m.size && CAPACITY * k0 + off0 == p
    ensures r.Ok? && k < |m.chain| && m.chain[k] < d.table.Length && r.value == d.table[m.chain[k]]
    ensures CAPACITY * k + off == p && current < REFS && REFS * k + current < |m.refs|
    ensures BLOCK * (REFS * k + current) + off % BLOCK == p
    ensures r.value.refs[current] == m.refs[REFS * k + current]
    ensures off % BLOCK == off0 % BLOCK
  {
    hide Stored;
    HeadOf(d.table[..], m);
    var entry := entry0;
    off := off0;
    current := NeededBlocks(off + 1) - 1;
    k := k0;
    NeededForByte(off);
    while current >= REFS
      invariant k < |m.chain| && m.chain[k] < d.table.Length && entry == d.table[m.chain[k]]
      invariant current == off / BLOCK && CAPACITY * k + off == p && off % BLOCK == off0 % BLOCK
      decreases current
    {
      EntryOfByte(m, k, off, p);
      RefsFrom(d.table[..], m, k);
      if entry.next == 0 { return Err(Io), off, current, k; }
      RefsFrom(d.table[..], m, k + 1);
      entry := d.table[entry.next];
      off := off - REFS * BLOCK;
      current := current - REFS;
      k := k + 1;
    }
    EntryOfByte(m, k, off, p);
    RefsFrom(d.table[..], m, k);
    r := Ok(entry);
  }

  /** Writes `buff` at `offset` of file `n`, which is large enough for it. */
  method WriteBytes(d: Disk, n: nat, offset: nat, buff: seq<Byte>, ghost m: Node) returns (r: Result<nat>)
    requires Stored(d.table[..], m) && m.kind.File? && m.chain != [] && n == m.chain[0]
    requires offset + |buff| <= m.size && Writable(m, d.FirstData(), d.blocks.Length)
    modifies d.blocks
    ensures r.Ok? ==> r.value == |buff| && Written(m, old(d.blocks[..]), d.blocks[..], d.FirstData(), offset, buff)
    ensures r.Ok? <==> Reachable(m, offset, |buff|)
    ensures r.Err? ==> r.error.Io? && BlocksKept(m, old(d.blocks[..]), d.blocks[..])
  {
    hide Stored, Linked, Written, Reachable, BlocksKept;
    ReachNone(m, offset);
    ghost var tab, blocks := d.table[..], d.blocks[..];
    var off, count, written := offset, |buff|, 0;
    ghost var k: nat := 0;
    WrittenNone(m, blocks, d.FirstData(), offset);
    RefsFrom(tab, m, 0);
    var entry := d.table[n];
    while count > 0
      invariant 0 <= k < |m.chain| && m.chain[k] < |tab| && entry == tab[m.chain[k]]
      invariant 0 <= written <= |buff| && count == |buff| - written && off >= 0
      invariant CAPACITY * k + off == offset + written
      invariant Written(m, blocks, d.blocks[..], d.FirstData(), offset, buff[..written])
      invariant Reachable(m, offset, written)
      decreases count
    {
      var toCopy := Min(count, BLOCK - off % BLOCK);
      var found, at, current;
      found, at, current, k := Walk(d, entry, off, m, k, offset + written);
      if found.Err? { return Err(Io); }
      entry := found.value;
      off := at;
      if entry.refs[current] == 0 || entry.refs[current] == 1 {
        WrittenKeeps(m, blocks, d.blocks[..], d.FirstData(), offset, buff[..written]);
        ReachStops(m, offset, written, REFS * k + current, off % BLOCK, |buff|);
        return Err(Io);
      }
      var o, b := off % BLOCK, entry.refs[current];
      ReachMore(m, offset, written, REFS * k + current, o, toCopy);
      var data := buff[written..written + toCopy];
      WrittenOnce(m, blocks, d.blocks[..], d.FirstData(), offset, buff[..written], data, REFS * k + current, o);
      ghost var before := d.blocks[..];
      d.blocks[b] := Overwritten(d.blocks[b], o, data);
      assert d.blocks[..] == before[b := Overwritten(before[b], o, data)];
      assert buff[..written] + data == buff[..written + toCopy];
      count := count - toCopy;
      off := off + toCopy;
      written := written + toCopy;
    }
    assert buff[..written] == buff;
    return Ok(written);
  }

  lemma ReachNone(m: Node, off: nat)
    ensures Reachable(m, off, 0)
  {}

  lemma NeededForByte(off: nat)
    ensures NeededBlocks(off + 1) - 1 == off / BLOCK
  {}

  /** Byte `p` of a file, `off` bytes after the start of its k-th entry. */
  lemma EntryOfByte(m: Node, k: nat, off: nat, p: nat)
    requires p < m.size && |m.refs| == NeededBlocks(m.size) && p == CAPACITY * k + off
    ensures REFS * k + off / BLOCK < |m.refs|
    ensures BLOCK * (REFS * k + off / BLOCK) + off % BLOCK == p
    ensures off / BLOCK >= REFS ==> |m.refs| - REFS * k > REFS && off >= CAPACITY
    ensures (off - CAPACITY) / BLOCK == off / BLOCK - REFS && (off - CAPACITY) % BLOCK == off % BLOCK
  {}

  // ----- the whole write -----

  /** What a write makes of a file: the data at its place, the old bytes around it. Bytes between the
      old end and the data are what their block happened to hold. */
  ghost predicate Wrote(m: Node, blocks: seq<Block>, m': Node, blocks': seq<Block>, offset: nat, buff: seq<Byte>) {
    && Readable(m, |blocks|) && Readable(m', |blocks'|)
    && forall p :: 0 <= p < m'.size && (offset <= p < offset + |buff| || p < m.size) ==>
         Contents(m', blocks')[p] == if offset <= p < offset + |buff| then buff[p - offset] else Contents(m, blocks)[p]
  }

  /** Every other file is as it was, byte for byte. */
  ghost predicate OthersKept(fs: FS, blocks: seq<Block>, fs': FS, blocks': seq<Block>, n: nat) {
    forall h :: h in fs && h != n && fs[h].kind.File? ==>
      && h in fs' && fs'[h] == fs[h] && Readable(fs[h], |blocks|) && Readable(fs[h], |blocks'|)
      && Contents(fs[h], blocks') == Contents(fs[h], blocks)
  }

  lemma SafeKeepsRefs(seen: Table, m: Node, m': Node, end: nat, truncate: bool, lo: nat, hi: nat, j: nat)
    requires m.kind.File? && |m.refs| == NeededBlocks(m.size)
    requires ResizedTo(seen, m, m', end, truncate, lo, hi) && SafeResize(m.size, end, truncate)
    requires j < |m.refs| && j < |m'.refs|
    ensures m'.refs[j] == m.refs[j]
  {}

  lemma WroteAt(seen: Table, m: Node, m': Node, end: nat, truncate: bool, lo: nat, hi: nat, blocks: seq<Block>, p: nat)
    requires m.kind.File? && Readable(m, |blocks|) && Readable(m', |blocks|)
    requires ResizedTo(seen, m, m', end, truncate, lo, hi) && SafeResize(m.size, end, truncate)
    requires p < m.size && p < m'.size
    ensures Contents(m', blocks)[p] == Contents(m, blocks)[p]
  {
    BlockOf(m.size, p);
    BlockOf(m'.size, p);
    hide ResizedTo, SafeResize;
    SafeKeepsRefs(seen, m, m', end, truncate, lo, hi, p / BLOCK);
  }

  lemma WroteAll(seen: Table, m: Node, m': Node, truncate: bool, lo: nat, hi: nat,
                 blocks: seq<Block>, blocks': seq<Block>, offset: nat, buff: seq<Byte>)
    requires m.kind.File? && Readable(m, |blocks|) && |blocks| == hi
    requires ResizedTo(seen, m, m', offset + |buff|, truncate, lo, hi) && SafeResize(m.size, offset + |buff|, truncate)
    requires Writable(m', lo, hi) && Intact(m') && Written(m', blocks, blocks', lo, offset, buff)
    ensures Wrote(m, blocks, m', blocks', offset, buff)
  {
    hide ResizedTo, SafeResize, Contents;
    IntactReadable(m', lo, hi);
    forall p | 0 <= p < m'.size && (offset <= p < offset + |buff| || p < m.size)
      ensures Contents(m', blocks')[p]
        == if offset <= p < offset + |buff| then buff[p - offset] else Contents(m, blocks)[p]
    {
      if p < m.size { WroteAt(seen, m, m', offset + |buff|, truncate, lo, hi, blocks, p); }
    }
  }

  lemma OthersUntouched(fs: FS, n: nat, m': Node, lo: nat, hi: nat, blocks: seq<Block>, blocks': seq<Block>)
    requires BlocksOk(fs[n := m'], lo, hi) && m'.kind.File? && |blocks| == |blocks'| == hi
    requires forall h :: h in fs && fs[h].kind.File? ==> |fs[h].refs| == NeededBlocks(fs[h].size)
    requires forall b :: 0 <= b < |blocks| && b !in m'.refs ==> blocks'[b] == blocks[b]
    ensures OthersKept(fs, blocks, fs[n := m'], blocks', n)
  {
    var fs' := fs[n := m'];
    forall h | h in fs && h != n && fs[h].kind.File?
      ensures Readable(fs[h], hi) && Contents(fs[h], blocks') == Contents(fs[h], blocks)
    {
      BlocksReadable(fs', h, lo, hi);
      forall p | 0 <= p < fs[h].size ensures Contents(fs[h], blocks')[p] == Contents(fs[h], blocks)[p] {
        BlockOf(fs[h].size, p);
        var b := fs[h].refs[p / BLOCK];
        assert UsesBlock(fs', h, b) && !UsesBlock(fs', n, b);
      }
    }
  }

  /** `fs'` is `fs` after a write ending at byte `end` to file `n`. */
  ghost predicate Grew(fs: FS, fs': FS, n: nat, end: nat, truncate: bool) {
    && n in fs && n in fs' && fs[n].kind.File?
    && fs' == fs[n := fs'[n]]
    && fs'[n].kind.File? && fs'[n].name == fs[n].name && fs'[n].parent == fs[n].parent
    && fs'[n].size == NewSize(fs[n].size, end, truncate)
  }

  lemma ResizeGrew(seen: Table, fs: FS, n: nat, m': Node, end: nat, truncate: bool, lo: nat, hi: nat)
    requires n in fs && fs[n].kind.File? && ResizedTo(seen, fs[n], m', end, truncate, lo, hi)
    requires forall j :: 0 <= j < |m'.refs| ==> m'.refs[j] == 0 || lo <= m'.refs[j] < hi
    ensures Grew(fs, fs[n := m'], n, end, truncate)
    ensures end <= m'.size && m'.kind.File? && Writable(m', lo, hi)
    ensures |fs[n].refs| < |m'.refs| ==> fs[n].refs <= m'.refs
  {}

  lemma SafeIntact(fs: FS, n: nat, lo: nat, hi: nat)
    requires BlocksOk(fs, lo, hi) && n in fs && fs[n].kind.File? && lo > 0
    ensures Intact(fs[n]) && forall j :: 0 <= j < |fs[n].refs| ==> lo <= fs[n].refs[j] < hi
  {
    BlocksReadable(fs, n, lo, hi);
  }

  lemma AllWellSized(tab: Table, fs: FS)
    requires Represents(tab, fs)
    ensures forall h :: h in fs && fs[h].kind.File? ==> |fs[h].refs| == NeededBlocks(fs[h].size)
  {
    forall h | h in fs && fs[h].kind.File? ensures |fs[h].refs| == NeededBlocks(fs[h].size) {
      HeadStored(tab, fs, h);
    }
  }

  /** What a write to file `n` comes to: the data stored and all else kept, if the blocks of all files are still
      in order, which they are exactly when the resize was safe. The tree is as well formed as it was. */
  ghost predicate Outcome(fs: FS, blocks: seq<Block>, fs': FS, blocks': seq<Block>, n: nat, lo: nat, hi: nat,
                          offset: nat, buff: seq<Byte>, truncate: bool) {
    && Grew(fs, fs', n, offset + |buff|, truncate)
    && (BlocksOk(fs', lo, hi) <==> SafeResize(fs[n].size, offset + |buff|, truncate))
    && (TreeOk(fs', {}) <==> TreeOk(fs, {}))
    && (BlocksOk(fs', lo, hi) ==>
         Wrote(fs[n], blocks, fs'[n], blocks', offset, buff) && OthersKept(fs, blocks, fs', blocks', n))
  }

  /** What a write leaves of the chain: one name and one time throughout, and blocks taken in order. */
  ghost predicate ChainKept(tab: Table, tab': Table, fs: FS, m: Node, m': Node, lo: nat, now: nat) {
    && GrowsInOrder(tab, tab', fs, m, m', lo)
    && (|m.refs| < |m'.refs| ==> m.refs <= m'.refs)
    && (SameNames(tab, m) ==> SameNames(tab', m'))
    && forall k :: 0 <= k < |m'.chain| ==> m'.chain[k] < |tab'| && tab'[m'.chain[k]].time == now
  }

  lemma StoreOutcome(seen: Table, tab: Table, fs: FS, n: nat, m': Node, truncate: bool, lo: nat, hi: nat,
                     blocks: seq<Block>, blocks': seq<Block>, offset: nat, buff: seq<Byte>)
    requires BlocksOk(fs, lo, hi) && n in fs && fs[n].kind.File? && n != 0 && lo > 0 && |blocks| == hi
    requires Represents(tab, fs)
    requires ResizedTo(seen, fs[n], m', offset + |buff|, truncate, lo, hi)
    requires forall j :: 0 <= j < |m'.refs| ==> m'.refs[j] == 0 || lo <= m'.refs[j] < hi
    requires BlocksOk(fs[n := m'], lo, hi) <==> SafeResize(fs[n].size, offset + |buff|, truncate)
    requires Written(m', blocks, blocks', lo, offset, buff)
    ensures Outcome(fs, blocks, fs[n := m'], blocks', n, lo, hi, offset, buff, truncate)
  {
    hide TreeOk, BlocksOk, SafeResize, Represents, Wrote, OthersKept, Grew;
    assert m'.kind.File? && m'.name == fs[n].name && m'.parent == fs[n].parent;
    assert |m'.refs| == NeededBlocks(m'.size);
    ResizeGrew(seen, fs, n, m', offset + |buff|, truncate, lo, hi);
    hide ResizedTo;
    FileSame(fs, n, m');
    if BlocksOk(fs[n := m'], lo, hi) {
      AllWellSized(tab, fs);
      BlocksReadable(fs, n, lo, hi);
      SafeIntact(fs[n := m'], n, lo, hi);
      WroteAll(seen, fs[n], m', truncate, lo, hi, blocks, blocks', offset, buff);
      OthersUntouched(fs, n, m', lo, hi, blocks, blocks');
    }
  }

  /** Data of at least one byte runs into the reference that was cleared, and nothing else stops it. */
  lemma ResizeReach(seen: Table, m: Node, m': Node, truncate: bool, lo: nat, hi: nat, offset: nat, count: nat)
    requires ResizedTo(seen, m, m', offset + count, truncate, lo, hi) && |m.refs| == NeededBlocks(m.size)
    requires lo > 0 && forall j :: 0 <= j < |m.refs| ==> m.refs[j] >= lo
    ensures Reachable(m', offset, count) <==> count == 0 || !LosesLast(m.size, offset + count, truncate)
    ensures LosesLast(m.size, offset + count, truncate) ==> !SafeResize(m.size, offset + count, truncate)
  {
    hide SameEntry, RefersOutside;
    var end, last := offset + count, |m'.refs| - 1;
    if count > 0 && LosesLast(m.size, end, truncate) {
      assert m'.size == end && m'.refs[last] == 0;
      LastByte(end);
      assert m'.refs[(end - 1) / BLOCK] == 0;
    }
    if !LosesLast(m.size, end, truncate) {
      forall j | 0 <= j < |m'.refs| ensures m'.refs[j] != 0 {}
    }
  }

  lemma LastByte(end: nat)
    requires end > 0
    ensures (end - 1) / BLOCK == NeededBlocks(end) - 1
  {}

  // ----- what a failing write leaves alone -----

  /** Every other file and directory is stored as it was, with the bytes it had. */
  ghost predicate Spared(tab': Table, fs: FS, blocks: seq<Block>, blocks': seq<Block>, n: nat) {
    OthersStored(tab', fs, n) && OthersKept(fs, blocks, fs, blocks', n)
  }

  lemma OthersRepresented(tab: Table, fs: FS, n: nat, m: Node)
    requires Represents(tab, fs[n := m])
    ensures OthersStored(tab, fs, n)
  {
    hide Stored;
    var fs' := fs[n := m];
    assert forall h :: h in fs && h != n ==> h in fs' && fs'[h] == fs[h];
  }

  /** Writing to blocks of the file alone, or to none, leaves the bytes of others alone. */
  lemma OthersApart(fs: FS, n: nat, m: Node, lo: nat, hi: nat, blocks: seq<Block>, blocks': seq<Block>)
    requires BlocksOk(fs, lo, hi) && n in fs && fs[n].kind.File? && lo > 0 && |blocks| == hi
    requires forall h :: h in fs && fs[h].kind.File? ==> |fs[h].refs| == NeededBlocks(fs[h].size)
    requires BlocksKept(m, blocks, blocks') && forall b :: b in m.refs ==> b == 0 || b in fs[n].refs
    ensures OthersKept(fs, blocks, fs, blocks', n)
  {
    hide Contents;
    forall b | 0 <= b < |blocks| && b !in (fs[n].refs + [0]) ensures blocks'[b] == blocks[b] { assert b !in m.refs; }
    forall h | h in fs && h != n && fs[h].kind.File?
      ensures Readable(fs[h], hi) && Contents(fs[h], blocks') == Contents(fs[h], blocks)
    {
      BlocksReadable(fs, h, lo, hi);
      OtherApart(fs, n, h, lo, hi, blocks, blocks');
    }
  }

  lemma OtherApart(fs: FS, n: nat, h: nat, lo: nat, hi: nat, blocks: seq<Block>, blocks': seq<Block>)
    requires BlocksOk(fs, lo, hi) && n in fs && fs[n].kind.File? && lo > 0 && |blocks| == |blocks'| == hi
    requires h in fs && h != n && fs[h].kind.File? && Readable(fs[h], hi)
    requires forall b :: 0 <= b < |blocks| && b !in (fs[n].refs + [0]) ==> blocks'[b] == blocks[b]
    ensures Contents(fs[h], blocks') == Contents(fs[h], blocks)
  {
    forall p | 0 <= p < fs[h].size ensures Contents(fs[h], blocks')[p] == Contents(fs[h], blocks)[p] {
      BlockOf(fs[h].size, p);
      var b := fs[h].refs[p / BLOCK];
      assert UsesBlock(fs, h, b) && !UsesBlock(fs, n, b);
    }
  }

  /** A resize that loses the last reference adds none. */
  lemma LosesOnly(seen: Table, m: Node, m': Node, end: nat, truncate: bool, lo: nat, hi: nat)
    requires ResizedTo(seen, m, m', end, truncate, lo, hi) && |m.refs| == NeededBlocks(m.size)
    requires LosesLast(m.size, end, truncate)
    ensures forall b :: b in m'.refs ==> b == 0 || b in m.refs
  {
    assert |m'.refs| <= |m.refs|;
  }

  lemma NothingWritten(m: Node, blocks: seq<Block>)
    ensures BlocksKept(m, blocks, blocks)
  {}

  /** The part of a write that stores the data in a file that exists. */
  method StoreBytes(d: Disk, n: nat, offset: nat, buff: seq<Byte>, truncate: bool, now: nat) returns (r: Result<nat>)
    requires d.Usable() && n in d.fs && d.fs[n].kind.File?
    modifies d`fs, d.table, d.blocks
    ensures r.Ok? ==> r.value == |buff| && Represents(d.table[..], d.fs)
    ensures r.Ok? ==> Outcome(old(d.fs), old(d.blocks[..]), d.fs, d.blocks[..], n, d.FirstData(), d.blocks.Length,
      offset, buff, truncate)
    ensures r.Ok? ==>
      n in d.fs && ChainKept(old(d.table[..]), d.table[..], old(d.fs), old(d.fs)[n], d.fs[n], d.FirstData(), now)
    ensures var size := NewSize(old(d.fs)[n].size, offset + |buff|, truncate);
      var room := Room(old(d.table[..]), old(d.fs), old(d.fs)[n], size, d.FirstData(), d.blocks.Length);
      var stops := buff != [] && LosesLast(old(d.fs)[n].size, offset + |buff|, truncate);
      && (r.Ok? <==> room && !stops)
      && (r.Err? ==> if room then r.error.Io? else r.error.NoSpace?)
    ensures r.Err? && r.error.Io? ==> !SafeResize(old(d.fs)[n].size, offset + |buff|, truncate)
    ensures r.Err? ==> Spared(d.table[..], old(d.fs), old(d.blocks[..]), d.blocks[..], n)
  {
    hide OthersStored, BlocksKept, Room, LosesLast, Reachable, Represents, BlocksOk, TreeOk, Stored, Linked, Padded,
      SameNames, ResizedTo, SafeResize, Wrote, Written, Writable, OthersKept, GrowsInOrder, Timed, Grew, Outcome;
    ghost var tab, fs, blocks := d.table[..], d.fs, d.blocks[..];
    ghost var lo, hi := d.FirstData(), d.blocks.Length;
    HeadStored(tab, fs, n);
    ghost var m', seen;
    var ok;
    ok, m', seen := Resize(d, n, offset + |buff|, truncate);
    AllWellSized(tab, fs);
    if ok.Err? {
      NothingWritten(fs[n], blocks);
      OthersApart(fs, n, fs[n], lo, hi, blocks, blocks);
      return Err(NoSpace);
    }
    ResizeGrew(seen, fs, n, m', offset + |buff|, truncate, lo, hi);
    ghost var tab1 := d.table[..];
    HeadStored(tab1, d.fs, n);
    if BlocksOk(d.fs, lo, hi) { SafeIntact(d.fs, n, lo, hi); }
    OldRefs(fs, n, lo, hi);
    ResizeReach(seen, fs[n], m', truncate, lo, hi, offset, |buff|);
    r := WriteBytes(d, n, offset, buff, m');
    if r.Err? {
      LosesOnly(seen, fs[n], m', offset + |buff|, truncate, lo, hi);
      OthersApart(fs, n, m', lo, hi, blocks, d.blocks[..]);
      OthersRepresented(tab1, fs, n, m');
      return;
    }
    StoreOutcome(seen, tab, fs, n, m', truncate, lo, hi, blocks, d.blocks[..], offset, buff);

    // The time of writing, in every entry of the chain
    ok := SetEntryTime(d, n, now, m');
    RepresentsTimed(tab1, d.table[..], m'.chain, now, d.fs);
    TimedChain(tab1, d.table[..], m', now);
    TimedGrows(tab, tab1, d.table[..], fs, fs[n], m', lo, now);
  }

  lemma TimedChain(tab: Table, tab': Table, m: Node, now: nat)
    requires Timed(tab, tab', m.chain, now) && Linked(tab, m)
    ensures forall k :: 0 <= k < |m.chain| ==> m.chain[k] < |tab'| && tab'[m.chain[k]].time == now
    ensures SameNames(tab, m) ==> SameNames(tab', m)
  {
    forall k | 0 <= k < |m.chain|
      ensures m.chain[k] < |tab'| && tab'[m.chain[k]].time == now && tab'[m.chain[k]].name == tab[m.chain[k]].name
    {
      LinkAt(tab, m, k);
      assert m.chain[k] in m.chain;
    }
  }

  lemma TimedGrows(tab: Table, tab1: Table, tab2: Table, fs: FS, m: Node, m': Node, lo: nat, now: nat)
    requires Timed(tab1, tab2, m'.chain, now) && GrowsInOrder(tab, tab1, fs, m, m', lo)
    ensures GrowsInOrder(tab, tab2, fs, m, m', lo)
  {}

  /** `n` is the file to write: the one of this name, or a new one at the first free entry. */
  ghost predicate Target(tab: Table, fs: FS, n: nat, parent: nat, path: string, create: bool) {
    if n in fs then IsItem(fs, n, parent, path) && fs[n].kind.File?
    else create && FirstFreeEntry(tab, n) && forall h :: !IsItem(fs, h, parent, path)
  }

  /** A new file has one name and one time throughout its chain, and its first block is the first unused one. */
  ghost predicate FreshChain(tab': Table, fs: FS, m': Node, lo: nat, now: nat) {
    && SameNames(tab', m')
    && (forall k :: 0 <= k < |m'.chain| ==> m'.chain[k] < |tab'| && tab'[m'.chain[k]].time == now)
    && (m'.size > 0 ==> Padded(tab', m'))
    && (|m'.refs| > 0 ==> FirstUnusedBlock(fs, lo, m'.refs[0]))
  }

  lemma FreshKept(tab: Table, tab': Table, fs: FS, fs': FS, n: nat, end: nat, truncate: bool, lo: nat, now: nat)
    requires Grew(fs, fs', n, end, truncate) && ChainKept(tab, tab', fs, fs[n], fs'[n], lo, now)
    requires Padded(tab, fs[n]) && SameNames(tab, fs[n]) && fs[n].size == 0 && fs[n].refs == []
    requires |fs'[n].refs| == NeededBlocks(fs'[n].size)
    ensures FreshChain(tab', fs, fs'[n], lo, now)
  {
    hide Padded, SameNames, FirstUnusedBlock;
  }

  // ----- when a write succeeds -----

  /** There is no file of this name, and none is to be made. */
  ghost predicate NoFile(fs: FS, parent: nat, path: string, create: bool) {
    if create then exists h :: IsItem(fs, h, parent, path) && fs[h].kind.Dir?
    else forall h :: IsItem(fs, h, parent, path) ==> fs[h].kind.Dir?
  }

  /** There is room for a new file of `size` bytes: as many unused blocks as entries will do. A full directory
      takes an entry more. */
  ghost predicate NewRoom(tab: Table, fs: FS, parent: nat, size: nat, lo: nat, hi: nat) {
    && ChainLen(NeededBlocks(size)) + Extra(fs, parent) <= |FreeSet(tab)|
    && (size > 0 ==> ChainLen(NeededBlocks(size)) <= |Unused(fs, lo, hi)|)
  }

  /** Bytes of a file, none if it is yet to be made. */
  ghost function SizeOf(fs: FS, n: nat): nat { if n in fs then fs[n].size else 0 }

  /** There is room for a write that ends at byte `end`. */
  ghost predicate WriteRoom(tab: Table, fs: FS, parent: nat, path: string, end: nat, truncate: bool, lo: nat, hi: nat) {
    && (forall h :: IsItem(fs, h, parent, path) ==> Room(tab, fs, fs[h], NewSize(fs[h].size, end, truncate), lo, hi))
    && ((forall h :: !IsItem(fs, h, parent, path)) ==> NewRoom(tab, fs, parent, end, lo, hi))
  }

  /** The write runs into a reference that its own resize has cleared. */
  ghost predicate WriteStops(fs: FS, parent: nat, path: string, end: nat, truncate: bool) {
    exists h :: IsItem(fs, h, parent, path) && LosesLast(fs[h].size, end, truncate)
  }

  /** What a write that fails once it has begun leaves: everything but the file it writes to is stored as it was,
      or as it is once the file has been made; or nothing at all has changed. */
  ghost predicate Halfway(tab: Table, fs: FS, blocks: seq<Block>, tab': Table, blocks': seq<Block>,
                          n: nat, f: nat, parent: nat, path: string) {
    && parent in fs
    && (if n in fs then IsItem(fs, n, parent, path) && fs[n].kind.File? else forall h :: !IsItem(fs, h, parent, path))
    && ((n !in fs && tab' == tab && blocks' == blocks)
        || Spared(tab', fs, blocks, blocks', n)
        || Spared(tab', Prepared(fs, n, f, parent, path), blocks, blocks', n))
  }

  /** A write that succeeds leaves a well-formed file system: the resize is safe, and a new file has a free slot
      in its directory and a name, in its stored form, that no item there has. */
  ghost predicate KeepsOrder(fs: FS, n: nat, parent: nat, path: string, end: nat, truncate: bool) {
    if n in fs then SafeResize(fs[n].size, end, truncate)
    else SafeResize(0, end, truncate) && Extra(fs, parent) == 0 && forall h :: !IsItem(fs, h, parent, Normal(path))
  }

  lemma NewSpread(size: nat)
    ensures Touched(0, NeededBlocks(size)) == if size > 0 then ChainLen(NeededBlocks(size)) else 0
    ensures NeededBlocks(size) > 0 <==> size > 0
    ensures forall truncate :: NewSize(0, size, truncate) == size && !LosesLast(0, size, truncate)
  {}

  lemma NothingLeftover(tab: Table, m: Node, count: nat, b: nat)
    requires Padded(tab, m) && b > 0
    ensures !Leftover(tab, m, count, b)
  {
    forall j: nat | |m.refs| <= j ensures SlotLeft(tab, m, count, j) == 0 {
      if j / REFS < |m.chain| { assert |m.refs| <= REFS * (j / REFS) + j % REFS; }
    }
  }

  lemma PlacedChains(fs: FS, n: nat, m: Node)
    requires n !in fs && m.parent in fs && m.parent != n && m.chain == [n] && m.refs == [] && fs[m.parent].kind.Dir?
    ensures SameChains(fs, Placed(fs, n, m), n) && SameBlocks(fs, Placed(fs, n, m), n)
    ensures ChainOf(fs, n) == [] && ChainOf(Placed(fs, n, m), n) == [n]
    ensures BlocksOf(fs, n) == [] && BlocksOf(Placed(fs, n, m), n) == []
  {
    hide Placed;
    forall h: nat
      ensures h in Placed(fs, n, m) <==> h in fs || h == n
      ensures h in fs ==> Placed(fs, n, m)[h].chain == fs[h].chain && Placed(fs, n, m)[h].kind == fs[h].kind
      ensures h in fs && fs[h].kind.File? ==> Placed(fs, n, m)[h].refs == fs[h].refs
    {
      PlacedAt(fs, n, m, h);
    }
    PlacedAt(fs, n, m, n);
  }

  /** Once the empty file is made, what it needs to grow is what a new file needs beyond its first entry. */
  lemma NewRoomIs(tab: Table, tab1: Table, fs: FS, fs1: FS, parent: nat, m: Node, end: nat, truncate: bool,
                  lo: nat, hi: nat)
    requires parent in fs && m.kind.File? && |m.chain| == 1 && m.refs == [] && m.size == 0 && Padded(tab1, m) && lo > 0
    requires |FreeSet(tab)| == |FreeSet(tab1)| + 1 + Extra(fs, parent)
    requires |Unused(fs1, lo, hi)| == |Unused(fs, lo, hi)|
    ensures Room(tab1, fs1, m, NewSize(0, end, truncate), lo, hi) <==> NewRoom(tab, fs, parent, end, lo, hi)
    ensures !LosesLast(0, end, truncate)
  {
    hide FreeSet, Unused, Leftover, Touched, NeededBlocks, ChainLen, LosesLast, NewSize, Padded, Extra;
    NewSpread(end);
    forall b | b in Unused(fs1, lo, hi) ensures !Leftover(tab1, m, NeededBlocks(end), b) {
      if b == 0 { NotBelow(fs1, lo, hi, b); }
      NothingLeftover(tab1, m, NeededBlocks(end), b);
    }
    if |Unused(fs1, lo, hi)| > 0 { var b :| b in Unused(fs1, lo, hi); }
    if end > 0 { assert ChainLen(NeededBlocks(end)) >= 1; }
  }

  /** What a write that succeeds comes to, for the file it was to write or a new one. */
  ghost predicate Saved(tab: Table, fs: FS, blocks: seq<Block>, tab': Table, fs': FS, blocks': seq<Block>,
                        n: nat, f: nat, parent: nat, path: string, offset: nat, buff: seq<Byte>, create: bool,
                        truncate: bool, lo: nat, now: nat) {
    && parent in fs && Represents(tab', fs') && Target(tab, fs, n, parent, path, create)
    && Outcome(Prepared(fs, n, f, parent, path), blocks, fs', blocks', n, lo, |blocks|, offset, buff, truncate)
    && (WellFormed(fs', lo, |blocks|) <==> KeepsOrder(fs, n, parent, path, offset + |buff|, truncate))
    && n in fs'
    && if n in fs then ChainKept(tab, tab', fs, fs[n], fs'[n], lo, now)
       else FreshChain(tab', Prepared(fs, n, f, parent, path), fs'[n], lo, now)
  }

  /** Whether a write up to byte `end` succeeds, and how it fails. */
  ghost predicate Answered(r: Result<nat>, tab: Table, fs: FS, n: nat, parent: nat, path: string, end: nat, some: bool,
                           create: bool, truncate: bool, lo: nat, hi: nat) {
    var room := WriteRoom(tab, fs, parent, path, end, truncate, lo, hi);
    var stops := some && WriteStops(fs, parent, path, end, truncate);
    && (r.Ok? <==> !NoFile(fs, parent, path, create) && room && !stops)
    && (r.Err? ==>
         if NoFile(fs, parent, path, create) then r.error.NotFound? else if room then r.error.Io? else r.error.NoSpace?)
    && (r.Err? && r.error.Io? ==> Target(tab, fs, n, parent, path, create) && !SafeResize(SizeOf(fs, n), end, truncate))
  }

  /** Writes `buff` at `offset` of a file, creating or truncating it if asked to. A name that is not in
      its stored form is looked up as typed, but the file is created under the stored form. */
  method WriteFile(d: Disk, parent: nat, path: string, offset: nat, buff: seq<Byte>, create: bool, truncate: bool,
                   now: nat)
    returns (r: Result<nat>, ghost n: nat, ghost f: nat)
    requires parent in d.fs && d.fs[parent].kind.Dir? && d.Valid()
    modifies d`fs, d.table, d.blocks
    ensures r.Ok? ==> r.value == |buff| && Saved(old(d.table[..]), old(d.fs), old(d.blocks[..]), d.table[..], d.fs,
      d.blocks[..], n, f, parent, path, offset, buff, create, truncate, d.FirstData(), now)
    ensures Answered(r, old(d.table[..]), old(d.fs), n, parent, path, offset + |buff|, buff != [], create, truncate,
      d.FirstData(), d.blocks.Length)
    ensures r.Err? && !r.error.NotFound? ==>
      Halfway(old(d.table[..]), old(d.fs), old(d.blocks[..]), d.table[..], d.blocks[..], n, f, parent, path)
    ensures r.Err? && r.error.NotFound? ==>
      d.fs == old(d.fs) && d.table[..] == old(d.table[..]) && d.blocks[..] == old(d.blocks[..])
  {
    hide Represents, BlocksOk, TreeOk, Stored, Linked, Placed, Padded, SameNames, ChainKept, Outcome, FreshChain, Grew,
      SafeResize, Spared, NoFile, WriteRoom, NewRoom, WriteStops, Room, LosesLast, FreeSet, Unused, Extra, Listing;
    ghost var fs, lo, hi := d.fs, d.FirstData(), d.blocks.Length;
    n, f := 0, 0;
    var found := Lookup(d, parent, path);
    if found.Err? { NotThere(d.table[..], fs, parent, path, create, offset + |buff|, truncate, lo, hi); }
    if found.Err? && !create { return Err(NotFound), n, f; }
    if found.Ok? {
      n := found.value;
      NamedOnce(d, n, parent, path);
      ThereOnce(d.table[..], fs, n, parent, path, create, offset + |buff|, truncate, lo, hi);
      HeadStored(d.table[..], fs, n);
      if d.table[found.value].kind.Dir? { return Err(NotFound), n, f; }
      ValidUsable(d);
      r := StoreBytes(d, found.value, offset, buff, truncate, now);
      if r.Ok? { OutcomeValid(fs, d.fs, n, lo, hi, offset, buff, truncate, old(d.blocks[..]), d.blocks[..]); }
    } else {
      ghost var tab := d.table[..];
      var created;
      created, f := CreateFile(d, parent, path);
      if created.Err? {
        NoEntryLeft(tab, fs, parent, offset + |buff|, lo, hi);
        n := NothingMade(tab, fs, d.table[..], d.fs, old(d.blocks[..]), d.blocks[..], f, parent, path, lo, hi);
        return created, n, f;
      }
      n := created.value;
      ghost var tab1, fs1 := d.table[..], d.fs;
      NewRoomIs(tab, tab1, fs, fs1, parent, d.fs[n], offset + |buff|, truncate, lo, hi);
      r := StoreBytes(d, created.value, offset, buff, truncate, now);
      if r.Ok? {
        OutcomeGrew(fs1, d.fs, n, d.FirstData(), d.blocks.Length, offset, buff, truncate, old(d.blocks[..]),
          d.blocks[..]);
        HeadStored(d.table[..], d.fs, n);
        FreshKept(tab1, d.table[..], fs1, d.fs, n, offset + |buff|, truncate, d.FirstData(), now);
        OutcomeValid(fs1, d.fs, n, lo, hi, offset, buff, truncate, old(d.blocks[..]), d.blocks[..]);
      }
    }
  }

  /** A creation that fails has changed nothing, or has left an entry that is not listed. */
  lemma NothingMade(tab: Table, fs: FS, tab': Table, fs': FS, blocks: seq<Block>, blocks': seq<Block>, f: nat,
                    parent: nat, path: string, lo: nat, hi: nat) returns (n: nat)
    requires Represents(tab, fs) && Represents(tab', fs') && parent in fs && blocks' == blocks && |blocks| == hi
    requires BlocksOk(fs, lo, hi) && lo > 0 && forall h :: !IsItem(fs, h, parent, path)
    requires if FreeSet(tab) == {} then fs' == fs && tab' == tab else LooseFile(tab, fs, fs', parent, path)
    ensures Halfway(tab, fs, blocks, tab', blocks', n, f, parent, path) && n !in fs
  {
    hide Represents, BlocksOk, FreeSet, Prepared, Contents, Stored, FirstFreeEntry;
    if FreeSet(tab) == {} {
      n := |tab|;
      BehindTable(tab, fs);
    } else {
      n :| n !in fs && fs' == fs[n := NewNode(File, Normal(path), parent, n)];
      OthersRepresented(tab', fs, n, NewNode(File, Normal(path), parent, n));
      AllWellSized(tab, fs);
      OthersSame(fs, n, lo, hi, blocks);
    }
  }

  lemma OthersSame(fs: FS, n: nat, lo: nat, hi: nat, blocks: seq<Block>)
    requires BlocksOk(fs, lo, hi) && |blocks| == hi
    requires forall h :: h in fs && fs[h].kind.File? ==> |fs[h].refs| == NeededBlocks(fs[h].size)
    ensures OthersKept(fs, blocks, fs, blocks, n)
  {
    hide Contents;
    forall h | h in fs && h != n && fs[h].kind.File? ensures Readable(fs[h], |blocks|) {
      BlocksReadable(fs, h, lo, hi);
    }
  }

  lemma OutcomeValid(fs: FS, fs': FS, n: nat, lo: nat, hi: nat, offset: nat, buff: seq<Byte>, truncate: bool,
                     blocks: seq<Block>, blocks': seq<Block>)
    requires Outcome(fs, blocks, fs', blocks', n, lo, hi, offset, buff, truncate)
    ensures n in fs
    ensures WellFormed(fs', lo, hi) <==> TreeOk(fs, {}) && SafeResize(fs[n].size, offset + |buff|, truncate)
  {
    hide TreeOk, BlocksOk, SafeResize;
  }

  lemma BehindTable(tab: Table, fs: FS)
    requires Represents(tab, fs)
    ensures |tab| !in fs
  {
    if |tab| in fs { HeadStored(tab, fs, |tab|); }
  }

  lemma ThereOnce(tab: Table, fs: FS, n: nat, parent: nat, path: string, create: bool, end: nat, truncate: bool,
                  lo: nat, hi: nat)
    requires IsItem(fs, n, parent, path) && forall h :: IsItem(fs, h, parent, path) ==> h == n
    ensures NoFile(fs, parent, path, create) <==> fs[n].kind.Dir?
    ensures WriteRoom(tab, fs, parent, path, end, truncate, lo, hi) <==>
      Room(tab, fs, fs[n], NewSize(fs[n].size, end, truncate), lo, hi)
    ensures WriteStops(fs, parent, path, end, truncate) <==> LosesLast(fs[n].size, end, truncate)
  {
    hide Room, LosesLast, NewRoom;
  }

  lemma NotThere(tab: Table, fs: FS, parent: nat, path: string, create: bool, end: nat, truncate: bool, lo: nat,
                 hi: nat)
    requires forall h :: !IsItem(fs, h, parent, path)
    ensures NoFile(fs, parent, path, create) <==> !create
    ensures WriteRoom(tab, fs, parent, path, end, truncate, lo, hi) <==> NewRoom(tab, fs, parent, end, lo, hi)
    ensures !WriteStops(fs, parent, path, end, truncate)
  {
    hide Room, LosesLast, NewRoom;
  }

  lemma NoEntryLeft(tab: Table, fs: FS, parent: nat, size: nat, lo: nat, hi: nat)
    requires |FreeSet(tab)| <= Extra(fs, parent)
    ensures !NewRoom(tab, fs, parent, size, lo, hi)
  {}

  lemma OutcomeGrew(fs: FS, fs': FS, n: nat, lo: nat, hi: nat, offset: nat, buff: seq<Byte>, truncate: bool,
                    blocks: seq<Block>, blocks': seq<Block>)
    requires Outcome(fs, blocks, fs', blocks', n, lo, hi, offset, buff, truncate)
    ensures Grew(fs, fs', n, offset + |buff|, truncate) && n in fs' && fs'[n].kind.File?
  {}
}
