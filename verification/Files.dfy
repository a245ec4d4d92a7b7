/** Reading and writing files. */
module Files {
  import opened Entries
  import opened Layout
  import opened Trees
  import opened Tables
  import opened Directories

  // ----- contents -----

  /** The blocks of `m` are there to hold its bytes. */
  ghost predicate Readable(m: Node, count: nat) {
    && |m.refs| == NeededBlocks(m.size)
    && forall j :: 0 <= j < |m.refs| ==> m.refs[j] < count
  }

  /** Byte `p` of a file lies in block `p / 512` at `p % 512`. */
  ghost function ByteAt(m: Node, blocks: seq<Block>, p: nat): Byte
    requires Readable(m, |blocks|) && p < m.size
  {
    BlockOf(m.size, p);
    blocks[m.refs[p / BLOCK]][p % BLOCK]
  }

  lemma BlockOf(size: nat, p: nat)
    requires p < size
    ensures p / BLOCK < NeededBlocks(size)
  {}

  /** The bytes of a file. */
  ghost function Contents(m: Node, blocks: seq<Block>): (bytes: seq<Byte>)
    requires Readable(m, |blocks|)
    ensures |bytes| == m.size
  {
    seq(m.size, p requires 0 <= p < m.size => ByteAt(m, blocks, p))
  }

  lemma InBlock(p: nat, b: nat, o: nat)
    requires p == BLOCK * b + o && o < BLOCK
    ensures p / BLOCK == b && p % BLOCK == o
  {}

  lemma ByteIn(m: Node, blocks: seq<Block>, b: nat, o: nat)
    requires Readable(m, |blocks|) && o < BLOCK && BLOCK * b + o < m.size
    ensures b < |m.refs| && m.refs[b] < |blocks|
    ensures Contents(m, blocks)[BLOCK * b + o] == blocks[m.refs[b]][o]
  {
    InBlock(BLOCK * b + o, b, o);
    BlockOf(m.size, BLOCK * b + o);
  }

  /** A piece of a file that stays within one block. */
  lemma ChunkAt(m: Node, blocks: seq<Block>, b: nat, o: nat, n: nat)
    requires Readable(m, |blocks|) && o + n <= BLOCK && BLOCK * b + o + n <= m.size && n > 0
    ensures b < |m.refs| && m.refs[b] < |blocks|
    ensures Contents(m, blocks)[BLOCK * b + o..BLOCK * b + o + n] == blocks[m.refs[b]][o..o+n]
  {
    hide Contents, Readable;
    ByteIn(m, blocks, b, o);
    var piece := Contents(m, blocks)[BLOCK * b + o..BLOCK * b + o + n];
    forall i | 0 <= i < n ensures piece[i] == blocks[m.refs[b]][o..o+n][i] {
      ByteIn(m, blocks, b, o + i);
    }
  }

  lemma BlocksReadable(fs: FS, n: nat, lo: nat, hi: nat)
    requires BlocksOk(fs, lo, hi) && n in fs && fs[n].kind.File?
    ensures NoDup(fs[n].refs)
    ensures forall j :: 0 <= j < |fs[n].refs| ==> lo <= fs[n].refs[j] < hi
  {
    forall j | 0 <= j < |fs[n].refs| ensures lo <= fs[n].refs[j] < hi { assert UsesBlock(fs, n, fs[n].refs[j]); }
  }

  lemma FileReadable(d: Disk, n: nat)
    requires d.Valid() && n in d.fs && d.fs[n].kind.File?
    ensures Stored(d.table[..], d.fs[n]) && Linked(d.table[..], d.fs[n]) && d.fs[n].chain != [] && d.fs[n].chain[0] == n
    ensures n < d.table.Length && d.table[n].size == d.fs[n].size && d.table[n].kind.File?
    ensures Readable(d.fs[n], d.blocks.Length)
  {
    hide TreeOk, Stored, Linked;
    HeadStored(d.table[..], d.fs, n);
    HeadOf(d.table[..], d.fs[n]);
    BlocksReadable(d.fs, n, d.FirstData(), d.blocks.Length);
  }

  /** Reference `j` of a chain sits in entry `j / 120` at `j % 120`. */
  lemma RefAt(tab: Table, m: Node, j: nat)
    requires Stored(tab, m) && j < |m.refs|
    ensures j < REFS * |m.chain| && j / REFS < |m.chain| && m.chain[j / REFS] < |tab|
    ensures tab[m.chain[j / REFS]].refs[j % REFS] == m.refs[j]
  {
    var k, i := j / REFS, j % REFS;
    assert j == REFS * k + i;
    assert tab[m.chain[k]].refs[i] == m.refs[REFS * k + i];
  }

  /** How a file lies on the disk: as many blocks as its bytes need and as many entries as its blocks need, linked in
      both directions, each with the size that is left from it on. */
  lemma StoredAs(tab: Table, m: Node)
    requires Stored(tab, m) && m.kind.File?
    ensures m.size <= 512 * |m.refs| && (m.refs != [] ==> 512 * (|m.refs| - 1) < m.size)
    ensures |m.refs| <= 120 * |m.chain| && |m.chain| >= 1 && (|m.chain| > 1 ==> 120 * (|m.chain| - 1) < |m.refs|)
    ensures forall k :: 0 <= k < |m.chain| ==>
      && m.chain[k] < |tab|
      && tab[m.chain[k]].size == (if m.size < 61440 * k then 0 else m.size - 61440 * k)
      && tab[m.chain[k]].next == (if k + 1 < |m.chain| then m.chain[k + 1] else 0)
      && (k > 0 ==> tab[m.chain[k]].parent == m.chain[k - 1])
  {
    hide Holds;
    forall k | 0 <= k < |m.chain|
      ensures m.chain[k] < |tab| && tab[m.chain[k]].size == if m.size < 61440 * k then 0 else m.size - 61440 * k
    {
      assert tab[m.chain[k]].size == SizeFrom(m.kind, m.size, k);
    }
  }

  /** Where byte `p` of a file is, from its chain on. */
  lemma ByteOnDisk(tab: Table, m: Node, blocks: seq<Block>, p: nat)
    requires Stored(tab, m) && Readable(m, |blocks|) && p < m.size && m.kind.File?
    ensures p / 61440 < |m.chain| && m.chain[p / 61440] < |tab|
    ensures var b := tab[m.chain[p / 61440]].refs[p / 512 % 120];
      b < |blocks| && Contents(m, blocks)[p] == blocks[b][p % 512]
  {
    hide Stored;
    BlockOf(m.size, p);
    RefAt(tab, m, p / 512);
    assert p / 512 / 120 == p / 61440;
  }

  // ----- reading -----

  lemma ChunkOnDisk(tab: Table, m: Node, blocks: seq<Block>, b: nat, o: nat, n: nat)
    requires Stored(tab, m) && Readable(m, |blocks|) && o + n <= BLOCK && BLOCK * b + o + n <= m.size && n > 0
    ensures b < REFS * |m.chain| && b / REFS < |m.chain| && m.chain[b / REFS] < |tab|
    ensures var r := tab[m.chain[b / REFS]].refs[b % REFS];
      r < |blocks| && Contents(m, blocks)[BLOCK * b + o..BLOCK * b + o + n] == blocks[r][o..o+n]
  {
    hide Contents, Readable, Stored;
    ChunkAt(m, blocks, b, o, n);
    RefAt(tab, m, b);
  }

  lemma SliceOn(s: seq<Byte>, a: nat, b: nat, c: nat)
    requires a <= b <= c <= |s|
    ensures s[a..b] + s[b..c] == s[a..c]
  {}

  /** Reads up to `count` bytes of file `n` from `offset` on, block by block along its chain. */
  method ReadBytes(d: Disk, n: nat, offset: nat, count: nat, ghost m: Node) returns (buff: seq<Byte>)
    requires Stored(d.table[..], m) && m.chain[0] == n && m.kind.File? && Readable(m, d.blocks.Length)
    ensures buff == Piece(Contents(m, d.blocks[..]), offset, count)
    ensures |buff| == if offset >= m.size then 0 else if count < m.size - offset then count else m.size - offset
    ensures forall i :: 0 <= i < |buff| ==> buff[i] == Contents(m, d.blocks[..])[offset + i]
  {
    hide Stored, Linked, Contents, Piece, Readable;
    HeadOf(d.table[..], m);
    var entry := d.table[n];
    ghost var bytes := Contents(m, d.blocks[..]);
    ghost var start := Min(offset, m.size);
    var off := Min(offset, entry.size);
    var cnt := Min(count, entry.size - off);
    var block := off / BLOCK;
    off := off % BLOCK;
    buff := [];
    var read := 0;
    while read < cnt
      invariant 0 <= read <= cnt && |buff| == read
      invariant read < cnt ==> BLOCK * block + off == start + read && 0 <= off < BLOCK && block >= 0
      invariant buff == bytes[start..start + read]
    {
      var n' := Min(BLOCK - off, cnt - read);
      ChunkOnDisk(d.table[..], m, d.blocks[..], block, off, n');
      var at := GetNrefEntry(d, n, block, m);
      buff := buff + d.blocks[d.table[at.value].refs[block % REFS]][off..off + n'];
      SliceOn(bytes, start, start + read, start + read + n');
      read := read + n';
      block := block + 1;
      off := 0;
    }
    PieceMeaning(bytes, offset, count);
  }

  /** A read returns the piece asked for of the file of this name, or fails if there is no such file. */
  ghost predicate ReadResult(fs: FS, blocks: seq<Block>, parent: nat, name: string, offset: nat, count: nat,
                             r: Result<seq<Byte>>) {
    match r
    case Ok(bytes) => exists n ::
      && IsItem(fs, n, parent, name) && fs[n].kind.File? && Readable(fs[n], |blocks|)
      && bytes == Piece(Contents(fs[n], blocks), offset, count)
    case Err(e) => e.NotFound? && forall n :: IsItem(fs, n, parent, name) ==> fs[n].kind.Dir?
  }

  /** Reads a file by directory and name. */
  method ReadFile(d: Disk, parent: nat, name: string, offset: nat, count: nat) returns (r: Result<seq<Byte>>)
    requires d.Valid() && parent in d.fs && d.fs[parent].kind.Dir?
    ensures ReadResult(d.fs, d.blocks[..], parent, name, offset, count, r)
    ensures r.Ok? ==> exists n ::
      && IsItem(d.fs, n, parent, name) && d.fs[n].kind.File? && Readable(d.fs[n], d.blocks.Length)
      && |r.value| == (
           if offset >= d.fs[n].size then 0
           else if count < d.fs[n].size - offset then count else d.fs[n].size - offset)
      && forall i :: 0 <= i < |r.value| ==> r.value[i] == Contents(d.fs[n], d.blocks[..])[offset + i]
  {
    hide Represents, Stored, Linked, Contents, Readable, TreeOk, BlocksOk, Piece;
    var found := Lookup(d, parent, name);
    if found.Err? { return Err(NotFound); }
    HeadStored(d.table[..], d.fs, found.value);
    if d.table[found.value].kind.File? {
      FileReadable(d, found.value);
      var buff := ReadBytes(d, found.value, offset, count, d.fs[found.value]);
      return Ok(buff);
    }
    NamedOnce(d, found.value, parent, name);
    return Err(NotFound);
  }

  /** The `count` bytes from `offset` on, as far as there are any. */
  function Piece(bytes: seq<Byte>, offset: nat, count: nat): seq<Byte> {
    var lo := Min(offset, |bytes|);
    bytes[lo..lo + Min(count, |bytes| - lo)]
  }

  lemma PieceMeaning(bytes: seq<Byte>, offset: nat, count: nat)
    ensures |Piece(bytes, offset, count)| ==
      if offset >= |bytes| then 0 else if count < |bytes| - offset then count else |bytes| - offset
    ensures forall i :: 0 <= i < |Piece(bytes, offset, count)| ==> Piece(bytes, offset, count)[i] == bytes[offset + i]
    ensures var lo := Min(offset, |bytes|); Piece(bytes, offset, count) == bytes[lo..lo + Min(count, |bytes| - lo)]
  {}

  /** Two reads that adjoin give what one read of both ranges gives. */
  lemma ReadsJoin(fs: FS, blocks: seq<Block>, n: nat, parent: nat, name: string, offset: nat, a: nat, b: nat,
                  r: Result<seq<Byte>>, r': Result<seq<Byte>>, both: Result<seq<Byte>>)
    requires IsItem(fs, n, parent, name) && forall h :: IsItem(fs, h, parent, name) ==> h == n
    requires ReadResult(fs, blocks, parent, name, offset, a, r)
    requires ReadResult(fs, blocks, parent, name, offset + a, b, r')
    requires ReadResult(fs, blocks, parent, name, offset, a + b, both)
    ensures if fs[n].kind.File? then r.Ok? && r'.Ok? && both == Ok(r.value + r'.value) else both.Err?
  {
    hide Contents, Readable, Piece;
    if fs[n].kind.File? {
      var bytes := Contents(fs[n], blocks);
      PieceMeaning(bytes, offset, a);
      PieceMeaning(bytes, offset + a, b);
      PieceMeaning(bytes, offset, a + b);
      assert Piece(bytes, offset, a) + Piece(bytes, offset + a, b) == Piece(bytes, offset, a + b);
    }
  }

  lemma NamedOnce(d: Disk, h: nat, parent: nat, name: string)
    requires d.Valid() && IsItem(d.fs, h, parent, name)
    ensures forall n :: IsItem(d.fs, n, parent, name) ==> n == h
  {}
}
