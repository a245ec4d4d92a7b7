/** Growing and cutting a file of a file system. */
module Sizing {
  import opened Entries
  import opened Layout
  import opened Trees
  import opened Tables
  import opened Directories
  import opened Growth

  /** The size after a write that ends at byte `end`. */
  function NewSize(size: nat, end: nat, truncate: bool): nat {
    if size < end || (truncate && size > end) then end else size
  }

  /** The last reference that remains is cleared by mistake: a resize that adds no block ends on a positive
      multiple of 120 blocks. */
  predicate LosesLast(size: nat, end: nat, truncate: bool) {
    var cur, req := NeededBlocks(size), NeededBlocks(end);
    ((size < end && req == cur) || (truncate && size > end)) && ClearsLast(req)
  }

  /** Resizing keeps the blocks of all files in order: a growth picks at most one block per entry, and
      the last reference is not cleared. */
  predicate SafeResize(size: nat, end: nat, truncate: bool) {
    && (size < end ==> OnePerEntry(NeededBlocks(size), NeededBlocks(end)))
    && !LosesLast(size, end, truncate)
  }

  /** `m'` is file `m` brought to the size a write up to `end` gives it. The table `tab` is the one
      in which free blocks were looked for. */
  ghost predicate ResizedTo(tab: Table, m: Node, m': Node, end: nat, truncate: bool, lo: nat, hi: nat) {
    && m' == Node(m.kind, m.name, m.parent, m'.chain, NewSize(m.size, end, truncate), m'.refs)
    && |m'.refs| == NeededBlocks(m'.size)
    && (forall j :: 0 <= j < |m.refs| && j < |m'.refs| ==>
         m'.refs[j] == if m'.size != m.size && ClearsLast(|m'.refs|) && j == |m'.refs| - 1 then 0 else m.refs[j])
    && (|m'.refs| > |m.refs| ==> Picked(tab, m'.chain, m'.refs, |m.refs|, |m'.refs|, lo, hi))
  }

  lemma OthersUnused(tab: Table, fs: FS, n: nat, m: Node, b: nat)
    requires Represents(tab, fs[n := m]) && !RefersOutside(tab, m.chain, b)
    ensures forall h: nat :: h != n ==> !UsesBlock(fs, h, b)
  {
    forall h: nat | h != n && UsesBlock(fs, h, b) ensures false {
      var j :| 0 <= j < |fs[h].refs| && fs[h].refs[j] == b;
      UsedOutside(tab, fs, n, m, h, j);
    }
  }

  lemma UsedOutside(tab: Table, fs: FS, n: nat, m: Node, h: nat, j: nat)
    requires Represents(tab, fs[n := m]) && h != n && h in fs && fs[h].kind.File? && j < |fs[h].refs|
    ensures RefersOutside(tab, m.chain, fs[h].refs[j])
  {
    hide Stored;
    var fs' := fs[n := m];
    assert Stored(tab, fs'[h]) && fs'[h] == fs[h];
    var k, i := j / REFS, j % REFS;
    assert j == REFS * k + i;
    ChainEnough(tab, fs[h], j);
    RefsFrom(tab, fs[h], k);
    var e := fs[h].chain[k];
    assert e !in m.chain by {
      assert Owns(fs', h, e);
      assert !Owns(fs', n, e);
    }
    hide Represents;
    assert RefersTo(tab[e], i, fs[h].refs[j]);
  }

  lemma ChainEnough(tab: Table, m: Node, j: nat)
    requires Stored(tab, m) && j < |m.refs|
    ensures j / REFS < |m.chain|
  {}

  lemma ResizedUnsafe(tab: Table, fs: FS, n: nat, m': Node, end: nat, truncate: bool, lo: nat, hi: nat)
    requires BlocksOk(fs, lo, hi) && n in fs && fs[n].kind.File? && |fs[n].refs| == NeededBlocks(fs[n].size) && lo > 0
    requires ResizedTo(tab, fs[n], m', end, truncate, lo, hi)
    requires !SafeResize(fs[n].size, end, truncate)
    ensures !BlocksOk(fs[n := m'], lo, hi)
  {
    var m, fs' := fs[n], fs[n := m'];
    var cur, req := |m.refs|, |m'.refs|;
    if m.size < end && !OnePerEntry(cur, req) {
      assert !ClearsLast(req) || req > cur;
      PickedDistinct(tab, m'.chain, m'.refs, cur, lo, hi);
      assert fs'[n].kind.File? && fs'[n] == m';
    } else {
      assert m'.refs[req - 1] == 0;
      assert UsesBlock(fs', n, 0);
    }
  }

  lemma ResizedSafe(tab: Table, fs: FS, n: nat, m2: Node, m': Node, end: nat, truncate: bool, lo: nat, hi: nat)
    requires BlocksOk(fs, lo, hi) && n in fs && fs[n].kind.File? && |fs[n].refs| == NeededBlocks(fs[n].size)
    requires Represents(tab, fs[n := m2]) && m2.chain == m'.chain
    requires ResizedTo(tab, fs[n], m', end, truncate, lo, hi)
    requires SafeResize(fs[n].size, end, truncate)
    ensures BlocksOk(fs[n := m'], lo, hi)
  {
    var m, fs' := fs[n], fs[n := m'];
    var cur, req := |m.refs|, |m'.refs|;
    assert forall j :: 0 <= j < cur && j < req ==> m'.refs[j] == m.refs[j];
    if req > cur {
      assert m'.refs[..cur] == m.refs;
      PickedDistinct(tab, m'.chain, m'.refs, cur, lo, hi);
    }
    forall b: nat | b in m'.refs
      ensures lo <= b < hi && forall h: nat :: h != n ==> !UsesBlock(fs, h, b)
    {
      var j :| 0 <= j < req && m'.refs[j] == b;
      if j < cur {
        assert UsesBlock(fs, n, b);
      } else {
        OthersUnused(tab, fs, n, m2, b);
      }
    }
    hide Represents, ResizedTo, Picked;
    forall h: nat, b: nat | UsesBlock(fs', h, b)
      ensures lo <= b < hi && if h == n then b in m'.refs else UsesBlock(fs, h, b)
    {
      if h != n { assert UsesBlock(fs, h, b); }
    }
  }

  lemma FittedRepresents(tab: Table, tab2: Table, fs: FS, n: nat, m2: Node, end: nat)
    requires Represents(tab, fs) && n in fs && Fitted(tab, tab2, fs[n], m2, end)
    ensures Represents(tab2, fs[n := m2]) && Stored(tab2, m2) && m2.chain != [] && m2.chain[0] == n
    ensures |m2.refs| == RefCount(m2.kind, end) && m2.kind == fs[n].kind
  {
    hide Stored, Represents, Linked;
    HeadOf(tab2, m2);
    HeadStored(tab, fs, n);
    var c, c' := fs[n].chain, m2.chain;
    forall e | e in c' && e !in c ensures e < |tab| && tab[e].kind.Free? {
      var k :| 0 <= k < |c'| && c'[k] == e;
      assert IsFree(tab, c'[k]);
    }
    forall e | e in c && e !in c' ensures e < |tab2| && tab2[e].kind.Free? {
      var k :| 0 <= k < |c| && c[k] == e;
      assert tab2[c[k]] == ZeroEntry();
    }
    Replaced(tab, tab2, fs, n, m2);
  }

  lemma PickedRepresents(tab2: Table, tab3: Table, fs: FS, n: nat, m2: Node, m3: Node)
    requires Represents(tab2, fs[n := m2]) && SameButRefs(tab2, tab3, m2.chain)
    requires Stored(tab3, m3) && m3.chain == m2.chain
    ensures Represents(tab3, fs[n := m3])
  {
    hide Stored, Represents;
    HeadStored(tab2, fs[n := m2], n);
    Replaced(tab2, tab3, fs[n := m2], n, m3);
    assert fs[n := m2][n := m3] == fs[n := m3];
  }

  lemma GrownTo(tab: Table, tab2: Table, m: Node, m2: Node, m3: Node, end: nat, truncate: bool, lo: nat, hi: nat)
    requires m.kind.File? && |m.refs| == NeededBlocks(m.size) && m.size < end
    requires Fitted(tab, tab2, m, m2, end) && |m2.refs| == NeededBlocks(end)
    requires m3 == WithRefs(m2, m3.refs) && |m3.refs| == |m2.refs| && |m.refs| <= |m2.refs|
    requires m3.refs[..|m.refs|] == m2.refs[..|m.refs|]
    requires Picked(tab2, m2.chain, m3.refs, |m.refs|, |m3.refs|, lo, hi)
    ensures ResizedTo(tab2, m, m3, end, truncate, lo, hi)
  {
    hide Stored, Rechained, Picked, SameNames, Padded;
    forall j | 0 <= j < |m.refs| ensures m3.refs[j] == m2.refs[j] {
      assert m3.refs[..|m.refs|][j] == m2.refs[..|m.refs|][j];
    }
  }

  lemma CutTo(tab: Table, tab2: Table, m: Node, m2: Node, end: nat, lo: nat, hi: nat)
    requires m.kind.File? && |m.refs| == NeededBlocks(m.size) && m.size > end
    requires Fitted(tab, tab2, m, m2, end) && |m2.refs| == NeededBlocks(end)
    ensures ResizedTo(tab2, m, m2, end, true, lo, hi)
  {
    hide Stored, Rechained, SameNames, Padded;
  }

  lemma ResizeOutcome(tab: Table, fs: FS, n: nat, m2: Node, m': Node, end: nat, truncate: bool, lo: nat, hi: nat)
    requires BlocksOk(fs, lo, hi) && lo > 0 && n in fs && fs[n].kind.File? && |fs[n].refs| == NeededBlocks(fs[n].size)
    requires Represents(tab, fs[n := m2]) && m2.chain == m'.chain
    requires ResizedTo(tab, fs[n], m', end, truncate, lo, hi)
    ensures BlocksOk(fs[n := m'], lo, hi) <==> SafeResize(fs[n].size, end, truncate)
    ensures forall j :: 0 <= j < |m'.refs| ==> m'.refs[j] == 0 || lo <= m'.refs[j] < hi
  {
    hide BlocksOk, Represents, SafeResize;
    if SafeResize(fs[n].size, end, truncate) {
      ResizedSafe(tab, fs, n, m2, m', end, truncate, lo, hi);
    } else {
      ResizedUnsafe(tab, fs, n, m', end, truncate, lo, hi);
    }
    OldRefs(fs, n, lo, hi);
  }

  lemma OldRefs(fs: FS, n: nat, lo: nat, hi: nat)
    requires BlocksOk(fs, lo, hi) && n in fs && fs[n].kind.File?
    ensures forall j :: 0 <= j < |fs[n].refs| ==> lo <= fs[n].refs[j] < hi
  {
    forall j | 0 <= j < |fs[n].refs| ensures lo <= fs[n].refs[j] < hi { assert UsesBlock(fs, n, fs[n].refs[j]); }
  }

  /** The first data block that no file uses. */
  ghost predicate FirstUnusedBlock(fs: FS, lo: nat, b: nat) {
    !InUse(fs, b) && forall c: nat :: lo <= c < b ==> InUse(fs, c)
  }

  /** When no slot holds an old reference, the block picked first is the first unused one. */
  lemma PickedFirst(seen: Table, fs: FS, n: nat, m2: Node, lo: nat, hi: nat, b: nat)
    requires Represents(seen, fs[n := m2]) && n in fs && fs[n].kind.File? && m2.kind.File? && lo > 0
    requires |fs[n].refs| <= |m2.refs| && m2.refs[..|fs[n].refs|] == fs[n].refs
    requires forall j :: |fs[n].refs| <= j < |m2.refs| ==> m2.refs[j] == 0
    requires FirstFree(seen, lo, hi, b)
    ensures FirstUnusedBlock(fs, lo, b)
  {
    hide Represents, Referenced;
    forall c: nat | c >= lo ensures Referenced(seen, c) <==> InUse(fs, c) {
      ReferencedMeaning(seen, fs[n := m2], c);
      SameInUse(fs, n, m2, c);
    }
    forall c: nat | lo <= c < b ensures InUse(fs, c) { assert Referenced(seen, c); }
    assert !Referenced(seen, b);
  }

  lemma SameInUse(fs: FS, n: nat, m2: Node, c: nat)
    requires n in fs && fs[n].kind.File? && m2.kind.File? && c > 0
    requires |fs[n].refs| <= |m2.refs| && m2.refs[..|fs[n].refs|] == fs[n].refs
    requires forall j :: |fs[n].refs| <= j < |m2.refs| ==> m2.refs[j] == 0
    ensures InUse(fs[n := m2], c) <==> InUse(fs, c)
  {
    if InUse(fs[n := m2], c) {
      var h: nat :| UsesBlock(fs[n := m2], h, c);
      if h == n { UsedBefore(fs[n], m2, c); }
      assert UsesBlock(fs, h, c);
    }
    if InUse(fs, c) {
      var h: nat :| UsesBlock(fs, h, c);
      if h == n {
        var j :| 0 <= j < |fs[n].refs| && fs[n].refs[j] == c;
        assert m2.refs[..|fs[n].refs|][j] == m2.refs[j];
      }
      assert UsesBlock(fs[n := m2], h, c);
    }
  }

  lemma UsedBefore(m: Node, m2: Node, c: nat)
    requires |m.refs| <= |m2.refs| && m2.refs[..|m.refs|] == m.refs && c > 0 && c in m2.refs
    requires forall j :: |m.refs| <= j < |m2.refs| ==> m2.refs[j] == 0
    ensures c in m.refs
  {
    var j :| 0 <= j < |m2.refs| && m2.refs[j] == c;
    assert m2.refs[..|m.refs|][j] == c;
  }

  /** Growing a file with no old references left in its slots leaves none, and takes blocks in order. */
  ghost predicate GrowsInOrder(tab: Table, tab': Table, fs: FS, m: Node, m': Node, lo: nat) {
    Padded(tab, m) && m.size < m'.size ==>
      && Padded(tab', m')
      && (|m'.refs| > |m.refs| ==> FirstUnusedBlock(fs, lo, m'.refs[|m.refs|]))
  }

  lemma GrownInOrder(tab: Table, seen: Table, tab': Table, fs: FS, n: nat, m2: Node, m': Node, lo: nat, hi: nat)
    requires n in fs && fs[n].kind.File? && lo > 0 && Fitted(tab, seen, fs[n], m2, m'.size)
    requires Represents(seen, fs[n := m2])
    requires m' == WithRefs(m2, m'.refs) && |m'.refs| == |m2.refs| && |fs[n].refs| <= |m'.refs|
    requires SameTail(seen, tab', m2.chain, |m2.refs|)
    requires |m'.refs| > |fs[n].refs| ==> FirstFree(seen, lo, hi, m'.refs[|fs[n].refs|])
    ensures GrowsInOrder(tab, tab', fs, fs[n], m', lo)
  {
    var m := fs[n];
    hide Represents, Stored, Padded, Rechained, SameTail, FirstFree, FirstUnusedBlock;
    if Padded(tab, m) && m.size < m'.size {
      SameTailPadded(seen, tab', m2, m');
      if |m'.refs| > |m.refs| {
        if ClearsLast(|m2.refs|) { assert |m2.refs| - 1 >= |m.refs|; }
        assert m2.refs[..|m.refs|] == m.refs;
        PickedFirst(seen, fs, n, m2, lo, hi, m'.refs[|m.refs|]);
      }
    }
  }

  // ----- when there is room -----

  /** Data blocks that no file uses. */
  ghost function Unused(fs: FS, lo: nat, hi: nat): set<nat> { set b: nat | lo <= b < hi && !InUse(fs, b) }

  /** Block `b` is named in a slot that a growth of `m` to `count` references is about to fill. */
  ghost predicate Leftover(tab: Table, m: Node, count: nat, b: nat) {
    exists j: nat :: |m.refs| <= j < count && SlotLeft(tab, m, count, j) == b
  }

  /** There are blocks for the references that `m` is short of: to begin with an unused one that is not named
      in a slot to be filled; from the next entry of the chain on any unused block will do. */
  ghost predicate BlocksFor(tab: Table, fs: FS, m: Node, req: nat, lo: nat, hi: nat) {
    req > |m.refs| ==>
      && Touched(|m.refs|, req) <= |Unused(fs, lo, hi)|
      && exists b :: b in Unused(fs, lo, hi) && !Leftover(tab, m, req, b)
  }

  /** There is room to bring `m` to `size` bytes: entries for the chain, and blocks. */
  ghost predicate Room(tab: Table, fs: FS, m: Node, size: nat, lo: nat, hi: nat) {
    ChainLen(NeededBlocks(size)) <= |m.chain| + |FreeSet(tab)| && BlocksFor(tab, fs, m, NeededBlocks(size), lo, hi)
  }

  function BlocksOf(fs: FS, n: nat): seq<nat> { if n in fs && fs[n].kind.File? then fs[n].refs else [] }

  ghost predicate SameBlocks(fs: FS, fs': FS, n: nat) {
    forall h: nat, b: nat :: h != n ==> (UsesBlock(fs, h, b) <==> UsesBlock(fs', h, b))
  }

  lemma BlockCount(fs: FS, n: nat, lo: nat, hi: nat)
    requires BlocksOk(fs, lo, hi)
    ensures |Unused(fs, lo, hi) + Elems(BlocksOf(fs, n))| == |Unused(fs, lo, hi)| + |BlocksOf(fs, n)|
    ensures forall b: nat :: b in Unused(fs, lo, hi) || b in BlocksOf(fs, n) <==>
      lo <= b < hi && forall h: nat :: h != n ==> !UsesBlock(fs, h, b)
  {
    ElemsCount(BlocksOf(fs, n));
    assert forall b: nat :: b in BlocksOf(fs, n) <==> UsesBlock(fs, n, b);
    forall b | b in BlocksOf(fs, n) ensures b !in Unused(fs, lo, hi) { assert UsesBlock(fs, n, b); }
  }

  /** Blocks are neither lost nor made: what one file gains or loses, the unused blocks lose or gain. */
  lemma BlocksConserved(fs: FS, fs': FS, n: nat, lo: nat, hi: nat)
    requires BlocksOk(fs, lo, hi) && BlocksOk(fs', lo, hi) && SameBlocks(fs, fs', n)
    ensures |Unused(fs, lo, hi)| + |BlocksOf(fs, n)| == |Unused(fs', lo, hi)| + |BlocksOf(fs', n)|
  {
    hide BlocksOk, Unused, BlocksOf;
    BlockCount(fs, n, lo, hi);
    BlockCount(fs', n, lo, hi);
    assert Unused(fs, lo, hi) + Elems(BlocksOf(fs, n)) == Unused(fs', lo, hi) + Elems(BlocksOf(fs', n));
  }

  lemma UsedByOthers(seen: Table, fs: FS, n: nat, m2: Node, b: nat)
    requires Represents(seen, fs[n := m2]) && n in fs && m2.kind.File?
    ensures RefersOutside(seen, m2.chain, b) <==> exists h: nat :: h != n && UsesBlock(fs, h, b)
  {
    hide Represents, RefersTo;
    if e, i :| 0 <= e < |seen| && e !in m2.chain && RefersTo(seen[e], i, b) {
      RefersIndex(seen[e], i, b);
      var h := ReferredOwned(seen, fs[n := m2], e, i, b);
      assert UsesBlock(fs, h, b);
    }
    if h: nat :| h != n && UsesBlock(fs, h, b) {
      var j :| 0 <= j < |fs[h].refs| && fs[h].refs[j] == b;
      UsedOutside(seen, fs, n, m2, h, j);
    }
  }

  /** What the search can find for a growing file is what no file uses. */
  lemma UntakenUnused(seen: Table, fs: FS, n: nat, m2: Node, lo: nat, hi: nat)
    requires Represents(seen, fs[n := m2]) && n in fs && fs[n].kind.File? && m2.kind.File?
    requires |fs[n].refs| <= |m2.refs| && m2.refs[..|fs[n].refs|] == fs[n].refs
    ensures Untaken(seen, m2.chain, m2.refs[..|fs[n].refs|], lo, hi) == Unused(fs, lo, hi)
  {
    hide Represents, RefersOutside;
    forall b: nat | lo <= b < hi
      ensures InUse(fs, b) <==> RefersOutside(seen, m2.chain, b) || b in fs[n].refs
    {
      UsedByOthers(seen, fs, n, m2, b);
      if b in fs[n].refs { assert UsesBlock(fs, n, b); }
    }
  }

  /** Later entries of a growing chain have nothing in their slots. */
  lemma LaterEmpty(tab: Table, m: Node, refs: seq<nat>, x: nat, b: nat)
    requires |m.chain| == ChainLen(|m.refs|) && |m.refs| < x <= |refs| && x % REFS == 0
    requires forall j: nat :: |m.refs| <= j < |refs| ==> refs[j] == SlotLeft(tab, m, |refs|, j)
    requires b in refs[x..]
    ensures b == 0
  {
    var j :| 0 <= j < |refs| - x && refs[x..][j] == b;
    assert refs[x + j] == b;
    assert (x + j) / REFS >= ChainLen(|m.refs|);
  }

  lemma FirstLeft(tab: Table, m: Node, refs: seq<nat>, b: nat)
    requires |m.refs| <= |refs|
    requires forall j: nat :: |m.refs| <= j < |refs| ==> refs[j] == SlotLeft(tab, m, |refs|, j)
    ensures b in refs[|m.refs|..] <==> Leftover(tab, m, |refs|, b)
  {
    hide SlotLeft;
    var cur := |m.refs|;
    if b in refs[cur..] {
      var j :| 0 <= j < |refs| - cur && refs[cur..][j] == b;
      assert SlotLeft(tab, m, |refs|, cur + j) == b;
    }
    if j: nat :| cur <= j < |refs| && SlotLeft(tab, m, |refs|, j) == b {
      assert refs[cur..][j-cur] == b;
    }
  }

  /** The entry boundary at which the most blocks have been picked. */
  lemma LastBoundary(cur: nat, req: nat, x: nat)
    requires cur < req
    ensures Touched(cur, req) > 1 ==>
      var last := (req - 1) / REFS * REFS;
      cur < last < req && last % REFS == 0 && Touched(cur, last) == Touched(cur, req) - 1
    ensures cur < x < req && x % REFS == 0 ==> Touched(cur, x) < Touched(cur, req)
    ensures Touched(cur, cur) == 0 && Touched(cur, req) >= 1
  {}

  /** The blocks to be found at the first reference of each entry. */
  lemma FreeAt(tab: Table, free: set<nat>, m: Node, refs: seq<nat>, x: nat)
    requires |m.chain| == ChainLen(|m.refs|) && |m.refs| <= x < |refs| && 0 !in free
    requires x == |m.refs| || x % REFS == 0
    requires forall j: nat :: |m.refs| <= j < |refs| ==> refs[j] == SlotLeft(tab, m, |refs|, j)
    ensures x > |m.refs| ==> free - Elems(refs[x..]) == free && Touched(|m.refs|, x) < Touched(|m.refs|, |refs|)
    ensures x == |m.refs| ==> Touched(|m.refs|, x) == 0
    ensures x == |m.refs| ==> (free - Elems(refs[x..]) != {} <==> exists b :: b in free && !Leftover(tab, m, |refs|, b))
  {
    hide SlotLeft, Touched, Leftover, ChainLen;
    LastBoundary(|m.refs|, |refs|, x);
    if x > |m.refs| {
      forall b | b in refs[x..] ensures b == 0 { LaterEmpty(tab, m, refs, x, b); }
    } else {
      forall b | b in free ensures b in free - Elems(refs[x..]) <==> !Leftover(tab, m, |refs|, b) {
        FirstLeft(tab, m, refs, b);
      }
    }
  }

  /** The picking succeeds exactly when there is room for it. */
  lemma RoomToPick(tab: Table, free: set<nat>, m: Node, refs: seq<nat>)
    requires |m.chain| == ChainLen(|m.refs|) && |m.refs| < |refs| && 0 !in free
    requires forall j: nat :: |m.refs| <= j < |refs| ==> refs[j] == SlotLeft(tab, m, |refs|, j)
    ensures CanPick(free, refs, |m.refs|, |refs|) <==>
      Touched(|m.refs|, |refs|) <= |free| && exists b :: b in free && !Leftover(tab, m, |refs|, b)
  {
    hide SlotLeft, Touched, Leftover, ChainLen, CanPick, Elems;
    var cur, req := |m.refs|, |refs|;
    LastBoundary(cur, req, cur);
    FreeAt(tab, free, m, refs, cur);
    if CanPick(free, refs, cur, req) {
      var last := (req - 1) / REFS * REFS;
      PickSteps(free, refs, cur, last);
      if Touched(cur, req) > 1 { FreeAt(tab, free, m, refs, last); }
    }
    if Touched(cur, req) <= |free| && exists b :: b in free && !Leftover(tab, m, req, b) {
      forall x | cur <= x < req && (x == cur || x % REFS == 0) ensures Touched(cur, x) < |free - Elems(refs[x..])| {
        FreeAt(tab, free, m, refs, x);
      }
      AllSteps(free, refs, cur);
    }
  }

  lemma AllSteps(free: set<nat>, refs: seq<nat>, from: nat)
    requires forall x {:trigger Touched(from, x)} :: from <= x < |refs| && (x == from || x % REFS == 0) ==>
      Touched(from, x) < |free - Elems(refs[x..])|
    ensures CanPick(free, refs, from, |refs|)
  {
    hide Touched, Elems;
  }

  lemma PickSteps(free: set<nat>, refs: seq<nat>, from: nat, x: nat)
    requires from < |refs| && CanPick(free, refs, from, |refs|)
    ensures free - Elems(refs[from..]) != {}
    ensures from < x < |refs| && x % REFS == 0 ==> Touched(from, x) < |free - Elems(refs[x..])|
  {
    hide Touched;
    assert Touched(from, from) < |free - Elems(refs[from..])| by { TouchedNone(from); }
    var t := Touched(from, x);
  }

  lemma GrowRoom(tab: Table, seen: Table, fs: FS, n: nat, m2: Node, end: nat, lo: nat, hi: nat)
    requires n in fs && fs[n].kind.File? && WellSized(fs[n]) && fs[n].size < end && lo > 0
    requires Fitted(tab, seen, fs[n], m2, end) && |m2.refs| == NeededBlocks(end) >= |fs[n].refs|
    requires Represents(seen, fs[n := m2])
    ensures CanPick(Untaken(seen, m2.chain, m2.refs[..|fs[n].refs|], lo, hi), m2.refs, |fs[n].refs|, |m2.refs|)
      <==> BlocksFor(tab, fs, fs[n], NeededBlocks(end), lo, hi)
  {
    hide Represents, Stored, Rechained, SameNames, Padded, CanPick, Untaken, Unused, Touched, Leftover, SlotLeft,
      NeededBlocks;
    var m := fs[n];
    if |m2.refs| > |m.refs| {
      assert m2.refs[..|m.refs|] == m.refs;
      UntakenUnused(seen, fs, n, m2, lo, hi);
      assert 0 !in Unused(fs, lo, hi) by { NotBelow(fs, lo, hi, 0); }
      RoomToPick(tab, Unused(fs, lo, hi), m, m2.refs);
    } else {
      CanPickNone(Untaken(seen, m2.chain, m2.refs[..|m.refs|], lo, hi), m2.refs, |m.refs|);
    }
  }

  lemma NotBelow(fs: FS, lo: nat, hi: nat, b: nat)
    requires b < lo
    ensures b !in Unused(fs, lo, hi)
  {}

  /** The resize of a write that ends at byte `end`: grow the file, or cut it. */
  method Resize(d: Disk, n: nat, end: nat, truncate: bool) returns (r: Result<()>, ghost m': Node, ghost seen: Table)
    requires Represents(d.table[..], d.fs) && n in d.fs && d.fs[n].kind.File? && 0 in d.fs
    requires BlocksOk(d.fs, d.FirstData(), d.blocks.Length)
    modifies d`fs, d.table
    ensures r.Ok? ==>
      && Represents(d.table[..], d.fs) && d.fs == old(d.fs)[n := m']
      && ResizedTo(seen, old(d.fs)[n], m', end, truncate, d.FirstData(), d.blocks.Length)
      && (forall j :: 0 <= j < |m'.refs| ==> m'.refs[j] == 0 || d.FirstData() <= m'.refs[j] < d.blocks.Length)
      && (BlocksOk(d.fs, d.FirstData(), d.blocks.Length) <==> SafeResize(old(d.fs)[n].size, end, truncate))
      && GrowsInOrder(old(d.table[..]), d.table[..], old(d.fs), old(d.fs)[n], m', d.FirstData())
      && (SameNames(old(d.table[..]), old(d.fs)[n]) ==> SameNames(d.table[..], m'))
    ensures r.Ok? <==> Room(old(d.table[..]), old(d.fs), old(d.fs)[n], NewSize(old(d.fs)[n].size, end, truncate),
      d.FirstData(), d.blocks.Length)
    ensures r.Err? ==> r.error.NoSpace? && d.fs == old(d.fs) && OthersStored(d.table[..], d.fs, n)
    ensures r.Err? && FreeSet(d.table[..]) != {} ==>
      forall b :: d.FirstData() <= b < d.blocks.Length ==> Referenced(d.table[..], b)
  {
    hide Represents, BlocksOk, Stored, Linked, Fitted, Picked, SameButRefs, SameTail, ResizedTo, NeededBlocks,
      SameNames, Padded, GrowsInOrder, KeepsOthers, OthersStored, BlocksFor, CanPick, Untaken, FreeSet, Referenced,
      ChainLen;
    ghost var tab, fs, m := d.table[..], d.fs, d.fs[n];
    HeadStored(tab, fs, n);
    RootInUse(tab, fs);
    HeadOf(tab, m);
    var entry := d.table[n];
    ghost var m2 := m;
    m' := m;
    seen := tab;
    if entry.size < end {
      var current, required := NeededBlocks(entry.size), NeededBlocks(end);
      r, m2 := Fit(d, n, end, m);
      if r.Err? {
        OthersStay(tab, d.table[..], fs, n);
        return;
      }
      seen := d.table[..];
      FittedRepresents(tab, seen, fs, n, m2, end);
      NeededMore(entry.size, end);
      GrowRoom(tab, seen, fs, n, m2, end, d.FirstData(), d.blocks.Length);
      r, m' := PickBlocks(d, n, current, required, m2);
      if r.Err? {
        PickedKeeps(tab, seen, d.table[..], m, m2, end);
        OthersStay(tab, d.table[..], fs, n);
        return;
      }
      PickedRepresents(seen, d.table[..], fs, n, m2, m');
      GrownTo(tab, seen, m, m2, m', end, truncate, d.FirstData(), d.blocks.Length);
      FittedNames(tab, seen, m, m2, end);
      GrownInOrder(tab, seen, d.table[..], fs, n, m2, m', d.FirstData(), d.blocks.Length);
      PickedNames(seen, d.table[..], m2, m');
    } else if entry.size > end && truncate {
      r, m2 := Fit(d, n, end, m);
      FewerBlocks(tab, fs, m, end, d.FirstData(), d.blocks.Length);
      if r.Err? { return; }
      m' := m2;
      seen := d.table[..];
      FittedRepresents(tab, seen, fs, n, m2, end);
      CutTo(tab, seen, m, m2, end, d.FirstData(), d.blocks.Length);
      FittedNames(tab, seen, m, m2, end);
    } else {
      assert fs[n := m] == fs;
      FewerBlocks(tab, fs, m, entry.size, d.FirstData(), d.blocks.Length);
      Unresized(tab, m, end, truncate, d.FirstData(), d.blocks.Length);
    }
    d.fs := fs[n := m'];
    NotGrown(tab, d.table[..], fs, m, m', d.FirstData());
    ResizeOutcome(seen, fs, n, m2, m', end, truncate, d.FirstData(), d.blocks.Length);
    r := Ok(());
  }

  lemma PickedKeeps(tab: Table, tab2: Table, tab3: Table, m: Node, m2: Node, size: nat)
    requires Fitted(tab, tab2, m, m2, size) && SameButRefs(tab2, tab3, m2.chain)
    ensures KeepsOthers(tab, tab3, m.chain)
  {
    hide Stored, SameNames, Padded, SlotLeft;
    forall k | 0 <= k < |m2.chain| ensures m2.chain[k] in m.chain || IsFree(tab, m2.chain[k]) {
      if k < |m.chain| { assert m2.chain[k] == m.chain[k]; }
    }
  }

  lemma FewerBlocks(tab: Table, fs: FS, m: Node, size: nat, lo: nat, hi: nat)
    requires m.kind.File? && WellSized(m) && size <= m.size
    ensures BlocksFor(tab, fs, m, NeededBlocks(size), lo, hi)
    ensures ChainLen(NeededBlocks(size)) <= |m.chain|
  {}

  lemma NeededMore(size: nat, end: nat)
    requires size < end
    ensures NeededBlocks(size) <= NeededBlocks(end)
  {}

  lemma Unresized(tab: Table, m: Node, end: nat, truncate: bool, lo: nat, hi: nat)
    requires |m.refs| == NeededBlocks(m.size) && NewSize(m.size, end, truncate) == m.size
    ensures ResizedTo(tab, m, m, end, truncate, lo, hi)
  {}

  lemma NotGrown(tab: Table, tab': Table, fs: FS, m: Node, m': Node, lo: nat)
    ensures m.size >= m'.size ==> GrowsInOrder(tab, tab', fs, m, m', lo)
  {}

  lemma FittedNames(tab: Table, tab2: Table, m: Node, m2: Node, end: nat)
    requires Fitted(tab, tab2, m, m2, end)
    ensures SameNames(tab, m) ==> SameNames(tab2, m2)
    ensures m2 == Node(m.kind, m.name, m.parent, m2.chain, end, m2.refs)
  {}

  lemma PickedNames(tab2: Table, tab3: Table, m2: Node, m3: Node)
    requires SameButRefs(tab2, tab3, m2.chain) && m3.chain == m2.chain && m3.name == m2.name
    ensures SameNames(tab2, m2) ==> SameNames(tab3, m3)
  {
    if SameNames(tab2, m2) {
      forall k | 0 <= k < |m3.chain| ensures m3.chain[k] < |tab3| && tab3[m3.chain[k]].name == m3.name {
        assert tab2[m2.chain[k]].name == m2.name;
      }
    }
  }
}
