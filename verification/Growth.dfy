/** Growing and cutting files: the chain, the sizes, and the blocks picked for new references. */
module Growth {
  import opened Entries
  import opened Layout
  import opened Trees
  import opened Tables

  /** The first data block that no file refers to, going by table `tab`. */
  ghost predicate FirstFree(tab: Table, lo: nat, hi: nat, b: nat) {
    && lo <= b < hi && !Referenced(tab, b)
    && forall c :: lo <= c < b ==> Referenced(tab, c)
  }

  lemma FirstFreeOnce(tab: Table, lo: nat, hi: nat, b: nat, c: nat)
    requires FirstFree(tab, lo, hi, b) && FirstFree(tab, lo, hi, c)
    ensures b == c
  {}

  /** What a stored file refers to counts as referenced. */
  lemma StoredReferenced(tab: Table, m: Node, j: nat)
    requires Stored(tab, m) && m.kind.File? && j < |m.refs|
    ensures Referenced(tab, m.refs[j])
  {
    var k, i := j / REFS, j % REFS;
    assert j == REFS * k + i;
    RefsFrom(tab, m, k);
    hide Stored;
    assert RefersTo(tab[m.chain[k]], i, m.refs[j]);
  }

  lemma ReferredOwned(tab: Table, fs: FS, e: nat, i: nat, b: nat) returns (h: nat)
    requires Represents(tab, fs) && e < |tab| && RefersTo(tab[e], i, b)
    ensures UsesBlock(fs, h, b) && Owns(fs, h, e)
  {
    h :| Owns(fs, h, e);
    var k :| 0 <= k < |fs[h].chain| && fs[h].chain[k] == e;
    RefsFrom(tab, fs[h], k);
    hide Represents, Stored;
    assert fs[h].refs[REFS * k + i] == b;
  }

  /** The block finder sees exactly the blocks of the files. */
  lemma ReferencedMeaning(tab: Table, fs: FS, b: nat)
    requires Represents(tab, fs)
    ensures Referenced(tab, b) <==> InUse(fs, b)
  {
    hide RefersTo, Stored;
    if e, i :| 0 <= e < |tab| && RefersTo(tab[e], i, b) {
      RefersIndex(tab[e], i, b);
      var h := ReferredOwned(tab, fs, e, i, b);
    }
    if h: nat :| UsesBlock(fs, h, b) {
      var j :| 0 <= j < |fs[h].refs| && fs[h].refs[j] == b;
      StoredReferenced(tab, fs[h], j);
    }
  }

  lemma RefersIndex(entry: Entry, i: int, b: nat)
    requires RefersTo(entry, i, b)
    ensures 0 <= i < REFS
  {}

  // ----- growing the chain -----

  /** `m` with its chain and references replaced and another size. */
  function Refitted(m: Node, m1: Node, size: nat): Node {
    Node(m.kind, m.name, m.parent, m1.chain, size, m1.refs)
  }

  /** After the reference count and the size are set, the chain is stored as it should be. */
  lemma SizedStored(tab1: Table, tab2: Table, m1: Node, m2: Node)
    requires Linked(tab1, m1) && Holds(tab1, m1.chain, m1.refs)
    requires SizesSet(tab1, tab2, m1, m2.size, |m1.chain|)
    requires m2 == Node(m1.kind, m1.name, m1.parent, m1.chain, m2.size, m1.refs)
    requires m1.kind.File? && WellSized(m2)
    ensures Stored(tab2, m2)
  {
    forall k | 0 <= k < |m1.chain|
      ensures m1.chain[k] < |tab1| && tab2[m1.chain[k]] == tab1[m1.chain[k]].(size := SizeFrom(m1.kind, m2.size, k))
    {
      LinkAt(tab1, m1, k);
    }
    hide SizeFrom;
    SizedLinked(tab1, tab2, m1, m2);
  }

  lemma SizedLinked(tab1: Table, tab2: Table, m1: Node, m2: Node)
    requires Linked(tab1, m1)
    requires SizesSet(tab1, tab2, m1, m2.size, |m1.chain|)
    requires m2 == Node(m1.kind, m1.name, m1.parent, m1.chain, m2.size, m1.refs)
    ensures Linked(tab2, m2)
  {
    forall k | 0 <= k < |m1.chain|
      ensures m1.chain[k] < |tab1| && tab2[m1.chain[k]].kind == m1.kind
      ensures tab2[m1.chain[k]].next == if k + 1 < |m1.chain| then m1.chain[k+1] else 0
      ensures k > 0 ==> tab2[m1.chain[k]].parent == m1.chain[k-1]
      ensures k == 0 ==> tab2[m1.chain[k]].parent == m1.parent && tab2[m1.chain[k]].name == m1.name
    {
      LinkAt(tab1, m1, k);
      assert tab2[m1.chain[k]] == tab1[m1.chain[k]].(size := SizeFrom(m1.kind, m2.size, k));
    }
  }

  /** All entries of the chain carry the name of the file. */
  ghost predicate SameNames(tab: Table, m: Node) {
    && (forall k :: 0 <= k < |m.chain| ==> m.chain[k] < |tab|)
    && (forall k {:trigger tab[m.chain[k]]} :: 0 <= k < |m.chain| ==> tab[m.chain[k]].name == m.name)
  }

  /** What slot `j` of the chain of `m` holds once there is room for exactly `count` references. */
  ghost function SlotLeft(tab: Table, m: Node, count: nat, j: nat): nat {
    if j / REFS < |m.chain| && m.chain[j / REFS] < |tab| && !(ClearsLast(count) && j == count - 1)
    then tab[m.chain[j / REFS]].refs[j % REFS] else 0
  }

  /** `m2` is file `m` cut or extended to `size` bytes; references beyond the old ones are not chosen yet. */
  ghost predicate Fitted(tab: Table, tab': Table, m: Node, m2: Node, size: nat) {
    && m2 == Node(m.kind, m.name, m.parent, m2.chain, size, m2.refs)
    && Stored(tab', m2)
    && Rechained(tab, tab', m.chain, m2.chain)
    && (forall j :: 0 <= j < |m.refs| && j < |m2.refs| ==>
         m2.refs[j] == if ClearsLast(|m2.refs|) && j == |m2.refs| - 1 then 0 else m.refs[j])
    && (forall j: nat :: |m.refs| <= j < |m2.refs| ==> m2.refs[j] == SlotLeft(tab, m, |m2.refs|, j))
    && (SameNames(tab, m) ==> SameNames(tab', m2))
    && (Padded(tab, m) && |m.refs| <= |m2.refs| ==>
         Padded(tab', m2) && forall j :: |m.refs| <= j < |m2.refs| ==> m2.refs[j] == 0)
  }

  lemma SizedRechained(tab: Table, tab1: Table, tab2: Table, c: seq<nat>, m1: Node, size: nat)
    requires Rechained(tab, tab1, c, m1.chain) && SizesSet(tab1, tab2, m1, size, |m1.chain|)
    requires NoDup(c)
    ensures Rechained(tab, tab2, c, m1.chain)
  {
    assert m1.chain[..|m1.chain|] == m1.chain;
    forall k | |m1.chain| <= k < |c| ensures c[k] < |tab2| && tab2[c[k]] == ZeroEntry() {
      assert c[k] !in m1.chain by {
        forall j | 0 <= j < |m1.chain| ensures m1.chain[j] != c[k] {
          assert m1.chain[j] == c[j];
        }
      }
    }
  }

  lemma ResizedNames(tab: Table, tab1: Table, tab2: Table, m: Node, m1: Node, m2: Node, count: nat)
    requires Resized(tab, tab1, m, m1, count) && SizesSet(tab1, tab2, m1, m2.size, |m1.chain|)
    requires m2.chain == m1.chain && m2.name == m.name && SameNames(tab, m)
    ensures SameNames(tab2, m2)
  {
    hide Linked, Rechained, SlotAfter;
    var c := m1.chain;
    assert m.chain != [];
    forall k | 0 <= k < |c| ensures c[k] < |tab2| && tab2[c[k]].name == m.name {
      assert tab2[m1.chain[k]] == tab1[m1.chain[k]].(size := SizeFrom(m1.kind, m2.size, k));
      if k < |m.chain| {
        assert SameTags(tab1[c[k]], tab[m.chain[k]]);
      } else {
        assert SameTags(tab1[c[k]], tab[m.chain[|m.chain| - 1]]);
      }
    }
  }

  lemma ResizedPadded(tab: Table, tab1: Table, tab2: Table, m: Node, m1: Node, m2: Node, count: nat)
    requires Resized(tab, tab1, m, m1, count) && SizesSet(tab1, tab2, m1, m2.size, |m1.chain|)
    requires m2.chain == m1.chain && m2.refs == m1.refs && Padded(tab, m) && |m.refs| <= count
    ensures Padded(tab2, m2) && forall j :: |m.refs| <= j < count ==> m2.refs[j] == 0
  {
    hide Linked, Rechained;
    var c := m1.chain;
    forall k, i | 0 <= k < |c| && 0 <= i < REFS && |m.refs| <= REFS * k + i
      ensures c[k] < |tab2| && tab2[c[k]].refs[i] == 0
    {
      assert tab2[m1.chain[k]] == tab1[m1.chain[k]].(size := SizeFrom(m1.kind, m2.size, k));
      assert tab1[c[k]].refs[i] == SlotAfter(tab, m, count, k, i);
    }
    forall j | |m.refs| <= j < count ensures m2.refs[j] == 0 {
      var k, i := j / REFS, j % REFS;
      assert j == REFS * k + i;
      assert tab1[c[k]].refs[i] == m1.refs[REFS * k + i] == SlotAfter(tab, m, count, k, i);
    }
  }

  /** The slots of new references hold what they held, but for the one that is cleared. */
  lemma ResizedLeft(tab: Table, tab1: Table, m: Node, m1: Node, count: nat)
    requires Resized(tab, tab1, m, m1, count)
    ensures forall j: nat :: |m.refs| <= j < |m1.refs| ==> m1.refs[j] == SlotLeft(tab, m, count, j)
  {
    hide Linked, Rechained;
    forall j: nat | |m.refs| <= j < count ensures m1.refs[j] == SlotLeft(tab, m, count, j) {
      var k, i := j / REFS, j % REFS;
      assert j == REFS * k + i;
      LastSlot(count, j);
      assert tab1[m1.chain[k]].refs[i] == m1.refs[REFS * k + i] == SlotAfter(tab, m, count, k, i);
    }
  }

  lemma LastSlot(count: nat, j: nat)
    requires j < count
    ensures j / REFS < ChainLen(count)
    ensures j / REFS == ChainLen(count) - 1 && j % REFS >= FirstUnused(count) <==> ClearsLast(count) && j == count - 1
  {}

  /** Cuts or extends a file to `size` bytes: reference count first, then the sizes. */
  method Fit(d: Disk, n: nat, size: nat, ghost m: Node) returns (r: Result<()>, ghost m2: Node)
    requires Stored(d.table[..], m) && m.kind.File? && n == m.chain[0] && !IsFree(d.table[..], 0)
    modifies d.table
    ensures r.Ok? ==> Fitted(old(d.table[..]), d.table[..], m, m2, size)
    ensures r.Ok? <==> ChainLen(NeededBlocks(size)) <= |m.chain| + |FreeSet(old(d.table[..]))|
    ensures r.Err? ==>
      r.error.NoSpace? && FreeSet(d.table[..]) == {} && KeepsOthers(old(d.table[..]), d.table[..], m.chain)
  {
    hide KeepsOthers, Stored, Linked, Resized, SizesSet, Rechained, Holds, Padded, SameNames, ChainLen, NeededBlocks,
      FreeSet;
    ghost var tab := d.table[..];
    HeadOf(tab, m);
    ghost var m1;
    r, m1 := SetEntryRefcount(d, n, NeededBlocks(size), m);
    m2 := m;
    if r.Err? { return; }
    ghost var tab1 := d.table[..];
    ResizedFacts(tab, tab1, m, m1, NeededBlocks(size));
    r := SetEntrySize(d, n, size, m1);
    ghost var tab2 := d.table[..];
    m2 := Refitted(m, m1, size);
    FitDone(tab, tab1, tab2, m, m1, m2);
  }

  lemma LinkedOnce(tab: Table, m: Node)
    requires Linked(tab, m)
    ensures NoDup(m.chain)
  {}

  lemma FitDone(tab: Table, tab1: Table, tab2: Table, m: Node, m1: Node, m2: Node)
    requires Stored(tab, m) && m.kind.File? && Resized(tab, tab1, m, m1, NeededBlocks(m2.size))
    requires m2 == Refitted(m, m1, m2.size) && SizesSet(tab1, tab2, m1, m2.size, |m1.chain|)
    ensures Fitted(tab, tab2, m, m2, m2.size)
  {
    hide Linked, Rechained, Refilled, Holds, SizesSet, Sized, Padded, SameNames, NeededBlocks, ChainLen, SlotLeft;
    var count := NeededBlocks(m2.size);
    RefsKept(tab, tab1, m, m1, count);
    SizedStored(tab1, tab2, m1, m2);
    assert NoDup(m.chain) by { LinkedOnce(tab, m); }
    SizedRechained(tab, tab1, tab2, m.chain, m1, m2.size);
    ResizedLeft(tab, tab1, m, m1, count);
    if SameNames(tab, m) { ResizedNames(tab, tab1, tab2, m, m1, m2, count); }
    if Padded(tab, m) && |m.refs| <= count { ResizedPadded(tab, tab1, tab2, m, m1, m2, count); }
  }

  // ----- picking blocks -----

  function WithRefs(m: Node, refs: seq<nat>): Node {
    Node(m.kind, m.name, m.parent, m.chain, m.size, refs)
  }

  /** `refs` with the part held by the k-th entry replaced. */
  function Splice(refs: seq<nat>, k: nat, part: Refs): seq<nat> {
    seq(|refs|, j requires 0 <= j < |refs| =>
      if REFS * k <= j < REFS * k + REFS then part[j - REFS * k] else refs[j])
  }

  lemma SplicedAt(tab: Table, m: Node, k: nat, part: Refs, j: nat)
    requires Linked(tab, m) && k < |m.chain| && j < |m.chain|
    ensures m.chain[k] < |tab| && m.chain[j] < |tab|
    ensures var tab' := tab[m.chain[k] := tab[m.chain[k]].(refs := part)];
      tab'[m.chain[j]] == if j == k then tab[m.chain[j]].(refs := part) else tab[m.chain[j]]
  {
    LinkAt(tab, m, j);
    LinkAt(tab, m, k);
    LinkDistinct(tab, m, j, k);
  }

  lemma SplicedHolds(tab: Table, m: Node, k: nat, part: Refs)
    requires Linked(tab, m) && Holds(tab, m.chain, m.refs) && k < |m.chain|
    ensures m.chain[k] < |tab|
    ensures Holds(tab[m.chain[k] := tab[m.chain[k]].(refs := part)], m.chain, Splice(m.refs, k, part))
  {
    LinkAt(tab, m, k);
    hide Linked;
    var tab' := tab[m.chain[k] := tab[m.chain[k]].(refs := part)];
    var c := m.chain;
    forall j, i | 0 <= j < |c| && 0 <= i < REFS && REFS * j + i < |m.refs|
      ensures tab'[c[j]].refs[i] == Splice(m.refs, k, part)[REFS * j + i]
    {
      SplicedAt(tab, m, k, part, j);
    }
  }

  lemma SplicedSized(tab: Table, m: Node, k: nat, part: Refs)
    requires Linked(tab, m) && Sized(tab, m) && k < |m.chain|
    ensures m.chain[k] < |tab|
    ensures Sized(tab[m.chain[k] := tab[m.chain[k]].(refs := part)], m)
  {
    LinkAt(tab, m, k);
    hide Linked;
    var tab' := tab[m.chain[k] := tab[m.chain[k]].(refs := part)];
    forall j | 0 <= j < |m.chain| ensures tab'[m.chain[j]].size == SizeFrom(m.kind, m.size, j) {
      SplicedAt(tab, m, k, part, j);
      assert tab[m.chain[j]].size == SizeFrom(m.kind, m.size, j);
    }
  }

  /** Writing the references of one entry of a file. */
  lemma SplicedStored(tab: Table, m: Node, k: nat, part: Refs)
    requires Stored(tab, m) && m.kind.File? && k < |m.chain|
    ensures m.chain[k] < |tab|
    ensures Stored(tab[m.chain[k] := tab[m.chain[k]].(refs := part)], WithRefs(m, Splice(m.refs, k, part)))
  {
    hide Linked, Holds, Sized;
    SplicedHolds(tab, m, k, part);
    SplicedSized(tab, m, k, part);
    LinkedRefs(tab, m, m.chain[k], part);
    var tab' := tab[m.chain[k] := tab[m.chain[k]].(refs := part)];
    var m' := WithRefs(m, Splice(m.refs, k, part));
    LinkedToo(tab', m, m');
    SizedToo(tab', m, m');
  }

  lemma SizedToo(tab: Table, m: Node, m': Node)
    requires Sized(tab, m) && m'.chain == m.chain && m'.kind == m.kind && m'.size == m.size
    ensures Sized(tab, m')
  {}

  /** Both references belong to the same entry of their chain. */
  predicate SameEntry(x: nat, y: nat) { x / REFS == y / REFS }

  /** Some entry outside the chain refers to `b`. */
  ghost predicate RefersOutside(tab: Table, c: seq<nat>, b: nat) {
    exists e, i :: 0 <= e < |tab| && e !in c && RefersTo(tab[e], i, b)
  }

  /** References `from` up to `j` of `refs` are newly picked blocks: no other file uses them, nor the
      file itself before `from`; two of them are equal exactly when they belong to one entry. */
  ghost predicate Picked(tab0: Table, c: seq<nat>, refs: seq<nat>, from: nat, j: nat, lo: nat, hi: nat) {
    && from <= j <= |refs|
    && (forall x :: from <= x < j ==> lo <= refs[x] < hi && !RefersOutside(tab0, c, refs[x]))
    && (forall x, y :: 0 <= x < from <= y < j ==> refs[x] != refs[y])
    && (forall x, y :: from <= x < y < j ==> (refs[x] == refs[y] <==> SameEntry(x, y)))
  }

  /** Tables that agree outside a chain, and on it but for references. */
  ghost predicate SameButRefs(tab: Table, tab': Table, c: seq<nat>) {
    && SameOutside(tab, tab', c, [])
    && forall e :: 0 <= e < |tab| ==> tab'[e] == tab[e].(refs := tab'[e].refs)
  }

  /** Slots from number `count` on hold what they held. */
  ghost predicate SameTail(tab: Table, tab': Table, c: seq<nat>, count: nat) {
    && (forall k :: 0 <= k < |c| ==> c[k] < |tab| && c[k] < |tab'|)
    && (forall k, i :: 0 <= k < |c| && 0 <= i < REFS && count <= REFS * k + i ==>
         tab'[c[k]].refs[i] == tab[c[k]].refs[i])
  }

  lemma SameTailOnce(tab0: Table, tab: Table, m: Node, count: nat, k: nat, part: Refs)
    requires Linked(tab, m) && SameTail(tab0, tab, m.chain, count) && k < |m.chain| && m.chain[k] < |tab|
    requires forall i :: 0 <= i < REFS && count <= REFS * k + i ==> part[i] == tab[m.chain[k]].refs[i]
    ensures SameTail(tab0, tab[m.chain[k] := tab[m.chain[k]].(refs := part)], m.chain, count)
  {
    hide Linked;
    var tab' := tab[m.chain[k] := tab[m.chain[k]].(refs := part)];
    forall j, i | 0 <= j < |m.chain| && 0 <= i < REFS && count <= REFS * j + i
      ensures tab'[m.chain[j]].refs[i] == tab0[m.chain[j]].refs[i]
    {
      SplicedAt(tab, m, k, part, j);
      assert tab[m.chain[j]].refs[i] == tab0[m.chain[j]].refs[i];
    }
  }

  lemma SameTailPadded(tab: Table, tab': Table, m: Node, m': Node)
    requires Padded(tab, m) && SameTail(tab, tab', m.chain, |m.refs|) && m'.chain == m.chain && |m'.refs| == |m.refs|
    ensures Padded(tab', m')
  {}

  /** The state of the picking loop: `g` are the references so far, `disk` those in the table, which
      has seen the new ones up to entry `k`. */
  ghost predicate Picking(tab0: Table, tab: Table, m: Node, g: seq<nat>, disk: seq<nat>, k: nat, from: nat, j: nat,
                          lo: nat, hi: nat) {
    && Stored(tab, WithRefs(m, disk)) && m.kind.File?
    && |disk| == |g| == |m.refs| && from <= j <= |g|
    && SameButRefs(tab0, tab, m.chain) && SameTail(tab0, tab, m.chain, |g|)
    && (forall x :: 0 <= x < |g| && (x < REFS * k || x >= j || x < from) ==> disk[x] == g[x])
    && (forall x :: 0 <= x < |g| && (x < from || x >= j) ==> g[x] == m.refs[x])
    && (from < j ==> j <= REFS * k + REFS)
    && (forall x, y :: from <= x < j <= y < |g| ==> g[x] != g[y])
    && Picked(tab0, m.chain, g, from, j, lo, hi)
    && (forall x :: from <= x < j && x >= REFS * k ==> FirstFree(tab, lo, hi, g[x]))
  }

  /** `part` holds the references of the k-th entry, and behind the last one what the entry holds. */
  ghost predicate PartOf(refs: Refs, g: seq<nat>, k: nat, part: Refs) {
    forall i :: 0 <= i < REFS ==> part[i] == if REFS * k + i < |g| then g[REFS * k + i] else refs[i]
  }

  lemma PickNone(tab: Table, m: Node, from: nat, lo: nat, hi: nat)
    requires Stored(tab, m) && m.kind.File? && from <= |m.refs|
    ensures Picking(tab, tab, m, m.refs, m.refs, 0, from, from, lo, hi)
  {
    assert WithRefs(m, m.refs) == m;
    HeadOf(tab, m);
    forall k | 0 <= k < |m.chain| ensures m.chain[k] < |tab| { LinkAt(tab, m, k); }
    hide Stored, Linked;
  }

  lemma PickFlush(tab0: Table, tab: Table, m: Node, g: seq<nat>, disk: seq<nat>, k: nat, from: nat, j: nat, lo: nat,
                  hi: nat, part: Refs)
    requires Picking(tab0, tab, m, g, disk, k, from, j, lo, hi)
    requires k < |m.chain| && j >= REFS * k + REFS
    requires m.chain[k] < |tab| && PartOf(tab[m.chain[k]].refs, g, k, part)
    ensures Picking(tab0, tab[m.chain[k] := tab[m.chain[k]].(refs := part)], m, g, Splice(disk, k, part), k + 1, from,
      j, lo, hi)
  {
    hide Stored, FirstFree, Picked, SameTail, Linked;
    SplicedStored(tab, WithRefs(m, disk), k, part);
    HeadOf(tab, WithRefs(m, disk));
    SameTailOnce(tab0, tab, WithRefs(m, disk), |g|, k, part);
    var disk' := Splice(disk, k, part);
    forall x | 0 <= x < |g| && (x < REFS * (k + 1) || x >= j || x < from) ensures disk'[x] == g[x] {
      if REFS * k <= x < REFS * k + REFS { assert part[x - REFS * k] == g[REFS * k + (x - REFS * k)]; }
    }
    assert m.chain[k] in m.chain;
  }

  lemma PickNext(tab0: Table, tab: Table, m: Node, g: seq<nat>, disk: seq<nat>, k: nat, from: nat, j: nat, lo: nat,
                 hi: nat)
    requires Picking(tab0, tab, m, g, disk, k, from, j, lo, hi)
    requires k < |m.chain| && REFS * k + REFS <= j < |g|
    ensures k + 1 < |m.chain| && m.chain[k] < |tab| && m.chain[k+1] < |tab|
    ensures tab[m.chain[k]].next == m.chain[k+1]
  {
    RefsFrom(tab, WithRefs(m, disk), k);
    RefsFrom(tab, WithRefs(m, disk), k + 1);
  }

  lemma PickEntry(tab0: Table, tab: Table, m: Node, g: seq<nat>, disk: seq<nat>, k: nat, from: nat, j: nat, lo: nat,
                  hi: nat)
    requires Picking(tab0, tab, m, g, disk, k, from, j, lo, hi)
    requires k < |m.chain| && REFS * k <= j
    requires from < j ==> j <= REFS * k
    ensures m.chain[k] < |tab|
    ensures PartOf(tab[m.chain[k]].refs, g, k, tab[m.chain[k]].refs)
  {
    RefsFrom(tab, WithRefs(m, disk), k);
    hide Stored;
    forall i | 0 <= i < REFS && REFS * k + i < |g| ensures tab[m.chain[k]].refs[i] == g[REFS * k + i] {
      assert disk[REFS * k + i] == g[REFS * k + i];
    }
  }

  lemma PickOne(tab0: Table, tab: Table, m: Node, g: seq<nat>, disk: seq<nat>, k: nat, from: nat, j: nat, lo: nat,
                hi: nat, b: nat)
    requires Picking(tab0, tab, m, g, disk, k, from, j, lo, hi)
    requires j < |g| && REFS * k <= j < REFS * k + REFS && FirstFree(tab, lo, hi, b)
    ensures Picking(tab0, tab, m, g[j := b], disk, k, from, j + 1, lo, hi)
  {
    hide Stored;
    var g' := g[j := b];
    assert !RefersOutside(tab0, m.chain, b) by {
      if e, i :| 0 <= e < |tab0| && e !in m.chain && RefersTo(tab0[e], i, b) {
        assert RefersTo(tab[e], i, b);
      }
    }
    forall x | 0 <= x < j ensures g[x] == b <==> x >= from && x >= REFS * k {
      if x >= from && x >= REFS * k {
        FirstFreeOnce(tab, lo, hi, g[x], b);
      } else {
        StoredReferenced(tab, WithRefs(m, disk), x);
      }
    }
    forall y | j < y < |g| ensures g[y] != b { StoredReferenced(tab, WithRefs(m, disk), y); }
    forall x | from <= x < j ensures SameEntry(x, j) <==> x >= REFS * k {
      InEntry(j, k, j - REFS * k);
      if x >= REFS * k { InEntry(x, k, x - REFS * k); }
    }
    hide FirstFree, RefersOutside, SameEntry;
  }

  lemma PickDone(tab0: Table, tab: Table, m: Node, g: seq<nat>, disk: seq<nat>, k: nat, from: nat, lo: nat, hi: nat,
                 part: Refs)
    requires Picking(tab0, tab, m, g, disk, k, from, |g|, lo, hi)
    requires k < |m.chain|
    requires m.chain[k] < |tab| && PartOf(tab[m.chain[k]].refs, g, k, part)
    ensures Stored(tab[m.chain[k] := tab[m.chain[k]].(refs := part)], WithRefs(m, g))
    ensures SameButRefs(tab0, tab[m.chain[k] := tab[m.chain[k]].(refs := part)], m.chain)
    ensures Picked(tab0, m.chain, g, from, |g|, lo, hi) && |g| == |m.refs| && g[..from] == m.refs[..from]
    ensures SameTail(tab0, tab[m.chain[k] := tab[m.chain[k]].(refs := part)], m.chain, |g|)
  {
    hide Stored, FirstFree, Picked, SameTail, Linked;
    SplicedStored(tab, WithRefs(m, disk), k, part);
    HeadOf(tab, WithRefs(m, disk));
    SameTailOnce(tab0, tab, WithRefs(m, disk), |g|, k, part);
    var disk' := Splice(disk, k, part);
    forall x | 0 <= x < |g| ensures disk'[x] == g[x] {
      if REFS * k <= x < REFS * k + REFS { assert part[x - REFS * k] == g[REFS * k + (x - REFS * k)]; }
    }
    assert disk' == g;
    assert m.chain[k] in m.chain;
  }

  /** The picking loop with its local copy `tentry` of the entry at `at`, the k-th of the chain. */
  ghost predicate PickState(tab0: Table, tab: Table, m: Node, g: seq<nat>, disk: seq<nat>, k: nat, from: nat, j: nat,
                            lo: nat, hi: nat, at: nat, tentry: Entry) {
    && Picking(tab0, tab, m, g, disk, k, from, j, lo, hi)
    && k < |m.chain| && at == m.chain[k] && at < |tab|
    && tentry == tab[at].(refs := tentry.refs) && PartOf(tab[at].refs, g, k, tentry.refs)
    && (j == from ==> tentry == tab[at] && tab == tab0)
    && (j > from ==> FirstFree(tab0, lo, hi, g[from]))
  }

  lemma StateNone(tab: Table, m: Node, from: nat, lo: nat, hi: nat)
    requires Stored(tab, m) && m.kind.File? && from <= |m.refs|
    ensures m.chain != [] && m.chain[0] < |tab|
    ensures PickState(tab, tab, m, m.refs, m.refs, 0, from, from, lo, hi, m.chain[0], tab[m.chain[0]])
  {
    hide Stored, Linked, Picking;
    PickNone(tab, m, from, lo, hi);
    HeadOf(tab, m);
    PickEntry(tab, tab, m, m.refs, m.refs, 0, from, from, lo, hi);
  }

  lemma StateFlush(tab0: Table, tab: Table, m: Node, g: seq<nat>, disk: seq<nat>, k: nat, from: nat, j: nat, lo: nat,
                   hi: nat, at: nat, tentry: Entry)
    requires PickState(tab0, tab, m, g, disk, k, from, j, lo, hi, at, tentry)
    requires REFS * k + REFS <= j < |g|
    ensures at < |tab| && tentry.next < |tab|
    ensures PickState(tab0, tab[at := tentry], m, g, Splice(disk, k, tentry.refs), k + 1, from, j, lo, hi,
      tentry.next, tab[at := tentry][tentry.next])
  {
    hide Stored, Linked, Picking, FirstFree, Splice;
    PickNext(tab0, tab, m, g, disk, k, from, j, lo, hi);
    PickFlush(tab0, tab, m, g, disk, k, from, j, lo, hi, tentry.refs);
    var tab' := tab[at := tentry];
    assert from < j ==> j <= REFS * (k + 1) by { PickBound(tab0, tab, m, g, disk, k, from, j, lo, hi); }
    PickEntry(tab0, tab', m, g, Splice(disk, k, tentry.refs), k + 1, from, j, lo, hi);
  }

  lemma PickBound(tab0: Table, tab: Table, m: Node, g: seq<nat>, disk: seq<nat>, k: nat, from: nat, j: nat, lo: nat,
                  hi: nat)
    requires Picking(tab0, tab, m, g, disk, k, from, j, lo, hi)
    ensures from < j ==> j <= REFS * k + REFS
    ensures |disk| == |g| == |m.refs| && from <= j <= |g|
  {}

  lemma StateOne(tab0: Table, tab: Table, m: Node, g: seq<nat>, disk: seq<nat>, k: nat, from: nat, j: nat, lo: nat,
                 hi: nat, at: nat, tentry: Entry, b: nat)
    requires PickState(tab0, tab, m, g, disk, k, from, j, lo, hi, at, tentry)
    requires j < |g| && REFS * k <= j < REFS * k + REFS && FirstFree(tab, lo, hi, b)
    ensures PickState(tab0, tab, m, g[j := b], disk, k, from, j + 1, lo, hi, at,
      tentry.(refs := tentry.refs[j - REFS * k := b]))
  {
    hide Stored, Linked, Picking, FirstFree;
    PickOne(tab0, tab, m, g, disk, k, from, j, lo, hi, b);
    PickBound(tab0, tab, m, g, disk, k, from, j, lo, hi);
  }

  // ----- when there are enough blocks -----

  /** Entries of a chain among which references `from` up to `count` are spread. */
  function Touched(from: nat, count: nat): nat {
    if count <= from then 0 else (count - 1) / REFS - from / REFS + 1
  }

  /** Data blocks that no other file refers to, nor the file itself in the references it keeps. */
  ghost function Untaken(tab: Table, c: seq<nat>, kept: seq<nat>, lo: nat, hi: nat): set<nat> {
    set b: nat | lo <= b < hi && !RefersOutside(tab, c, b) && b !in kept
  }

  /** References `from` up to `j` can be picked: at the first one of every entry some free block is neither
      picked already nor named in a slot that is still to be filled. */
  ghost predicate CanPick(free: set<nat>, refs: seq<nat>, from: nat, j: nat) {
    forall x {:trigger Touched(from, x)} :: from <= x < j && x <= |refs| && (x == from || x % REFS == 0) ==>
      Touched(from, x) < |free - Elems(refs[x..])|
  }

  lemma TouchedNone(from: nat)
    ensures Touched(from, from) == |Elems([])|
  {}

  lemma TouchedNext(from: nat, j: nat)
    requires from <= j
    ensures Touched(from, j + 1) == Touched(from, j) + if from < j && SameEntry(j - 1, j) then 0 else 1
    ensures from < j && !SameEntry(j - 1, j) ==> j % REFS == 0
  {}

  /** Block `j` was picked before exactly when the reference before it lies in the same entry. */
  lemma PickedAgain(g: seq<nat>, from: nat, j: nat)
    requires from <= j < |g|
    requires forall x, y :: from <= x < y <= j ==> (g[x] == g[y] <==> SameEntry(x, y))
    ensures g[j] in g[from..j] <==> from < j && SameEntry(j - 1, j)
  {
    if from < j && SameEntry(j - 1, j) {
      assert g[from..j][j-1-from] == g[j-1] == g[j];
    }
    if g[j] in g[from..j] {
      var x :| from <= x < j && g[x] == g[j];
      assert SameEntry(x, j);
      assert x / REFS <= (j - 1) / REFS <= j / REFS;
    }
  }

  /** The picked blocks are as many as the entries they are spread among. */
  lemma {:induction false} PickedCount(g: seq<nat>, from: nat, j: nat)
    requires from <= j <= |g|
    requires forall x, y :: from <= x < y < j ==> (g[x] == g[y] <==> SameEntry(x, y))
    ensures |Elems(g[from..j])| == Touched(from, j)
  {
    hide SameEntry, Touched;
    if j == from {
      TouchedNone(from);
      assert g[from..j] == [];
    } else {
      PickedCount(g, from, j - 1);
      PickedAgain(g, from, j - 1);
      TouchedNext(from, j - 1);
      assert g[from..j] == g[from..j-1] + [g[j-1]];
      ElemsMore(g[from..j-1], g[j-1]);
    }
  }

  lemma ReferencedSplit(tab0: Table, tab: Table, m: Node, b: nat)
    requires Stored(tab, m) && m.kind.File? && SameButRefs(tab0, tab, m.chain)
    ensures Referenced(tab, b) <==> RefersOutside(tab0, m.chain, b) || b in m.refs
  {
    hide Stored, Linked;
    if e, i :| 0 <= e < |tab| && RefersTo(tab[e], i, b) {
      if e in m.chain {
        var q :| 0 <= q < |m.chain| && m.chain[q] == e;
        RefsFrom(tab, m, q);
        assert m.refs[REFS * q + i] == b;
      } else {
        assert tab0[e] == tab[e];
        assert RefersTo(tab0[e], i, b);
      }
    }
    if e, i :| 0 <= e < |tab0| && e !in m.chain && RefersTo(tab0[e], i, b) {
      assert tab0[e] == tab[e];
      assert RefersTo(tab[e], i, b);
    }
    if x :| 0 <= x < |m.refs| && m.refs[x] == b { StoredReferenced(tab, m, x); }
  }

  /** When the picking comes to another entry, the table shows the references kept, those picked, and
      what is named in the slots that are still to be filled. */
  lemma DiskSplit(tab0: Table, tab: Table, m: Node, g: seq<nat>, disk: seq<nat>, k: nat, from: nat, j: nat, lo: nat,
                  hi: nat)
    requires Picking(tab0, tab, m, g, disk, k, from, j, lo, hi) && (j == from || j == REFS * k)
    ensures |g| == |m.refs| && from <= j <= |g| && disk == m.refs[..from] + g[from..j] + m.refs[j..]
  {
    hide Stored, Picked, FirstFree, SameButRefs, SameTail;
    forall x | 0 <= x < |disk| ensures disk[x] == if from <= x < j then g[x] else m.refs[x] {
      if from <= x < j { assert x < REFS * k; }
    }
  }

  lemma PickedApart(tab0: Table, tab: Table, m: Node, g: seq<nat>, disk: seq<nat>, k: nat, from: nat, j: nat, lo: nat,
                    hi: nat)
    requires Picking(tab0, tab, m, g, disk, k, from, j, lo, hi)
    ensures from <= j <= |g| == |m.refs|
    ensures Elems(g[from..j]) <= Untaken(tab0, m.chain, m.refs[..from], lo, hi) - Elems(m.refs[j..])
    ensures |Elems(g[from..j])| == Touched(from, j)
  {
    hide Stored, FirstFree, SameButRefs, SameTail, RefersOutside;
    PickedCount(g, from, j);
    forall b | b in g[from..j] ensures b in Untaken(tab0, m.chain, m.refs[..from], lo, hi) && b !in m.refs[j..] {
      var x :| from <= x < j && g[x] == b;
      forall y | 0 <= y < from ensures m.refs[..from][y] != b { assert g[y] != g[x]; }
      forall y | 0 <= y < |g| - j ensures m.refs[j..][y] != b { assert g[x] != g[j+y]; }
    }
  }

  /** There is a block to be found at the first reference of an entry exactly when the free ones are not
      all picked already or named in a slot still to be filled. */
  lemma BlockLeft(tab0: Table, tab: Table, m: Node, g: seq<nat>, disk: seq<nat>, k: nat, from: nat, j: nat, lo: nat,
                  hi: nat)
    requires Picking(tab0, tab, m, g, disk, k, from, j, lo, hi) && (j == from || j == REFS * k)
    ensures from <= j <= |m.refs|
    ensures (exists b: nat :: lo <= b < hi && !Referenced(tab, b))
      <==> Touched(from, j) < |Untaken(tab0, m.chain, m.refs[..from], lo, hi) - Elems(m.refs[j..])|
  {
    hide Stored, FirstFree, SameTail, RefersOutside, Referenced, Touched, Picked, SameButRefs;
    DiskSplit(tab0, tab, m, g, disk, k, from, j, lo, hi);
    PickedApart(tab0, tab, m, g, disk, k, from, j, lo, hi);
    var free := Untaken(tab0, m.chain, m.refs[..from], lo, hi) - Elems(m.refs[j..]);
    var picked := Elems(g[from..j]);
    forall b: nat | lo <= b < hi ensures !Referenced(tab, b) <==> b in free - picked {
      ReferencedSplit(tab0, tab, WithRefs(m, disk), b);
    }
    assert free == picked + (free - picked);
    if free - picked != {} {
      var b :| b in free - picked;
      assert !Referenced(tab, b);
    }
  }

  /** The search succeeds unless the picking comes to another entry and no block is left for it. */
  lemma SearchOutcome(tab0: Table, tab: Table, m: Node, g: seq<nat>, disk: seq<nat>, k: nat, from: nat, j: nat, lo: nat,
                      hi: nat)
    requires Picking(tab0, tab, m, g, disk, k, from, j, lo, hi) && j < |g| && REFS * k <= j < REFS * k + REFS
    ensures from <= j < |m.refs|
    ensures var free := Untaken(tab0, m.chain, m.refs[..from], lo, hi);
      CanPick(free, m.refs, from, j + 1) <==>
        CanPick(free, m.refs, from, j) && exists b: nat :: lo <= b < hi && !Referenced(tab, b)
  {
    hide Stored, SameTail, RefersOutside, Referenced, Touched, Picked, SameButRefs, Untaken;
    InEntry(j, k, j - REFS * k);
    if j == from || j == REFS * k {
      BlockLeft(tab0, tab, m, g, disk, k, from, j, lo, hi);
    } else {
      assert FirstFree(tab, lo, hi, g[j-1]);
    }
    var free := Untaken(tab0, m.chain, m.refs[..from], lo, hi);
    CanPickNext(free, m.refs, from, j);
  }

  lemma CanPickNext(free: set<nat>, refs: seq<nat>, from: nat, j: nat)
    requires from <= j < |refs|
    ensures CanPick(free, refs, from, j + 1) <==>
      CanPick(free, refs, from, j) && (j == from || j % REFS == 0 ==> Touched(from, j) < |free - Elems(refs[j..])|)
  {
    hide Touched;
    var t := Touched(from, j);
  }

  lemma CanPickLess(free: set<nat>, refs: seq<nat>, from: nat, j: nat, j': nat)
    requires j <= j' && CanPick(free, refs, from, j')
    ensures CanPick(free, refs, from, j)
  {
    hide Touched;
  }

  /** Picks a block for every reference from `from` on, chunk by chunk along the chain. The search for a
      free block reads the table, which does not yet show the blocks picked for the same entry. */
  method PickBlocks(d: Disk, n: nat, from: nat, required: nat, ghost m: Node) returns (r: Result<()>, ghost m': Node)
    requires Stored(d.table[..], m) && m.kind.File? && m.chain != [] && n == m.chain[0]
    requires from <= required == |m.refs|
    modifies d.table
    ensures r.Ok? ==>
      && m' == WithRefs(m, m'.refs) && |m'.refs| == |m.refs| && m'.refs[..from] == m.refs[..from]
      && Stored(d.table[..], m')
      && SameButRefs(old(d.table[..]), d.table[..], m.chain)
      && SameTail(old(d.table[..]), d.table[..], m.chain, required)
      && Picked(old(d.table[..]), m.chain, m'.refs, from, required, d.FirstData(), d.blocks.Length)
      && (required > from ==> FirstFree(old(d.table[..]), d.FirstData(), d.blocks.Length, m'.refs[from]))
    ensures r.Ok? <==>
      var unused := Untaken(old(d.table[..]), m.chain, m.refs[..from], d.FirstData(), d.blocks.Length);
      CanPick(unused, m.refs, from, required)
    ensures r.Err? ==> r.error.NoSpace?
    ensures r.Err? ==> forall b :: d.FirstData() <= b < d.blocks.Length ==> Referenced(d.table[..], b)
    ensures r.Err? ==> SameButRefs(old(d.table[..]), d.table[..], m.chain)
  {
    hide Stored, PickState, SameButRefs, Picked, Referenced, SameTail, Splice, Untaken, CanPick;
    ghost var tab := d.table[..];
    ghost var lo, hi := d.FirstData(), d.blocks.Length;
    ghost var unused := Untaken(tab, m.chain, m.refs[..from], lo, hi);
    CanPickNone(unused, m.refs, from);
    m' := m;
    StateNone(tab, m, from, lo, hi);
    var tentry := d.table[n];
    var at := n;
    var current, left := from, required;
    ghost var k: nat, g: seq<nat>, disk: seq<nat> := 0, m.refs, m.refs;
    while current < left
      invariant left == required - REFS * k && from <= REFS * k + current <= required && current >= 0 && |g| == required
      invariant PickState(tab, d.table[..], m, g, disk, k, from, REFS * k + current, lo, hi, at, tentry)
      invariant CanPick(unused, m.refs, from, REFS * k + current)
      decreases required - (REFS * k + current)
    {
      ghost var j := REFS * k + current;
      while current >= REFS
        invariant REFS * k + current == j && current >= 0 && left == required - REFS * k
        invariant PickState(tab, d.table[..], m, g, disk, k, from, j, lo, hi, at, tentry)
        decreases current
      {
        StateFlush(tab, d.table[..], m, g, disk, k, from, j, lo, hi, at, tentry);
        ghost var before := d.table[..];
        d.table[at] := tentry;
        assert d.table[..] == before[at := tentry];
        disk := Splice(disk, k, tentry.refs);
        k := k + 1;
        at := tentry.next;
        tentry := d.table[at];
        current := current - REFS;
        left := left - REFS;
      }
      var free := FindFreeBlock(d);
      StateSearch(tab, d.table[..], m, g, disk, k, from, j, lo, hi, at, tentry, unused);
      if free.Err? {
        StateSame(tab, d.table[..], m, g, disk, k, from, j, lo, hi, at, tentry);
        if CanPick(unused, m.refs, from, required) { CanPickLess(unused, m.refs, from, j + 1, required); }
        return Err(NoSpace), m;
      }
      StateOne(tab, d.table[..], m, g, disk, k, from, j, lo, hi, at, tentry, free.value);
      g := g[j := free.value];
      tentry := tentry.(refs := tentry.refs[current := free.value]);
      current := current + 1;
    }
    StateDone(tab, d.table[..], m, g, disk, k, from, lo, hi, at, tentry);
    ghost var before := d.table[..];
    d.table[at] := tentry;
    assert d.table[..] == before[at := tentry];
    m' := WithRefs(m, g);
    return Ok(()), m';
  }

  lemma CanPickNone(free: set<nat>, refs: seq<nat>, from: nat)
    ensures CanPick(free, refs, from, from)
  {}

  lemma StateSearch(tab0: Table, tab: Table, m: Node, g: seq<nat>, disk: seq<nat>, k: nat, from: nat, j: nat, lo: nat,
                    hi: nat, at: nat, tentry: Entry, unused: set<nat>)
    requires PickState(tab0, tab, m, g, disk, k, from, j, lo, hi, at, tentry)
    requires j < |g| && REFS * k <= j < REFS * k + REFS
    requires from <= |m.refs| && unused == Untaken(tab0, m.chain, m.refs[..from], lo, hi)
    ensures CanPick(unused, m.refs, from, j + 1) <==>
      CanPick(unused, m.refs, from, j) && exists b: nat :: lo <= b < hi && !Referenced(tab, b)
  {
    hide Picking, CanPick, Untaken, Referenced, FirstFree;
    SearchOutcome(tab0, tab, m, g, disk, k, from, j, lo, hi);
  }

  lemma StateSame(tab0: Table, tab: Table, m: Node, g: seq<nat>, disk: seq<nat>, k: nat, from: nat, j: nat, lo: nat,
                  hi: nat, at: nat, tentry: Entry)
    requires PickState(tab0, tab, m, g, disk, k, from, j, lo, hi, at, tentry)
    ensures SameButRefs(tab0, tab, m.chain)
  {
    hide Stored, SameTail, Picked, SameButRefs, FirstFree;
  }

  lemma StateDone(tab0: Table, tab: Table, m: Node, g: seq<nat>, disk: seq<nat>, k: nat, from: nat, lo: nat, hi: nat,
                  at: nat, tentry: Entry)
    requires PickState(tab0, tab, m, g, disk, k, from, |g|, lo, hi, at, tentry)
    ensures at < |tab| && |g| == |m.refs| && from <= |g| && g[..from] == m.refs[..from]
    ensures Stored(tab[at := tentry], WithRefs(m, g))
    ensures SameButRefs(tab0, tab[at := tentry], m.chain) && SameTail(tab0, tab[at := tentry], m.chain, |g|)
    ensures Picked(tab0, m.chain, g, from, |g|, lo, hi)
    ensures |g| > from ==> FirstFree(tab0, lo, hi, g[from])
  {
    hide Stored, Linked, Picking, FirstFree, SameButRefs, SameTail, Picked;
    PickBound(tab0, tab, m, g, disk, k, from, |g|, lo, hi);
    PickDone(tab0, tab, m, g, disk, k, from, lo, hi, tentry.refs);
  }

  /** At most one of the references from `from` up to `count` falls into each entry of the chain. */
  predicate OnePerEntry(from: nat, count: nat) {
    count <= from + 1 || (count == from + 2 && (from + 1) % REFS == 0)
  }

  lemma OnePerEntryMeaning(from: nat, count: nat)
    ensures OnePerEntry(from, count) <==> forall x, y :: from <= x < y < count ==> !SameEntry(x, y)
  {
    if !OnePerEntry(from, count) {
      assert SameEntry(from, from + 1) || SameEntry(from + 1, from + 2);
    }
  }

  /** Picking blocks keeps the references of a file distinct exactly when it picks at most one for
      each entry of the chain. */
  lemma PickedDistinct(tab0: Table, c: seq<nat>, refs: seq<nat>, from: nat, lo: nat, hi: nat)
    requires Picked(tab0, c, refs, from, |refs|, lo, hi) && NoDup(refs[..from])
    ensures NoDup(refs) <==> OnePerEntry(from, |refs|)
  {
    hide SameEntry;
    OnePerEntryMeaning(from, |refs|);
    forall x, y | 0 <= x < y < from ensures refs[x] != refs[y] {
      assert refs[..from][x] != refs[..from][y];
    }
  }

  /** A growth is given as many different blocks as there are entries among which it is spread: all
      references it adds to one entry name one block. */
  lemma OneBlockPerEntry(tab0: Table, c: seq<nat>, refs: seq<nat>, from: nat, lo: nat, hi: nat)
    requires Picked(tab0, c, refs, from, |refs|, lo, hi)
    ensures |Elems(refs[from..])| == Touched(from, |refs|)
    ensures forall x, y :: from <= x < y < |refs| && SameEntry(x, y) ==> refs[x] == refs[y]
  {
    assert refs[from..] == refs[from..|refs|];
    PickedCount(refs, from, |refs|);
  }
}
