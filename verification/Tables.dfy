/** The helpers of the file system that read and rewrite the table of entries. */
module Tables {
  import opened Entries
  import opened Layout
  import opened Trees

  /** A disk: its table of entries, and its blocks by absolute number. */
  class Disk {
    const table: array<Entry>
    const blocks: array<Block>
    ghost var fs: FS

    /** The table stores a well-formed file system. */
    ghost predicate Valid()
      reads this, table
    {
      Represents(table[..], fs) && WellFormed(fs, FirstData(), blocks.Length)
    }

    /** The table stores some set of files and directories, with the blocks of files in order. */
    ghost predicate Usable()
      reads this, table
    {
      && Represents(table[..], fs) && BlocksOk(fs, FirstData(), blocks.Length)
      && 0 in fs && fs[0].kind.Dir?
    }

    /** A disk with room for this many entries, holding anything. */
    constructor (entries: nat, size: nat)
      ensures fresh(table) && fresh(blocks)
      ensures table.Length == entries && blocks.Length == size
    {
      table := new Entry[entries];
      blocks := new Block[size];
      fs := map[];
    }

    /** Blocks before this one hold the boot sector, the superblock and the table. */
    function FirstData(): nat { 2 + table.Length }
  }

  ghost predicate IsFree(tab: Table, e: nat) {
    e < |tab| && tab[e].kind.Free?
  }

  /** All free entries. */
  ghost function FreeSet(tab: Table): set<nat> { set e: nat | e < |tab| && tab[e].kind.Free? }

  lemma NoneFree(tab: Table)
    requires forall e :: 0 <= e < |tab| ==> !IsFree(tab, e)
    ensures FreeSet(tab) == {}
  {
    forall e: nat | e < |tab| ensures !tab[e].kind.Free? { assert !IsFree(tab, e); }
  }

  lemma SomeFree(tab: Table)
    ensures FreeSet(tab) != {} <==> exists e :: IsFree(tab, e)
  {
    if e :| IsFree(tab, e) { assert e in FreeSet(tab); }
    if e :| e in FreeSet(tab) { assert IsFree(tab, e); }
  }

  /** First free entry. */
  method FindFreeEntry(d: Disk) returns (r: Result<nat>)
    ensures r.Ok? ==> IsFree(d.table[..], r.value) && forall e :: 0 <= e < r.value ==> !IsFree(d.table[..], e)
    ensures r.Err? ==> r.error.NoSpace? && forall e :: 0 <= e < d.table.Length ==> !IsFree(d.table[..], e)
  {
    var n := 0;
    while n < d.table.Length
      invariant n <= d.table.Length
      invariant forall e :: 0 <= e < n ==> !IsFree(d.table[..], e)
    {
      if d.table[n].kind.Free? { return Ok(n); }
      n := n + 1;
    }
    return Err(NoSpace);
  }

  /** Some file entry counts block `b` among the references its size covers. */
  ghost predicate Referenced(tab: Table, b: nat) {
    exists e, i :: 0 <= e < |tab| && RefersTo(tab[e], i, b)
  }

  ghost predicate RefersTo(entry: Entry, i: int, b: nat) {
    entry.kind.File? && 0 <= i < Min(NeededBlocks(entry.size), REFS) && entry.refs[i] == b
  }

  /** First data block that no file refers to, going by what the table says now. */
  method FindFreeBlock(d: Disk) returns (r: Result<nat>)
    ensures r.Ok? ==>
      && d.FirstData() <= r.value < d.blocks.Length
      && !Referenced(d.table[..], r.value)
      && forall b :: d.FirstData() <= b < r.value ==> Referenced(d.table[..], b)
    ensures r.Err? ==>
      && r.error.NoSpace?
      && forall b :: d.FirstData() <= b < d.blocks.Length ==> Referenced(d.table[..], b)
  {
    var candidate := d.FirstData();
    while candidate < d.blocks.Length
      invariant candidate >= d.FirstData()
      invariant candidate <= d.blocks.Length || candidate == d.FirstData()
      invariant forall b :: d.FirstData() <= b < candidate ==> Referenced(d.table[..], b)
    {
      var found := false;
      var n := 0;
      while !found && n < d.table.Length
        invariant n <= d.table.Length
        invariant found ==> Referenced(d.table[..], candidate)
        invariant !found ==> forall e, i :: 0 <= e < n ==> !RefersTo(d.table[e], i, candidate)
      {
        var entry := d.table[n];
        if entry.kind.File? {
          var last := Min(NeededBlocks(entry.size), REFS);
          var b := 0;
          while b < last
            invariant 0 <= b <= last
            invariant !found
            invariant forall i :: 0 <= i < b ==> entry.refs[i] != candidate
          {
            if entry.refs[b] == candidate {
              assert RefersTo(d.table[..][n], b, candidate);
              found := true;
              break;
            }
            b := b + 1;
          }
        }
        n := n + 1;
      }
      if !found { return Ok(candidate); }
      candidate := candidate + 1;
    }
    return Err(NoSpace);
  }

  /** The entry of the chain that holds reference number `nref`. */
  method GetNrefEntry(d: Disk, n: nat, nref: nat, ghost m: Node) returns (r: Result<nat>)
    requires Linked(d.table[..], m) && n == m.chain[0]
    ensures r.Ok? <==> nref < REFS * |m.chain|
    ensures r.Ok? ==> r.value == m.chain[nref / REFS]
    ensures r.Err? ==> r.error.NotFound?
  {
    var left: nat := nref;
    var at := n;
    ghost var k := 0;
    while left >= REFS
      invariant 0 <= k < |m.chain| && at == m.chain[k]
      invariant nref == REFS * k + left
    {
      left := left - REFS;
      assert d.table[..][m.chain[k]] == d.table[at];
      if d.table[at].next == 0 { return Err(NotFound); }
      at := d.table[at].next;
      k := k + 1;
    }
    InEntry(nref, k, left);
    return Ok(at);
  }

  /** Where clearing starts in the last entry of a chain cut or grown to `count` references. */
  function FirstUnused(count: nat): nat { Min(REFS - 1, count) % REFS }

  /** The slots of a chain, read in order. */
  ghost function Slots(tab: Table, chain: seq<nat>, count: nat): (refs: seq<nat>)
    requires count <= REFS * |chain|
    requires forall k :: 0 <= k < |chain| ==> chain[k] < |tab|
    ensures |refs| == count
  {
    seq(count, j requires 0 <= j < count => tab[chain[j / REFS]].refs[j % REFS])
  }

  lemma SlotsHeld(tab: Table, chain: seq<nat>, count: nat)
    requires count <= REFS * |chain|
    requires forall k :: 0 <= k < |chain| ==> chain[k] < |tab|
    ensures Holds(tab, chain, Slots(tab, chain, count))
  {
    forall k, i | 0 <= k < |chain| && 0 <= i < REFS && REFS * k + i < count
      ensures tab[chain[k]].refs[i] == Slots(tab, chain, count)[REFS * k + i]
    {
      InEntry(REFS * k + i, k, i);
    }
  }

  /** Slot `i` of the k-th entry once the chain of `m` has room for exactly `count` references. */
  ghost function SlotAfter(tab: Table, m: Node, count: nat, k: nat, i: nat): nat
    requires i < REFS
    requires forall j :: 0 <= j < |m.chain| ==> m.chain[j] < |tab|
  {
    if k == ChainLen(count) - 1 && i >= FirstUnused(count) then 0
    else if k < |m.chain| then tab[m.chain[k]].refs[i]
    else 0
  }

  /** Table `tab'` is `tab` with the chain of `m` cut or extended to hold `count` references. */
  ghost predicate Resized(tab: Table, tab': Table, m: Node, m': Node, count: nat) {
    && m' == Node(m.kind, m.name, m.parent, m'.chain, m.size, m'.refs)
    && |m'.chain| == ChainLen(count)
    && |m'.refs| == count
    && Linked(tab, m)
    && Linked(tab', m')
    && Holds(tab', m'.chain, m'.refs)
    && Rechained(tab, tab', m.chain, m'.chain)
    && Refilled(tab, tab', m, m'.chain, count)
  }

  /** The chains share their beginning; entries joining were free, entries leaving are zeroed. */
  ghost predicate Rechained(tab: Table, tab': Table, c: seq<nat>, c': seq<nat>) {
    && SameOutside(tab, tab', c, c')
    && (forall k :: 0 <= k < |c| && k < |c'| ==> c'[k] == c[k])
    && (forall k :: |c| <= k < |c'| ==> IsFree(tab, c'[k]))
    && (forall k :: |c'| <= k < |c| ==> c[k] < |tab'| && tab'[c[k]] == ZeroEntry())
  }

  /** What the entries of the new chain contain. */
  ghost predicate Refilled(tab: Table, tab': Table, m: Node, c': seq<nat>, count: nat) {
    && m.chain != []
    && (forall k :: 0 <= k < |m.chain| ==> m.chain[k] < |tab|)
    && (forall k :: 0 <= k < |c'| ==> c'[k] < |tab'|)
    && (forall k, i :: 0 <= k < |c'| && 0 <= i < REFS ==>
         tab'[c'[k]].refs[i] == SlotAfter(tab, m, count, k, i))
    && (forall k :: 0 <= k < |m.chain| && k < |c'| ==>
         SameTags(tab'[c'[k]], tab[m.chain[k]]) && tab'[c'[k]].size == tab[m.chain[k]].size)
    && (forall k :: |m.chain| <= k < |c'| ==>
         SameTags(tab'[c'[k]], tab[m.chain[|m.chain| - 1]]) && tab'[c'[k]].size == 0)
  }

  /** Two entries agree in name and time. */
  predicate SameTags(e: Entry, e': Entry) {
    e.name == e'.name && e.time == e'.time
  }

  /** What a linked chain says about its k-th entry. */
  lemma LinkAt(tab: Table, m: Node, k: nat)
    requires Linked(tab, m) && k < |m.chain|
    ensures m.chain[k] < |tab| && tab[m.chain[k]].kind == m.kind && !m.kind.Free?
    ensures tab[m.chain[k]].next == if k + 1 < |m.chain| then m.chain[k+1] else 0
    ensures k + 1 < |m.chain| ==> m.chain[k+1] != 0
    ensures k > 0 ==> tab[m.chain[k]].parent == m.chain[k-1]
    ensures k == 0 ==> tab[m.chain[k]].parent == m.parent && tab[m.chain[k]].name == m.name
  {
    var e := tab[m.chain[k]];
  }

  /** `tab` is `tab0` with the chain of `m` extended to `c` by entries that were free. */
  ghost predicate Extended(tab0: Table, tab: Table, m: Node, c: seq<nat>) {
    && 0 < |m.chain| <= |c|
    && c[..|m.chain|] == m.chain
    && Linked(tab0, m)
    && Linked(tab, m.(chain := c))
    && SameOutside(tab0, tab, m.chain, c)
    && (forall k :: |m.chain| <= k < |c| ==> IsFree(tab0, c[k]))
    && (forall k :: 0 <= k < |m.chain| ==> SameButNext(tab[m.chain[k]], tab0[m.chain[k]]))
    && (forall k :: |m.chain| <= k < |c| ==>
         && SameTags(tab[c[k]], tab0[m.chain[|m.chain| - 1]])
         && tab[c[k]].size == 0 && tab[c[k]].refs == NoRefs())
  }

  predicate SameButNext(e: Entry, e': Entry) {
    SameTags(e, e') && e.size == e'.size && e.refs == e'.refs
  }

  function Chained(e: Entry, at: nat): Entry {
    e.(parent := at, next := 0, size := 0, refs := NoRefs())
  }

  lemma LinkOneMore(tab: Table, m: Node, f: nat)
    requires Linked(tab, m) && IsFree(tab, f) && f != 0
    ensures f !in m.chain
    ensures var at := m.chain[|m.chain| - 1];
      at < |tab| && Linked(tab[f := Chained(tab[at], at)][at := tab[at].(next := f)], m.(chain := m.chain + [f]))
  {
    var c := m.chain;
    var at := c[|c| - 1];
    LinkAt(tab, m, |c| - 1);
    assert f !in c;
    var tab' := tab[f := Chained(tab[at], at)][at := tab[at].(next := f)];
    var c' := c + [f];
    forall k | 0 <= k < |c'|
      ensures c'[k] < |tab'| && tab'[c'[k]].kind == m.kind
      ensures k > 0 ==> tab'[c'[k]].parent == c'[k-1]
      ensures tab'[c'[k]].next == if k + 1 < |c'| then c'[k+1] else 0
      ensures k > 0 ==> c'[k] != 0
    {
      if k < |c| {
        LinkAt(tab, m, k);
        assert k < |c| - 1 ==> c[k] != at;
        if k > 0 { LinkAt(tab, m, k - 1); }
      }
    }
    LinkAt(tab, m, 0);
  }

  lemma NotExtended(tab: Table, m: Node)
    requires Linked(tab, m)
    ensures Extended(tab, tab, m, m.chain) && m.chain != []
  {
    assert m.(chain := m.chain) == m;
  }

  /** Table `tab` with entry `f` linked behind entry `at`. */
  function LinkedOn(tab: Table, at: nat, f: nat): Table
    requires at < |tab| && f < |tab|
  {
    tab[f := Chained(tab[at], at)][at := tab[at].(next := f)]
  }

  lemma LinkedOnAt(tab: Table, m: Node, f: nat)
    requires Linked(tab, m) && IsFree(tab, f)
    ensures m.chain != [] && m.chain[|m.chain| - 1] < |tab| && f !in m.chain
    ensures var at := m.chain[|m.chain| - 1]; var tab' := LinkedOn(tab, at, f);
      && |tab'| == |tab|
      && (forall k :: 0 <= k < |m.chain| ==> m.chain[k] < |tab| && SameButNext(tab'[m.chain[k]], tab[m.chain[k]]))
      && (forall e :: 0 <= e < |tab| && e !in m.chain && e != f ==> tab'[e] == tab[e])
      && SameTags(tab'[f], tab[at]) && tab'[f].size == 0 && tab'[f].refs == NoRefs()
  {
    var at := m.chain[|m.chain| - 1];
    forall k | 0 <= k < |m.chain|
      ensures m.chain[k] < |tab| && m.chain[k] != f && (k < |m.chain| - 1 ==> m.chain[k] != at)
    {
      LinkAt(tab, m, k);
      LinkDistinct(tab, m, k, |m.chain| - 1);
    }
    hide Linked;
    assert at in m.chain;
  }

  lemma ExtendedOnce(tab0: Table, tab: Table, m: Node, c: seq<nat>, f: nat)
    requires Extended(tab0, tab, m, c)
    requires IsFree(tab, f) && f != 0
    ensures c != [] && c[|c| - 1] < |tab| && Extended(tab0, LinkedOn(tab, c[|c| - 1], f), m, c + [f])
  {
    hide Linked, LinkedOn, SameTags;
    LinkedOnAt(tab, m.(chain := c), f);
    LinkedOnLinked(tab, m.(chain := c), f);
    var c' := c + [f];
    assert forall k :: 0 <= k < |m.chain| ==> c[k] == c[..|m.chain|][k];
    assert c'[..|m.chain|] == m.chain;
    ExtendedTags(tab0, tab, LinkedOn(tab, c[|c| - 1], f), m, c, f);
  }

  lemma LinkedOnLinked(tab: Table, m: Node, f: nat)
    requires Linked(tab, m) && IsFree(tab, f) && f != 0 && m.chain[|m.chain| - 1] < |tab|
    ensures Linked(LinkedOn(tab, m.chain[|m.chain| - 1], f), m.(chain := m.chain + [f]))
  {
    LinkOneMore(tab, m, f);
  }

  /** Every entry that joined has the name and time of the old last one. */
  lemma ExtendedTags(tab0: Table, tab: Table, tab': Table, m: Node, c: seq<nat>, f: nat)
    requires Extended(tab0, tab, m, c) && |tab'| == |tab| && f < |tab|
    requires forall k :: 0 <= k < |c| ==> c[k] < |tab| && SameButNext(tab'[c[k]], tab[c[k]])
    requires SameTags(tab'[f], tab[c[|c| - 1]])
    ensures forall k :: 0 <= k < |m.chain| ==>
      c[k] == m.chain[k] && m.chain[k] < |tab0| && SameButNext(tab'[m.chain[k]], tab0[m.chain[k]])
    ensures forall k :: |m.chain| <= k < |c| ==> SameTags(tab'[c[k]], tab0[m.chain[|m.chain| - 1]])
    ensures SameTags(tab'[f], tab0[m.chain[|m.chain| - 1]])
  {
    forall k | 0 <= k < |m.chain| ensures c[k] == m.chain[k] && m.chain[k] < |tab0| {
      assert c[..|m.chain|][k] == c[k];
      LinkAt(tab0, m, k);
    }
    hide Linked;
  }

  lemma ExtendedLink(tab0: Table, tab: Table, m: Node, c: seq<nat>, k: nat)
    requires Extended(tab0, tab, m, c) && k < |c|
    ensures c[k] < |tab| && !tab[c[k]].kind.Free?
    ensures tab[c[k]].next == if k + 1 < |c| then c[k+1] else 0
    ensures k + 1 < |c| ==> c[k+1] != 0
  {
    LinkAt(tab, m.(chain := c), k);
  }

  /** Entries that join a chain are no longer free, and no others. */
  lemma ExtendedFree(tab0: Table, tab: Table, m: Node, c: seq<nat>)
    requires Extended(tab0, tab, m, c)
    ensures |FreeSet(tab0)| == |FreeSet(tab)| + |c| - |m.chain|
  {
    hide Linked, SameTags;
    var more := c[|m.chain|..];
    assert NoDup(c) by { ExtendedNoDup(tab0, tab, m, c); }
    ElemsCount(more);
    forall k | 0 <= k < |c|
      ensures c[k] < |tab| && !tab[c[k]].kind.Free?
      ensures k < |m.chain| ==> c[k] == m.chain[k] && !IsFree(tab0, m.chain[k])
    {
      ExtendedLink(tab0, tab, m, c, k);
      if k < |m.chain| {
        LinkAt(tab0, m, k);
        assert c[..|m.chain|][k] == c[k];
      }
    }
    forall e: nat | e in FreeSet(tab0) ensures e in FreeSet(tab) || e in more {
      assert e !in m.chain;
      if e in c { InTail(c, |m.chain|, e); }
    }
    forall e | e in more ensures e in FreeSet(tab0) && e !in FreeSet(tab) {
      var k :| 0 <= k < |more| && more[k] == e;
      assert c[|m.chain| + k] == e && IsFree(tab0, c[|m.chain| + k]);
    }
    forall e | e in FreeSet(tab) ensures e in FreeSet(tab0) { assert e !in c; }
    assert FreeSet(tab0) == FreeSet(tab) + Elems(more);
  }

  lemma ExtendedKeeps(tab0: Table, tab: Table, m: Node, c: seq<nat>)
    requires Extended(tab0, tab, m, c)
    ensures KeepsOthers(tab0, tab, m.chain)
  {
    hide Linked;
    forall k | 0 <= k < |c| ensures c[k] in m.chain || IsFree(tab0, c[k]) {
      if k < |m.chain| { assert c[..|m.chain|][k] == c[k]; }
    }
  }

  lemma InTail(c: seq<nat>, n: nat, e: nat)
    requires n <= |c| && e in c && e !in c[..n]
    ensures e in c[n..]
  {
    assert c == c[..n] + c[n..];
  }

  lemma ExtendedNoDup(tab0: Table, tab: Table, m: Node, c: seq<nat>)
    requires Extended(tab0, tab, m, c)
    ensures NoDup(c)
  {}

  lemma LinkDistinct(tab: Table, m: Node, i: nat, j: nat)
    requires Linked(tab, m) && i < |m.chain| && j < |m.chain|
    ensures m.chain[i] == m.chain[j] <==> i == j
  {}

  /** Follows the chain to its entry number `nentries`, adding entries where it ends. */
  method Advance(d: Disk, n: nat, nentries: nat, ghost m: Node) returns (r: Result<nat>, ghost c: seq<nat>)
    requires Linked(d.table[..], m) && n == m.chain[0]
    requires !IsFree(d.table[..], 0)
    modifies d.table
    ensures r.Ok? ==>
      && Extended(old(d.table[..]), d.table[..], m, c)
      && |c| == (if nentries > |m.chain| then nentries else |m.chain|)
      && r.value == c[if nentries > 1 then nentries - 1 else 0]
    ensures r.Ok? <==> nentries <= |m.chain| + |FreeSet(old(d.table[..]))|
    ensures r.Err? ==> r.error.NoSpace? && Extended(old(d.table[..]), d.table[..], m, c) && FreeSet(d.table[..]) == {}
    ensures r.Err? && FreeSet(old(d.table[..])) == {} ==> d.table[..] == old(d.table[..])
  {
    hide Extended, Linked, FreeSet;
    var left := nentries;
    var at := n;
    ghost var k := 0;
    ghost var tab := d.table[..];
    c := m.chain;
    NotExtended(tab, m);
    while left > 1
      invariant Extended(tab, d.table[..], m, c) && |m.chain| <= |c|
      invariant 0 <= k < |c| && at == c[k] && (|c| > |m.chain| ==> k == |c| - 1)
      invariant if nentries == 0 then k == 0 else left >= 1 && nentries == k + left
      invariant !IsFree(d.table[..], 0) && (|c| == |m.chain| ==> d.table[..] == tab)
      decreases left
    {
      ExtendedLink(tab, d.table[..], m, c, k);
      if d.table[at].next != 0 {
        at := d.table[at].next;
      } else {
        var free := FindFreeEntry(d);
        if free.Err? {
          NoneFree(d.table[..]);
          ExtendedFree(tab, d.table[..], m, c);
          return Err(NoSpace), c;
        }
        var f := free.value;
        ExtendedOnce(tab, d.table[..], m, c, f);
        ghost var before := d.table[..];
        d.table[f] := Chained(d.table[at], at);
        d.table[at] := d.table[at].(next := f);
        assert d.table[..] == before[f := Chained(before[at], at)][at := before[at].(next := f)];
        at := f;
        c := c + [f];
      }
      k := k + 1;
      left := left - 1;
    }
    ExtendedFree(tab, d.table[..], m, c);
    r := Ok(at);
  }

  /** Entries of a chain from position `k` on are zero, the others as in `tab`. */
  ghost predicate ZeroedFrom(tab: Table, tab': Table, c: seq<nat>, k: nat)
    requires k <= |c|
  {
    && |tab'| == |tab|
    && forall e :: 0 <= e < |tab| ==> tab'[e] == if e in c[k..] then ZeroEntry() else tab[e]
  }

  lemma NothingZeroed(tab: Table, c: seq<nat>)
    ensures ZeroedFrom(tab, tab, c, |c|)
  {}

  /** From position `k` on, the entries of chain `c` are linked forward. */
  ghost predicate ForwardFrom(tab: Table, c: seq<nat>, k: nat) {
    && NoDup(c)
    && (forall j :: k <= j < |c| ==> c[j] < |tab| && c[j] != 0)
    && (forall j {:trigger tab[c[j]]} :: k <= j < |c| ==> tab[c[j]].next == if j + 1 < |c| then c[j+1] else 0)
  }

  /** Zeroes the entries of a chain from `first` on, which is at position `k`. */
  method DeleteRest(d: Disk, first: nat, ghost c: seq<nat>, ghost k: nat)
    requires ForwardFrom(d.table[..], c, k) && k < |c| && first == c[k]
    modifies d.table
    ensures ZeroedFrom(old(d.table[..]), d.table[..], c, k)
  {
    ghost var tab := d.table[..];
    ghost var j := k;
    var next := first;
    while next != 0
      invariant k <= j <= |c| && next == (if j < |c| then c[j] else 0)
      invariant forall e :: 0 <= e < |tab| ==> d.table[e] == if e in c[k..j] then ZeroEntry() else tab[e]
      decreases |c| - j
    {
      var current := next;
      assert current !in c[k..j] && tab[c[j]] == d.table[current];
      next := d.table[current].next;
      d.table[current] := ZeroEntry();
      assert c[k..j+1] == c[k..j] + [current];
      j := j + 1;
    }
    assert c[k..j] == c[k..];
  }

  /** `refs` with the slots from `lo` up to `hi` zeroed. */
  function Cleared(refs: Refs, lo: nat, hi: nat): Refs
    requires lo <= hi <= REFS
  {
    refs[..lo] + seq(hi - lo, _ => 0) + refs[hi..]
  }

  /** The entry that ends a chain cut or grown to `count` references. */
  function Ending(e: Entry, count: nat): Entry {
    e.(refs := Cleared(e.refs, FirstUnused(count), REFS), next := 0)
  }

  lemma ForwardAfter(tab: Table, tab1: Table, m: Node, c: seq<nat>, k: nat, e: Entry)
    requires Extended(tab, tab1, m, c) && k < |c|
    ensures c[k] < |tab1| && ForwardFrom(tab1[c[k] := e], c, k + 1)
  {
    var tab2 := tab1[c[k] := e];
    forall j | k < j < |c|
      ensures c[j] < |tab2| && c[j] != 0
      ensures tab2[c[j]].next == if j + 1 < |c| then c[j+1] else 0
    {
      LinkAt(tab1, m.(chain := c), j);
      LinkAt(tab1, m.(chain := c), j - 1);
    }
  }

  lemma CutAt(tab1: Table, tab2: Table, m1: Node, k: nat, count: nat, j: nat)
    requires Linked(tab1, m1) && j <= k < |m1.chain|
    requires ZeroedFrom(tab1[m1.chain[k] := Ending(tab1[m1.chain[k]], count)], tab2, m1.chain, k + 1)
    ensures m1.chain[j] !in m1.chain[k+1..]
    ensures m1.chain[j] < |tab2|
    ensures tab2[m1.chain[j]] == if j == k then Ending(tab1[m1.chain[k]], count) else tab1[m1.chain[j]]
  {
    hide Ending;
    LinkDistinct(tab1, m1, j, k);
  }

  /** Cutting a chain after its k-th entry leaves a linked chain. */
  lemma CutLinked(tab1: Table, tab2: Table, m1: Node, k: nat, count: nat)
    requires Linked(tab1, m1) && k < |m1.chain|
    requires ZeroedFrom(tab1[m1.chain[k] := Ending(tab1[m1.chain[k]], count)], tab2, m1.chain, k + 1)
    ensures Linked(tab2, m1.(chain := m1.chain[..k+1]))
  {
    var c := m1.chain[..k+1];
    forall j {:trigger tab2[c[j]]} | 0 <= j <= k
      ensures c[j] < |tab2| && tab2[c[j]].kind == m1.kind && !m1.kind.Free?
      ensures tab2[c[j]].next == if j < k then c[j+1] else 0
      ensures if j == 0 then tab2[c[j]].parent == m1.parent && tab2[c[j]].name == m1.name
              else c[j] != 0 && tab2[c[j]].parent == c[j-1]
    {
      hide Linked, ZeroedFrom;
      CutAt(tab1, tab2, m1, k, count, j);
      LinkAt(tab1, m1, j);
      if j > 0 { LinkAt(tab1, m1, j - 1); }
    }
    assert NoDup(c);
  }

  /** The chain of `m`, extended to `c` in `tab1`, ends in `tab2` with room for `count` references. */
  ghost predicate Ended(tab: Table, tab1: Table, tab2: Table, m: Node, c: seq<nat>, count: nat) {
    var k := ChainLen(count) - 1;
    && Extended(tab, tab1, m, c)
    && |c| == (if k >= |m.chain| then k + 1 else |m.chain|)
    && c[k] < |tab1|
    && ZeroedFrom(tab1[c[k] := Ending(tab1[c[k]], count)], tab2, c, k + 1)
  }

  lemma EndedOutside(tab: Table, tab1: Table, tab2: Table, m: Node, c: seq<nat>, count: nat)
    requires Ended(tab, tab1, tab2, m, c, count)
    ensures SameOutside(tab, tab2, m.chain, c[..ChainLen(count)])
  {
    hide Linked, Ending;
    var k := ChainLen(count) - 1;
    forall e | 0 <= e < |tab| && e !in m.chain && e !in c[..k+1] ensures tab2[e] == tab[e] {
      assert e !in c by {
        forall j | 0 <= j < |c| ensures c[j] != e {
          if j < |m.chain| { assert c[j] == c[..|m.chain|][j]; } else { assert c[j] == c[..k+1][j]; }
        }
      }
      assert c[k] in c;
    }
  }

  lemma EndedAt(tab: Table, tab1: Table, tab2: Table, m: Node, c: seq<nat>, count: nat, j: nat)
    requires Ended(tab, tab1, tab2, m, c, count) && j < ChainLen(count)
    requires Linked(tab, m)
    ensures c[j] < |tab2|
    ensures forall i :: 0 <= i < REFS ==> tab2[c[j]].refs[i] == SlotAfter(tab, m, count, j, i)
    ensures j < |m.chain| ==> c[j] == m.chain[j]
    ensures j < |m.chain| ==> SameTags(tab2[c[j]], tab[m.chain[j]]) && tab2[c[j]].size == tab[m.chain[j]].size
    ensures j >= |m.chain| ==>
      IsFree(tab, c[j]) && SameTags(tab2[c[j]], tab[m.chain[|m.chain| - 1]]) && tab2[c[j]].size == 0
  {
    hide ZeroedFrom, Linked;
    CutAt(tab1, tab2, m.(chain := c), ChainLen(count) - 1, count, j);
    if j < |m.chain| { assert c[j] == c[..|m.chain|][j]; }
  }

  /** Links say nothing about sizes and references. */
  lemma LinkedToo(tab: Table, m: Node, m': Node)
    requires Linked(tab, m)
    requires m'.kind == m.kind && m'.name == m.name && m'.parent == m.parent && m'.chain == m.chain
    ensures Linked(tab, m')
  {}

  lemma EndedRechained(tab: Table, tab1: Table, tab2: Table, m: Node, c: seq<nat>, count: nat)
    requires Ended(tab, tab1, tab2, m, c, count) && Linked(tab, m)
    ensures Rechained(tab, tab2, m.chain, c[..ChainLen(count)])
  {
    hide Linked, SlotAfter, Ending, SameTags, Slots, ChainLen;
    EndedOutside(tab, tab1, tab2, m, c, count);
    var k := ChainLen(count) - 1;
    forall j | k < j < |m.chain| ensures m.chain[j] < |tab2| && tab2[m.chain[j]] == ZeroEntry() {
      LinkAt(tab, m, j);
      assert m.chain[j] == c[..|m.chain|][j] == c[k+1..][j-(k+1)];
    }
    forall j | 0 <= j <= k && j < |m.chain| ensures c[j] == m.chain[j] {
      assert c[..|m.chain|][j] == c[j];
    }
  }

  lemma EndedRefilled(tab: Table, tab1: Table, tab2: Table, m: Node, c: seq<nat>, count: nat)
    requires Ended(tab, tab1, tab2, m, c, count) && Linked(tab, m)
    ensures Refilled(tab, tab2, m, c[..ChainLen(count)], count)
  {
    hide Linked, Ending, SameTags, Slots, ChainLen, IsFree, Ended, SlotAfter;
    forall j | 0 <= j < |m.chain| ensures m.chain[j] < |tab| { LinkAt(tab, m, j); }
    assert m.chain != [] by { EndedAt(tab, tab1, tab2, m, c, count, 0); NotExtended(tab, m); }
    assert ChainLen(count) <= |c| by { EndedLong(tab, tab1, tab2, m, c, count); }
    forall j | 0 <= j < ChainLen(count)
      ensures c[j] < |tab2|
      ensures forall i :: 0 <= i < REFS ==> tab2[c[j]].refs[i] == SlotAfter(tab, m, count, j, i)
      ensures j < |m.chain| ==> c[j] == m.chain[j]
      ensures j < |m.chain| ==> SameTags(tab2[c[j]], tab[m.chain[j]]) && tab2[c[j]].size == tab[m.chain[j]].size
      ensures j >= |m.chain| ==> SameTags(tab2[c[j]], tab[m.chain[|m.chain| - 1]]) && tab2[c[j]].size == 0
    {
      EndedAt(tab, tab1, tab2, m, c, count, j);
    }
  }

  lemma EndedLong(tab: Table, tab1: Table, tab2: Table, m: Node, c: seq<nat>, count: nat)
    requires Ended(tab, tab1, tab2, m, c, count)
    ensures ChainLen(count) <= |c|
  {}

  /** Where the steps of `SetEntryRefcount` end. */
  lemma EndedResized(tab: Table, tab1: Table, tab2: Table, m: Node, c: seq<nat>, count: nat) returns (m': Node)
    requires Ended(tab, tab1, tab2, m, c, count)
    ensures Resized(tab, tab2, m, m', count)
  {
    hide Linked, Rechained, Refilled, Slots, ChainLen;
    var c' := c[..ChainLen(count)];
    CutLinked(tab1, tab2, m.(chain := c), ChainLen(count) - 1, count);
    EndedRechained(tab, tab1, tab2, m, c, count);
    EndedRefilled(tab, tab1, tab2, m, c, count);
    forall j | 0 <= j < |c'| ensures c'[j] < |tab2| { LinkAt(tab2, m.(chain := c'), j); }
    m' := Node(m.kind, m.name, m.parent, c', m.size, Slots(tab2, c', count));
    SlotsHeld(tab2, c', count);
    LinkedToo(tab2, m.(chain := c'), m');
  }

  /** Number of entries as the source counts them: none for no references. */
  function NumEntries(count: nat): (n: nat)
    ensures ChainLen(count) == if n == 0 then 1 else n
  {
    count / REFS + if count % REFS != 0 then 1 else 0
  }

  /** Zeroes the references of a local entry from slot `first` on. */
  method ClearRefs(e: Entry, first: nat) returns (e': Entry)
    requires first <= REFS
    ensures e' == e.(refs := Cleared(e.refs, first, REFS))
  {
    e' := e;
    var i := first;
    while i < REFS
      invariant first <= i <= REFS
      invariant e' == e.(refs := Cleared(e.refs, first, i))
    {
      e' := e'.(refs := e'.refs[i := 0]);
      i := i + 1;
    }
  }

  /** Makes the chain of `m` long enough for `count` references and no longer. */
  method SetEntryRefcount(d: Disk, n: nat, count: nat, ghost m: Node) returns (r: Result<()>, ghost m': Node)
    requires Linked(d.table[..], m) && n == m.chain[0]
    requires !IsFree(d.table[..], 0)
    modifies d.table
    ensures r.Ok? ==> Resized(old(d.table[..]), d.table[..], m, m', count)
    ensures r.Ok? <==> ChainLen(count) <= |m.chain| + |FreeSet(old(d.table[..]))|
    ensures r.Err? ==>
      r.error.NoSpace? && FreeSet(d.table[..]) == {} && KeepsOthers(old(d.table[..]), d.table[..], m.chain)
    ensures r.Err? && FreeSet(old(d.table[..])) == {} ==> d.table[..] == old(d.table[..])
  {
    hide KeepsOthers, Linked, Extended, Resized, ChainLen, ZeroedFrom, NumEntries, Cleared, FreeSet;
    m' := m;
    ghost var tab := d.table[..];
    NotExtended(tab, m);
    var nentries := NumEntries(count);

    // The entry that is to be the last one
    var at, c := Advance(d, n, nentries, m);
    if at.Err? {
      ExtendedKeeps(tab, d.table[..], m, c);
      return Err(NoSpace), m;
    }
    ghost var tab1 := d.table[..];
    ghost var k := ChainLen(count) - 1;
    ExtendedLink(tab, tab1, m, c, k);

    // Its unused slots are cleared, or those the code takes for unused
    var entry := d.table[at.value];
    entry := ClearRefs(entry, FirstUnused(count));
    d.table[at.value] := entry;
    assert d.table[..] == tab1[c[k] := entry];

    // Entries behind it are given back
    if entry.next != 0 {
      var next := entry.next;
      entry := entry.(next := 0);
      d.table[at.value] := entry;
      ForwardAfter(tab, tab1, m, c, k, entry);
      assert d.table[..] == tab1[c[k] := entry];
      DeleteRest(d, next, c, k + 1);
    }
    if k + 1 == |c| { NothingZeroed(d.table[..], c); }
    m' := EndedResized(tab, tab1, d.table[..], m, c, count);
    r := Ok(());
  }

  /** A chain brought to exactly `count` references, a positive multiple of 120, loses its last one. */
  predicate ClearsLast(count: nat) { count > 0 && count % REFS == 0 }

  lemma RefsKept(tab: Table, tab': Table, m: Node, m': Node, count: nat)
    requires Resized(tab, tab', m, m', count)
    requires Holds(tab, m.chain, m.refs)
    ensures forall j :: 0 <= j < |m.refs| && j < count ==>
      m'.refs[j] == if ClearsLast(count) && j == count - 1 then 0 else m.refs[j]
  {
    hide Linked, Rechained;
    forall j | 0 <= j < |m.refs| && j < count
      ensures m'.refs[j] == if ClearsLast(count) && j == count - 1 then 0 else m.refs[j]
    {
      var k, i := j / REFS, j % REFS;
      assert j == REFS * k + i;
      assert tab'[m'.chain[k]].refs[i] == m'.refs[REFS * k + i] == SlotAfter(tab, m, count, k, i);
      assert tab[m.chain[k]].refs[i] == m.refs[REFS * k + i];
    }
  }

  /** Cutting or growing a chain keeps every reference still wanted, except when it ends on a
      positive multiple of 120 references that were all in use. */
  lemma KeepsAllUnlessFull(tab: Table, tab': Table, m: Node, m': Node, count: nat)
    requires Resized(tab, tab', m, m', count)
    requires Holds(tab, m.chain, m.refs) && forall j :: 0 <= j < |m.refs| ==> m.refs[j] != 0
    ensures (forall j :: 0 <= j < |m.refs| && j < count ==> m'.refs[j] == m.refs[j])
      <==> !(ClearsLast(count) && count <= |m.refs|)
  {
    RefsKept(tab, tab', m, m', count);
    if ClearsLast(count) && count <= |m.refs| {
      assert m'.refs[count - 1] != m.refs[count - 1];
    }
  }

  lemma PaddedSlot(tab: Table, tab': Table, m: Node, m': Node, count: nat, k: nat, i: nat)
    requires Resized(tab, tab', m, m', count) && Holds(tab, m.chain, m.refs) && Padded(tab, m)
    requires k < |m'.chain| && i < REFS && count <= REFS * k + i && count <= |m.refs|
    ensures k == ChainLen(count) - 1 && k < |m.chain| && m'.chain[k] < |tab'|
    ensures tab'[m'.chain[k]].refs[i] ==
      if i < FirstUnused(count) && REFS * k + i < |m.refs| then m.refs[REFS * k + i] else 0
  {
    hide Linked, Rechained;
    assert tab'[m'.chain[k]].refs[i] == SlotAfter(tab, m, count, k, i);
    if REFS * k + i < |m.refs| {
      assert tab[m.chain[k]].refs[i] == m.refs[REFS * k + i];
    } else {
      assert tab[m.chain[k]].refs[i] == 0;
    }
  }

  /** A cut to `count` references leaves a reference behind in no slot. */
  predicate CutsClean(count: nat, refs: nat) {
    count < REFS || count == refs || count % REFS == 0 || count % REFS == REFS - 1
  }

  /** Unused references are zero after a cut, as the comments promise, exactly for these counts: in a chained
      entry only its last slot is ever cleared. */
  lemma ClearsUnused(tab: Table, tab': Table, m: Node, m': Node, count: nat)
    requires Resized(tab, tab', m, m', count) && Holds(tab, m.chain, m.refs) && Padded(tab, m)
    requires count <= |m.refs| && 0 !in m.refs
    ensures Padded(tab', m') <==> CutsClean(count, |m.refs|)
  {
    hide Linked, Rechained, Holds, Refilled;
    var k := ChainLen(count) - 1;
    assert |m'.chain| == k + 1 && |m'.refs| == count;
    forall j: nat | j < |m'.chain| ensures m'.chain[j] < |tab'| {
      ResizedAt(tab, tab', m, m', count, j);
    }
    if CutsClean(count, |m.refs|) {
      forall j: nat, i: nat | j < |m'.chain| && i < REFS && count <= REFS * j + i
        ensures tab'[m'.chain[j]].refs[i] == 0
      {
        PaddedSlot(tab, tab', m, m', count, j, i);
        NothingLeft(count, |m.refs|, j, i);
      }
    } else {
      var i := count % REFS;
      LeftBehind(count, |m.refs|);
      PaddedSlot(tab, tab', m, m', count, k, i);
      assert m.refs[REFS * k + i] in m.refs;
      assert tab'[m'.chain[k]].refs[i] != 0;
    }
  }

  lemma ResizedAt(tab: Table, tab': Table, m: Node, m': Node, count: nat, j: nat)
    requires Resized(tab, tab', m, m', count) && j < |m'.chain|
    ensures m'.chain[j] < |tab'|
  {
    hide Linked, Rechained, Holds;
  }

  lemma NothingLeft(count: nat, refs: nat, k: nat, i: nat)
    requires CutsClean(count, refs) && k == ChainLen(count) - 1 && i < REFS && count <= REFS * k + i
    ensures i >= FirstUnused(count) || REFS * k + i >= refs
  {}

  lemma LeftBehind(count: nat, refs: nat)
    requires !CutsClean(count, refs) && count <= refs
    ensures count % REFS < FirstUnused(count) && REFS * (ChainLen(count) - 1) + count % REFS == count < refs
  {}

  /** The first `n` entries of the chain of `m` record what is left of `size` from them on. */
  ghost predicate SizesSet(tab: Table, tab': Table, m: Node, size: nat, n: nat)
    requires n <= |m.chain|
  {
    && |tab'| == |tab|
    && (forall k :: 0 <= k < |m.chain| ==> m.chain[k] < |tab|)
    && (forall e :: 0 <= e < |tab| && e !in m.chain[..n] ==> tab'[e] == tab[e])
    && (forall k {:trigger tab'[m.chain[k]]} :: 0 <= k < n ==>
         tab'[m.chain[k]] == tab[m.chain[k]].(size := SizeFrom(m.kind, size, k)))
  }

  lemma SizesSetNone(tab: Table, m: Node, size: nat)
    requires Linked(tab, m)
    ensures SizesSet(tab, tab, m, size, 0)
  {}

  lemma SizesSetOnce(tab: Table, tab': Table, m: Node, size: nat, k: nat)
    requires Linked(tab, m) && k < |m.chain| && SizesSet(tab, tab', m, size, k)
    ensures m.chain[k] < |tab| && tab'[m.chain[k]] == tab[m.chain[k]]
    ensures SizesSet(tab, tab'[m.chain[k] := tab[m.chain[k]].(size := SizeFrom(m.kind, size, k))], m, size, k + 1)
  {
    assert m.chain[..k+1] == m.chain[..k] + [m.chain[k]];
    assert m.chain[k] !in m.chain[..k];
    hide Linked, SizeFrom;
  }

  /** A chain as long as its size needs leaves nothing after its last entry, and not before. */
  lemma SizeFits(kind: Kind, size: nat, k: nat)
    requires !kind.Free?
    ensures SizeFrom(kind, size, k + 1) == 0 <==> ChainLen(RefCount(kind, size)) <= k + 1
    ensures var left := SizeFrom(kind, size, k); SizeFrom(kind, size, k + 1) == left - Min(left, EntryShare(kind))
  {}

  /** Sets the size in every entry of a chain. Fails exactly when the chain has the wrong length. */
  method SetEntrySize(d: Disk, n: nat, size: nat, ghost m: Node) returns (r: Result<()>)
    requires Linked(d.table[..], m) && n == m.chain[0]
    modifies d.table
    ensures r.Ok? <==> |m.chain| == ChainLen(RefCount(m.kind, size))
    ensures r.Ok? ==> SizesSet(old(d.table[..]), d.table[..], m, size, |m.chain|)
    ensures r.Err? ==> r.error.Io?
  {
    hide Linked, SizesSet, SizeFrom, ChainLen, RefCount;
    ghost var tab := d.table[..];
    var left := size;
    var at := n;
    ghost var k := 0;
    NotExtended(tab, m);
    SizesSetNone(tab, m, size);
    assert left == SizeFrom(m.kind, size, 0) by { SizeFromStart(m.kind, size); }
    while true
      invariant 0 <= k < |m.chain| && at == m.chain[k]
      invariant left == SizeFrom(m.kind, size, k)
      invariant k < ChainLen(RefCount(m.kind, size))
      invariant SizesSet(tab, d.table[..], m, size, k)
      decreases |m.chain| - k
    {
      LinkAt(tab, m, k);
      SizesSetOnce(tab, d.table[..], m, size, k);
      SizeFits(m.kind, size, k);
      ghost var before := d.table[..];
      var entry := d.table[at];
      entry := entry.(size := left);
      if entry.kind.File? {
        left := left - Min(left, CAPACITY);
      } else if entry.kind.Dir? {
        left := left - Min(left, REFS);
      }
      d.table[at] := entry;
      assert d.table[..] == before[at := entry];
      if (left > 0 && entry.next == 0) || (left == 0 && entry.next != 0) {
        return Err(Io);
      }
      if entry.next == 0 { break; }
      at := entry.next;
      k := k + 1;
    }
    return Ok(());
  }

  lemma SizeFromStart(kind: Kind, size: nat)
    ensures SizeFrom(kind, size, 0) == size
  {}

  /** Table after adding `ref` to the full directory at `n`: the new chained entry `f` stays empty,
      and the success code of `SetEntryRefcount`, zero, is taken for the entry to write. */
  function Misfiled(tab: Table, n: nat, f: nat, ref: nat): Table
    requires 0 < |tab| && n < |tab| && f < |tab|
  {
    var t := tab[f := Chained(tab[n], n).(size := 1)];
    var t := t[n := t[n].(next := f, size := t[n].size + 1)];
    t[0 := t[0].(refs := t[0].refs[0 := ref])]
  }

  lemma HeadOf(tab: Table, m: Node)
    requires Stored(tab, m)
    ensures m.chain != [] && m.chain[0] < |tab|
    ensures Linked(tab, m)
    ensures tab[m.chain[0]].kind == m.kind && tab[m.chain[0]].size == m.size
    ensures tab[m.chain[0]].parent == m.parent && tab[m.chain[0]].name == m.name
    ensures |m.refs| == RefCount(m.kind, m.size) && |m.chain| == ChainLen(|m.refs|)
  {
    var e := tab[m.chain[0]];
  }

  // ----- counting free entries -----

  function ChainOf(fs: FS, h: nat): seq<nat> { if h in fs then fs[h].chain else [] }

  /** Two sets of files and directories have the same chains but for `h`. */
  ghost predicate SameChains(fs: FS, fs': FS, h: nat) {
    forall g: nat, e: nat :: g != h ==> (Owns(fs, g, e) <==> Owns(fs', g, e))
  }

  /** An entry is free or in the chain of `h` exactly when no other chain has it. */
  lemma FreeOrOwned(tab: Table, fs: FS, h: nat, e: nat)
    requires Represents(tab, fs) && e < |tab|
    ensures e in FreeSet(tab) || e in ChainOf(fs, h) <==> forall g: nat :: g != h ==> !Owns(fs, g, e)
    ensures e in ChainOf(fs, h) ==> e !in FreeSet(tab)
  {
    hide Stored;
    if g: nat :| Owns(fs, g, e) { OwnedIsUsed(tab, fs, g, e); }
    assert e in ChainOf(fs, h) <==> Owns(fs, h, e);
  }

  lemma ChainCount(tab: Table, fs: FS, h: nat)
    requires Represents(tab, fs)
    ensures |FreeSet(tab) + Elems(ChainOf(fs, h))| == |FreeSet(tab)| + |ChainOf(fs, h)|
    ensures forall e: nat :: e in FreeSet(tab) || e in ChainOf(fs, h) <==>
      e < |tab| && forall g: nat :: g != h ==> !Owns(fs, g, e)
  {
    hide Stored;
    if h in fs {
      assert NoDup(ChainOf(fs, h)) by { HeadOf(tab, fs[h]); }
    }
    ElemsCount(ChainOf(fs, h));
    forall e: nat | e < |tab| || e in ChainOf(fs, h)
      ensures e < |tab|
      ensures e in FreeSet(tab) || e in ChainOf(fs, h) <==> forall g: nat :: g != h ==> !Owns(fs, g, e)
      ensures e in ChainOf(fs, h) ==> e !in FreeSet(tab)
    {
      if e in ChainOf(fs, h) { OwnedIsUsed(tab, fs, h, e); }
      FreeOrOwned(tab, fs, h, e);
    }
  }

  /** Entries are neither lost nor made: whatever one item gains or loses, the free entries lose or gain. */
  lemma EntriesConserved(tab: Table, fs: FS, tab': Table, fs': FS, h: nat)
    requires |tab'| == |tab| && SameChains(fs, fs', h)
    requires Represents(tab, fs) && Represents(tab', fs')
    ensures |FreeSet(tab)| + |ChainOf(fs, h)| == |FreeSet(tab')| + |ChainOf(fs', h)|
  {
    hide Represents, FreeSet, ChainOf, Owns;
    ChainCount(tab, fs, h);
    ChainCount(tab', fs', h);
    assert FreeSet(tab) + Elems(ChainOf(fs, h)) == FreeSet(tab') + Elems(ChainOf(fs', h));
  }

  lemma AddedRef(tab: Table, tab': Table, m: Node, ref: nat)
    requires Stored(tab, m) && m.kind.Dir? && |m.chain| == 1 && m.size < REFS
    requires m.chain[0] < |tab|
    requires SizesSet(tab[m.chain[0] := tab[m.chain[0]].(refs := tab[m.chain[0]].refs[m.size := ref])], tab', m,
      m.size + 1, 1)
    ensures tab' == tab[m.chain[0] := tab[m.chain[0]].(refs := tab[m.chain[0]].refs[m.size := ref], size := m.size + 1)]
    ensures Stored(tab', WithItem(m, ref))
  {
    var n := m.chain[0];
    assert m.chain == [n];
    assert tab'[m.chain[0]] == tab[n].(refs := tab[n].refs[m.size := ref], size := m.size + 1);
    RefAdded(tab, m, ref);
  }

  lemma RefAdded(tab: Table, m: Node, ref: nat)
    requires Stored(tab, m) && m.kind.Dir? && |m.chain| == 1 && m.size < REFS
    requires m.chain[0] < |tab|
    ensures var e := tab[m.chain[0]];
      Stored(tab[m.chain[0] := e.(refs := e.refs[m.size := ref], size := m.size + 1)], WithItem(m, ref))
  {
    var n := m.chain[0];
    assert m.chain == [n];
    forall i | 0 <= i < m.size ensures tab[n].refs[i] == m.refs[i] {
      assert tab[m.chain[0]].refs[i] == m.refs[REFS * 0 + i];
    }
    forall i | m.size <= i < REFS ensures tab[n].refs[i] == 0 {
      assert tab[m.chain[0]].refs[i] == 0;
    }
  }

  lemma FullRef(tab: Table, tab1: Table, tab': Table, m: Node, m1: Node, ref: nat) returns (f: nat)
    requires Stored(tab, m) && m.kind.Dir? && |m.chain| == 1 && m.size == REFS
    requires Resized(tab, tab1, m, m1, REFS + 1) && 0 < |tab|
    requires SizesSet(tab1[0 := tab1[0].(refs := tab1[0].refs[0 := ref])], tab', m1, REFS + 1, 2)
    ensures IsFree(tab, f) && m.chain[0] < |tab| && tab' == Misfiled(tab, m.chain[0], f, ref)
  {
    var n := m.chain[0];
    f := m1.chain[1];
    assert m.chain == [n] && m1.chain == [n, f];
    HeadOf(tab, m);
    LinkAt(tab1, m1, 0);
    LinkAt(tab1, m1, 1);
    var tab2 := tab1[0 := tab1[0].(refs := tab1[0].refs[0 := ref])];
    assert tab'[m1.chain[0]].size == REFS + 1 && tab'[m1.chain[1]].size == 1;
    assert tab1[m1.chain[0]].refs == tab[n].refs;
    assert tab1[m1.chain[1]].refs == NoRefs();
    var t := Misfiled(tab, n, f, ref);
    forall e | 0 <= e < |tab| ensures tab'[e] == t[e] {
      if e != n && e != f {
        assert tab1[e] == tab[e];
      }
    }
  }

  lemma ResizedFacts(tab: Table, tab': Table, m: Node, m': Node, count: nat)
    requires Resized(tab, tab', m, m', count)
    ensures Linked(tab', m') && m'.chain != [] && m'.chain[0] == m.chain[0] && m'.kind == m.kind
    ensures |m'.chain| == ChainLen(count) && |m'.refs| == count && m.chain != []
  {}

  lemma LinkedRefs(tab: Table, m: Node, e: nat, refs: Refs)
    requires Linked(tab, m) && e < |tab|
    ensures Linked(tab[e := tab[e].(refs := refs)], m)
  {
    var tab' := tab[e := tab[e].(refs := refs)];
    forall k | 0 <= k < |m.chain|
      ensures m.chain[k] < |tab| && tab'[m.chain[k]].kind == m.kind
      ensures tab'[m.chain[k]].next == if k + 1 < |m.chain| then m.chain[k+1] else 0
      ensures k > 0 ==> tab'[m.chain[k]].parent == m.chain[k-1]
    {
      LinkAt(tab, m, k);
    }
    LinkAt(tab, m, 0);
  }

  /** Appends a reference to the directory at `n` and counts it. A full one needs another entry. */
  method AddRefInEntry(d: Disk, n: nat, ref: nat, ghost m: Node) returns (r: Result<()>)
    requires Stored(d.table[..], m) && m.chain == [n] && m.kind.Dir?
    requires d.table.Length > 0 && !IsFree(d.table[..], 0)
    modifies d.table
    ensures m.size < REFS ==> r.Ok? && d.table[..] == old(d.table[..])[n := old(d.table[n]).(
      refs := old(d.table[n]).refs[m.size := ref], size := m.size + 1)]
    ensures m.size < REFS ==> Stored(d.table[..], WithItem(m, ref))
    ensures r.Ok? <==> m.size < REFS || FreeSet(old(d.table[..])) != {}
    ensures r.Err? ==> r.error.NoSpace? && d.table[..] == old(d.table[..])
    ensures m.size == REFS && r.Ok? ==>
      exists f :: IsFree(old(d.table[..]), f) && d.table[..] == Misfiled(old(d.table[..]), n, f, ref)
  {
    hide Stored, Linked, Resized, SizesSet, Misfiled;
    ghost var tab := d.table[..];
    HeadOf(tab, m);
    var entry := d.table[n];
    var refcount := RefCount(entry.kind, entry.size);
    var nref := GetNrefEntry(d, n, refcount, m);
    ghost var m1 := m;
    var at: nat := 0;
    if nref.Err? {
      var created;
      created, m1 := SetEntryRefcount(d, n, refcount + 1, m);
      if created.Err? { return created; }
      ResizedFacts(tab, d.table[..], m, m1, refcount + 1);
    } else {
      at := nref.value;
    }
    ghost var tab1 := d.table[..];
    var refentry := d.table[at];
    d.table[at] := refentry.(refs := refentry.refs[refcount % REFS := ref]);
    ghost var tab2 := d.table[..];
    assert tab2 == tab1[at := refentry.(refs := refentry.refs[refcount % REFS := ref])];
    LinkedRefs(tab1, m1, at, tab2[at].refs);
    if entry.kind.Dir? {
      r := SetEntrySize(d, n, entry.size + 1, m1);
    }
    if m.size < REFS {
      AddedRef(tab, d.table[..], m, ref);
    } else if r.Ok? {
      var f := FullRef(tab, tab1, d.table[..], m, m1, ref);
    }
  }

  /** The size recorded at position `k` counts the references from there on. */
  lemma RefsFrom(tab: Table, m: Node, k: nat)
    requires Stored(tab, m) && k < |m.chain|
    ensures m.chain[k] < |tab| && tab[m.chain[k]].kind == m.kind && !m.kind.Free?
    ensures RefCount(m.kind, tab[m.chain[k]].size) == |m.refs| - REFS * k
    ensures k + 1 < |m.chain| <==> |m.refs| - REFS * k > REFS
    ensures k + 1 < |m.chain| ==> m.chain[k+1] != 0
    ensures tab[m.chain[k]].next == if k + 1 < |m.chain| then m.chain[k+1] else 0
    ensures forall i :: 0 <= i < REFS && REFS * k + i < |m.refs| ==> tab[m.chain[k]].refs[i] == m.refs[REFS * k + i]
  {
    LinkAt(tab, m, k);
    hide Linked;
    assert tab[m.chain[k]].size == SizeFrom(m.kind, m.size, k);
  }

  /** `refs` with slots from `lo` to `hi` replaced by their right neighbours; zero follows the last. */
  function ShiftedLeft(refs: Refs, lo: nat, hi: nat): Refs
    requires lo <= hi <= REFS
  {
    refs[..lo] + seq(hi - lo, i requires 0 <= i < hi - lo => if lo + i + 1 < REFS then refs[lo+i+1] else 0) + refs[hi..]
  }

  lemma ShiftedNone(refs: Refs, q: nat)
    requires q <= REFS
    ensures ShiftedLeft(refs, q, q) == refs
  {}

  lemma ShiftedOnce(refs: Refs, q: nat, r: nat)
    requires q <= r < REFS
    ensures ShiftedLeft(refs, q, r)[r := if r + 1 < REFS then refs[r+1] else 0] == ShiftedLeft(refs, q, r + 1)
  {}

  ghost predicate Shifted(tab: Table, tab1: Table, tab': Table, m: Node, m1: Node, ref: nat, q: nat) {
    && Stored(tab, m) && m.kind.Dir? && |m.chain| == 1 && m.chain[0] < |tab|
    && q < |m.refs| && m.refs[q] == ref && ref !in m.refs[..q]
    && (var n := m.chain[0];
        Resized(tab[n := tab[n].(refs := ShiftedLeft(tab[n].refs, q, m.size))], tab1, m, m1, m.size - 1))
    && SizesSet(tab1, tab', m1, m.size - 1, |m1.chain|)
  }

  lemma RemovedSlots(tab: Table, tab1: Table, tab': Table, m: Node, m1: Node, ref: nat, q: nat)
    requires Shifted(tab, tab1, tab', m, m1, ref, q)
    ensures m.chain[0] < |tab'|
    ensures var refs := tab'[m.chain[0]].refs;
      forall i :: 0 <= i < REFS ==> refs[i] == if i < m.size - 1 then (m.refs[..q] + m.refs[q+1..])[i] else 0
  {
    var n := m.chain[0];
    assert m.chain == [n] && m1.chain == [n];
    RefsFrom(tab, m, 0);
    hide Linked, Rechained, Stored;
    var refs := tab'[m1.chain[0]].refs;
    assert refs == tab1[m1.chain[0]].refs;
    forall i | 0 <= i < REFS
      ensures refs[i] == if i < m.size - 1 then (m.refs[..q] + m.refs[q+1..])[i] else 0
    {
      assert tab1[m1.chain[0]].refs[i] == if i < m.size - 1 then ShiftedLeft(tab[n].refs, q, m.size)[i] else 0;
    }
  }

  lemma RemovedRef(tab: Table, tab1: Table, tab': Table, m: Node, m1: Node, ref: nat, q: nat)
    requires Shifted(tab, tab1, tab', m, m1, ref, q)
    ensures Stored(tab', WithoutItem(m, ref)) && SameOutside(tab, tab', m.chain, m.chain)
    ensures SameTags(tab'[m.chain[0]], tab[m.chain[0]])
  {
    var n := m.chain[0];
    assert m.chain == [n] && m1.chain == [n];
    WithoutAt(m.refs, ref, q);
    RemovedSlots(tab, tab1, tab', m, m1, ref, q);
    hide ShiftedLeft, SlotAfter;
    assert tab'[m1.chain[0]] == tab1[m1.chain[0]].(size := SizeFrom(m.kind, m.size - 1, 0));
  }

  ghost predicate InChain(tab: Table, c: seq<nat>, e: Entry) {
    exists k :: 0 <= k < |c| && c[k] < |tab| && e == tab[c[k]]
  }

  lemma ChainStart(tab: Table, m: Node, k: nat)
    requires k < |m.chain| && m.chain[k] < |tab|
    ensures InChain(tab, m.chain, tab[m.chain[k]])
  {}

  lemma ChainNext(tab: Table, m: Node, e: Entry)
    requires Stored(tab, m) && InChain(tab, m.chain, e) && e.next != 0
    ensures e.next < |tab| && InChain(tab, m.chain, tab[e.next])
  {
    var k :| 0 <= k < |m.chain| && m.chain[k] < |tab| && e == tab[m.chain[k]];
    LinkAt(tab, m, k);
    LinkAt(tab, m, k + 1);
  }

  /** References from the k-th entry on, up to slot `r` of the j-th, are others. */
  ghost predicate NotYet(m: Node, k: nat, j: nat, r: nat, ref: nat) {
    k <= j && REFS * j + r <= |m.refs| && forall i :: REFS * k <= i < REFS * j + r ==> m.refs[i] != ref
  }

  /** `ref` is at `q`, and `cur` is the only entry with the references from `q` to `r` moved down. */
  ghost predicate Moving(tab: Table, m: Node, n: nat, q: nat, r: nat, cur: Entry, ref: nat) {
    && |m.chain| == 1 && n < |tab| && q <= r <= |m.refs| && r <= REFS
    && q < |m.refs| && m.refs[q] == ref && ref !in m.refs[..q]
    && cur == tab[n].(refs := ShiftedLeft(tab[n].refs, q, r))
  }

  lemma NotYetStart(m: Node, k: nat, ref: nat)
    ensures REFS * k <= |m.refs| ==> NotYet(m, k, k, 0, ref)
  {}

  lemma NotYetNext(m: Node, k: nat, j: nat, r: nat, ref: nat)
    requires NotYet(m, k, j, r, ref) && REFS * j + r < |m.refs| && m.refs[REFS * j + r] != ref
    ensures NotYet(m, k, j, r + 1, ref)
  {}

  lemma NotYetEntry(m: Node, k: nat, j: nat, ref: nat)
    requires NotYet(m, k, j, REFS, ref)
    ensures NotYet(m, k, j + 1, 0, ref)
  {}

  lemma MovingStart(tab: Table, m: Node, n: nat, k: nat, j: nat, r: nat, cur: Entry, ref: nat)
    requires NotYet(m, k, j, r, ref) && |m.chain| == 1 && k == j == 0 && r < |m.refs| && r < REFS && m.refs[r] == ref
    requires n < |tab| && cur == tab[n]
    ensures Moving(tab, m, n, r, r, cur, ref)
  {
    ShiftedNone(tab[n].refs, r);
  }

  lemma MovingOn(tab: Table, m: Node, n: nat, q: nat, r: nat, cur: Entry, ref: nat)
    requires Moving(tab, m, n, q, r, cur, ref) && r < |m.refs| && r < REFS
    ensures Moving(tab, m, n, q, r + 1, cur.(refs := cur.refs[r := if r + 1 < REFS then tab[n].refs[r+1] else 0]), ref)
    ensures n < |tab|
  {
    hide ShiftedLeft;
    ShiftedOnce(tab[n].refs, q, r);
  }

  lemma SearchEnds(m: Node, k: nat, j: nat, r: nat, ref: nat)
    requires NotYet(m, k, j, r, ref) && REFS * j + r == |m.refs|
    requires k == 0 || ref !in m.refs
    ensures ref !in m.refs
  {}

  lemma MovingEnds(tab: Table, m: Node, n: nat, q: nat, r: nat, cur: Entry, ref: nat, found: bool)
    ensures found && Moving(tab, m, n, q, r, cur, ref) && r == |m.refs| ==>
      && n < |tab| && q < |m.refs| <= REFS && m.refs[q] == ref && ref !in m.refs[..q]
      && cur == tab[n].(refs := ShiftedLeft(tab[n].refs, q, |m.refs|))
  {}

  /** The search loop of `RemoveRefInEntry`: looks for `ref` from the chain entry at `n` on and,
      once found, moves the references behind it one slot down in the local copy `cur`. */
  method ShiftOut(d: Disk, n: nat, ref: nat, ghost m: Node, ghost k: nat)
    returns (found: bool, at: nat, cur: Entry, refcount: nat, ghost q: nat)
    requires Stored(d.table[..], m) && k < |m.chain| && n == m.chain[k]
    requires m.kind.Dir? ==> |m.chain| == 1
    requires m.kind.File? ==> ref !in m.refs
    modifies d.table
    ensures d.table[..] == old(d.table[..])
    ensures found <==> ref in m.refs
    ensures found ==>
      && at == n && refcount == |m.refs| && n < |d.table[..]| && m.chain == [n]
      && q < |m.refs| <= REFS && m.refs[q] == ref && ref !in m.refs[..q]
      && cur == d.table[..][n].(refs := ShiftedLeft(d.table[..][n].refs, q, |m.refs|))
  {
    hide Stored, ShiftedLeft, InChain, RefCount, NotYet, Moving;
    ghost var tab := d.table[..];
    NotYetStart(m, k, ref);
    RefsFrom(tab, m, k);
    assert InChain(tab, m.chain, tab[n]) by { ChainStart(tab, m, k); }
    var entry := d.table[n];
    cur := entry;
    var nextentry := entry;
    refcount := RefCount(entry.kind, entry.size);
    found, at := false, n;
    q := 0;
    var r := 0;
    ghost var j := k;
    while r < refcount
      invariant d.table[..] == tab
      invariant k <= j < |m.chain| && at == m.chain[j] && (|m.chain| == 1 ==> j == 0)
      invariant refcount == |m.refs| - REFS * j && 0 <= r <= refcount && r <= REFS
      invariant !found ==> at < |tab| && cur == tab[at] && NotYet(m, k, j, r, ref)
      invariant found ==> |m.chain| == 1 && n < |tab| && q < r && Moving(tab, m, n, q, r, cur, ref)
      invariant InChain(tab, m.chain, nextentry) || nextentry == ZeroEntry()
      invariant |m.chain| == 1 && r < REFS ==> n < |tab| && nextentry == tab[n]
      decreases refcount - r
    {
      RefsFrom(tab, m, j);
      if r == REFS {
        d.table[at] := cur;
        assert d.table[..] == tab;
        RefsFrom(tab, m, j + 1);
        at := cur.next;
        cur := d.table[at];
        r := 0;
        refcount := RefCount(cur.kind, cur.size);
        if !found { NotYetEntry(m, k, j, ref); }
        j := j + 1;
      } else if r + 1 == REFS {
        if nextentry.next != 0 {
          ChainNext(tab, m, nextentry);
          nextentry := d.table[nextentry.next];
        } else {
          nextentry := ZeroEntry();
        }
      }
      if !found {
        if cur.refs[r] == ref {
          MovingStart(tab, m, n, k, j, r, cur, ref);
        } else {
          NotYetNext(m, k, j, r, ref);
        }
      }
      if !found && cur.refs[r] == ref {
        found := true;
        q := r;
      }
      if found {
        MovingOn(tab, m, n, q, r, cur, ref);
        cur := cur.(refs := cur.refs[r := nextentry.refs[(r + 1) % REFS]]);
      }
      r := r + 1;
    }
    if !found { SearchEnds(m, k, j, r, ref); }
    MovingEnds(tab, m, n, q, r, cur, ref, found);
  }

  /** Takes a reference out of a directory. From a file entry, where a chained entry is looked for
      among block numbers, nothing is removed. */
  method RemoveRefInEntry(d: Disk, n: nat, ref: nat, ghost m: Node, ghost k: nat) returns (r: Result<()>)
    requires Stored(d.table[..], m) && k < |m.chain| && n == m.chain[k]
    requires m.kind.Dir? ==> |m.chain| == 1
    requires m.kind.File? ==> ref !in m.refs
    requires !IsFree(d.table[..], 0)
    modifies d.table
    ensures r.Ok?
    ensures ref !in m.refs ==> d.table[..] == old(d.table[..])
    ensures ref in m.refs ==>
      && m.size > 0 && m.chain == [n] && n < d.table.Length
      && Stored(d.table[..], WithoutItem(m, ref))
      && SameOutside(old(d.table[..]), d.table[..], m.chain, m.chain)
      && SameTags(d.table[n], old(d.table[n]))
  {
    hide Stored, Linked, Resized, SizesSet, SameOutside;
    ghost var tab := d.table[..];
    HeadOf(tab, m);
    RefsFrom(tab, m, k);
    var entry := d.table[n];
    var found, at, cur, refcount, q := ShiftOut(d, n, ref, m, k);
    if found {
      d.table[at] := cur;
      assert d.table[..] == tab[n := cur];
      LinkedRefs(tab, m, n, cur.refs);
      var ok, m1 := SetEntryRefcount(d, n, refcount - 1, m);
      ghost var tab1 := d.table[..];
      ResizedFacts(tab[n := cur], tab1, m, m1, refcount - 1);
      if entry.kind.Dir? {
        ok := SetEntrySize(d, n, refcount - 1, m1);
      }
      RemovedRef(tab, tab1, d.table[..], m, m1, ref, q);
    }
    return Ok(());
  }

  /** The entries of chain `c` carry time `now`; nothing else differs from `tab`. */
  ghost predicate Timed(tab: Table, tab': Table, c: seq<nat>, now: nat) {
    && |tab'| == |tab|
    && forall e :: 0 <= e < |tab| ==> tab'[e] == if e in c then tab[e].(time := now) else tab[e]
  }

  /** Stamps every entry of a chain. */
  method SetEntryTime(d: Disk, n: nat, now: nat, ghost m: Node) returns (r: Result<()>)
    requires Linked(d.table[..], m) && n == m.chain[0]
    modifies d.table
    ensures r.Ok?
    ensures Timed(old(d.table[..]), d.table[..], m.chain, now)
  {
    hide Linked;
    ghost var tab := d.table[..];
    NotExtended(tab, m);
    var at := n;
    ghost var k := 0;
    while true
      invariant 0 <= k < |m.chain| && at == m.chain[k]
      invariant Timed(tab, d.table[..], m.chain[..k], now)
      decreases |m.chain| - k
    {
      LinkAt(tab, m, k);
      LinkBefore(tab, m, k);
      ghost var before := d.table[..];
      d.table[at] := d.table[at].(time := now);
      assert d.table[..] == before[at := before[at].(time := now)];
      assert m.chain[..k+1] == m.chain[..k] + [at];
      var next := d.table[at].next;
      if at == next && at != 0 {
        return Err(Io);
      }
      at := next;
      k := k + 1;
      if at == 0 { break; }
    }
    assert m.chain[..k] == m.chain;
    return Ok(());
  }

  lemma LinkBefore(tab: Table, m: Node, k: nat)
    requires Linked(tab, m) && k < |m.chain|
    ensures m.chain[k] !in m.chain[..k]
    ensures m.chain[k] < |tab|
    ensures tab[m.chain[k]].next == m.chain[k] ==> m.chain[k] == 0
  {
    LinkAt(tab, m, k);
    if k + 1 < |m.chain| { LinkDistinct(tab, m, k, k + 1); }
  }

  lemma StoredTimed(tab: Table, tab': Table, c: seq<nat>, now: nat, m: Node)
    requires Timed(tab, tab', c, now) && Stored(tab, m)
    ensures Stored(tab', m)
  {
    forall k | 0 <= k < |m.chain|
      ensures m.chain[k] < |tab| && SameButTime(tab'[m.chain[k]], tab[m.chain[k]])
    {}
    hide Timed;
  }

  predicate SameButTime(e': Entry, e: Entry) {
    e' == e.(time := e'.time)
  }

  /** Times play no part in what a table stores. */
  lemma RepresentsTimed(tab: Table, tab': Table, c: seq<nat>, now: nat, fs: FS)
    requires Timed(tab, tab', c, now) && Represents(tab, fs)
    ensures Represents(tab', fs)
  {
    hide Stored, Timed;
    forall h | h in fs ensures Stored(tab', fs[h]) { StoredTimed(tab, tab', c, now, fs[h]); }
    forall e | 0 <= e < |tab'| && !tab'[e].kind.Free? ensures exists h :: Owns(fs, h, e) {
      TimedAt(tab, tab', c, now, e);
    }
  }

  lemma TimedAt(tab: Table, tab': Table, c: seq<nat>, now: nat, e: nat)
    requires Timed(tab, tab', c, now) && e < |tab'|
    ensures |tab| == |tab'| && tab'[e].kind == tab[e].kind
  {}
}
