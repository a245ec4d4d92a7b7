/** Making a new file: where it appears, and what becomes of the file system. */
module Creating {
  import opened Entries
  import opened Layout
  import opened Trees
  import opened Tables
  import opened Directories
  import opened Growth
  import opened Limits
  import opened Sizing

  /** The lowest free entry. */
  ghost predicate FirstFreeEntry(tab: Table, n: nat) {
    IsFree(tab, n) && forall e :: 0 <= e < n ==> !IsFree(tab, e)
  }

  /** Files and directories once the new file is there: listed last in its directory, or, when that is full,
      in the wrong place. */
  ghost function Listing(fs: FS, n: nat, m: Node, f: nat): FS
    requires m.parent in fs
  {
    if Extra(fs, m.parent) == 0 then Placed(fs, n, m) else Overfull(fs[n := m], m.parent, f, n)
  }

  /** The files when a write begins to store data: as they were, or with the new empty file. */
  ghost function Prepared(fs: FS, n: nat, f: nat, parent: nat, path: string): FS
    requires parent in fs
  {
    if n in fs then fs else Listing(fs, n, NewNode(File, Normal(path), parent, n), f)
  }

  // ----- what the new file changes -----

  lemma NewFileStored(tab: Table, n: nat, name: string, parent: nat)
    requires n < |tab|
    ensures var tab' := tab[n := Entry(File, name, 0, 0, parent, 0, NoRefs())];
      && Stored(tab', NewNode(File, name, parent, n))
      && Padded(tab', NewNode(File, name, parent, n)) && SameNames(tab', NewNode(File, name, parent, n))
  {}

  lemma NewFileKept(tab1: Table, tab2: Table, m: Node, n: nat)
    requires m == NewNode(File, m.name, m.parent, n) && Padded(tab1, m) && SameNames(tab1, m)
    requires n < |tab1| == |tab2| && tab2[n] == tab1[n]
    ensures Padded(tab2, m) && SameNames(tab2, m)
  {}

  /** What listing a new file leaves of each item. */
  lemma ListingAt(fs: FS, n: nat, m: Node, f: nat, h: nat)
    requires n !in fs && m.parent in fs && fs[m.parent].kind.Dir? && m.kind.File? && 0 in fs && fs[0].kind.Dir?
    ensures var fs' := Listing(fs, n, m, f);
      && (h in fs' <==> h in fs || h == n)
      && (h in fs ==> fs'[h].kind == fs[h].kind && fs'[h].name == fs[h].name && fs'[h].parent == fs[h].parent)
      && (h in fs && fs[h].kind.File? ==> fs'[h] == fs[h])
      && fs'[n] == m
      && (h in fs && h != m.parent ==> fs'[h].chain == fs[h].chain)
      && fs'[m.parent].chain == if Extra(fs, m.parent) == 0 then fs[m.parent].chain else fs[m.parent].chain + [f]
  {
    PlacedAt(fs, n, m, h);
    PlacedAt(fs, n, m, n);
    PlacedAt(fs, n, m, m.parent);
    hide Placed;
  }

  lemma ListingBlocks(fs: FS, n: nat, m: Node, f: nat, lo: nat, hi: nat)
    requires n !in fs && m.parent in fs && fs[m.parent].kind.Dir? && m == NewNode(File, m.name, m.parent, n)
    requires 0 in fs && fs[0].kind.Dir? && BlocksOk(fs, lo, hi)
    ensures BlocksOk(Listing(fs, n, m, f), lo, hi)
    ensures |Unused(Listing(fs, n, m, f), lo, hi)| == |Unused(fs, lo, hi)|
  {
    hide Listing;
    var fs' := Listing(fs, n, m, f);
    ListingAt(fs, n, m, f, n);
    forall h: nat
      ensures h in fs' && fs'[h].kind.File? && h != n ==> h in fs && fs[h] == fs'[h]
      ensures h in fs && fs[h].kind.File? ==> h in fs' && fs'[h] == fs[h] && h != n
    {
      ListingAt(fs, n, m, f, h);
    }
    forall h: nat, b: nat ensures UsesBlock(fs', h, b) <==> UsesBlock(fs, h, b) {}
    forall b: nat ensures InUse(fs', b) <==> InUse(fs, b) {
      if h: nat :| UsesBlock(fs, h, b) { assert UsesBlock(fs', h, b); }
    }
    assert Unused(fs', lo, hi) == Unused(fs, lo, hi);
  }

  /** A new file takes its own entry, and another one when its directory is full. */
  lemma ListingEntries(tab: Table, tab1: Table, tab2: Table, fs: FS, n: nat, m: Node, f: nat)
    requires n !in fs && m.parent in fs && fs[m.parent].kind.Dir? && m == NewNode(File, m.name, m.parent, n)
    requires 0 in fs && fs[0].kind.Dir? && |tab| == |tab1| == |tab2|
    requires Represents(tab, fs) && Represents(tab1, fs[n := m]) && Represents(tab2, Listing(fs, n, m, f))
    ensures |FreeSet(tab)| == |FreeSet(tab2)| + 1 + Extra(fs, m.parent)
  {
    hide Represents, Listing, FreeSet;
    var fs1, fs2, p := fs[n := m], Listing(fs, n, m, f), m.parent;
    OneEntry(tab, tab1, fs, n, m);
    forall h: nat ensures h in fs2 <==> h in fs1
      ensures h in fs1 && h != p ==> fs2[h].chain == fs1[h].chain
    {
      ListingAt(fs, n, m, f, h);
    }
    ListingAt(fs, n, m, f, p);
    assert SameChains(fs1, fs2, p);
    EntriesConserved(tab1, fs1, tab2, fs2, p);
  }

  /** The tree is well formed afterwards exactly when the directory has a free slot and none of its items
      has the name. */
  lemma ListingOk(fs: FS, n: nat, m: Node, f: nat, lo: nat, hi: nat)
    requires WellFormed(fs, lo, hi) && n !in fs && m == NewNode(File, m.name, m.parent, n)
    requires m.parent in fs && fs[m.parent].kind.Dir?
    ensures TreeOk(Listing(fs, n, m, f), {}) <==>
      |fs[m.parent].refs| < REFS && forall h :: !IsItem(fs, h, m.parent, m.name)
  {
    hide WellFormed, TreeOk, BlocksOk, Placed;
    WellFormedTree(fs, lo, hi);
    RootParts(fs);
    if Extra(fs, m.parent) > 0 {
      OverfullBroken(fs, n, m, f);
    } else if h :| IsItem(fs, h, m.parent, m.name) {
      NameTaken(fs, n, m, h);
      NamesNeeded(Placed(fs, n, m));
    } else {
      forall h | h in fs && fs[h].parent == m.parent ensures fs[h].name != m.name {
        assert !IsItem(fs, h, m.parent, m.name);
      }
      CreatedOk(fs, n, m, lo, hi);
      WellFormedTree(Placed(fs, n, m), lo, hi);
    }
  }

  lemma WellFormedTree(fs: FS, lo: nat, hi: nat)
    requires WellFormed(fs, lo, hi)
    ensures TreeOk(fs, {}) && BlocksOk(fs, lo, hi)
  {}

  lemma NamesNeeded(fs: FS)
    requires !NamesOk(fs)
    ensures !TreeOk(fs, {})
  {}

  lemma OverfullBroken(fs: FS, n: nat, m: Node, f: nat)
    requires n !in fs && m.parent in fs && fs[m.parent].kind.Dir? && |fs[m.parent].refs| >= REFS
    ensures !TreeOk(Overfull(fs[n := m], m.parent, f, n), {})
  {
    hide RootOk, ParentsExist, Listed, NamesOk, Acyclic;
    var fs', p := Overfull(fs[n := m], m.parent, f, n), m.parent;
    assert p in fs' && fs'[p].kind.Dir? && |fs'[p].refs| > REFS;
    assert !ItemsOk(fs', p);
  }

  lemma RootBusy(fs: FS, p: nat)
    requires TreeOk(fs, {}) && p in fs && fs[p].refs != []
    ensures 0 in fs && fs[0].kind.Dir? && fs[0].refs != []
  {
    if p != 0 { RootNotEmpty(fs, p); }
  }

  /** What the table stores once the parent lists the new file. */
  lemma FileListed(tab1: Table, tab2: Table, fs: FS, n: nat, m: Node) returns (f: nat)
    requires n !in fs && m == NewNode(File, m.name, m.parent, n) && TreeOk(fs, {})
    requires m.parent in fs && fs[m.parent].kind.Dir? && fs[m.parent].chain == [m.parent] && m.parent < |tab1| == |tab2|
    requires fs[m.parent].size == |fs[m.parent].refs| <= REFS
    requires fs[m.parent].size < REFS ==>
      tab2 == tab1[m.parent := tab2[m.parent]] && Stored(tab2, WithItem(fs[m.parent], n))
    requires fs[m.parent].size == REFS ==>
      0 < |tab1| && n < |tab1| && exists f :: IsFree(tab1, f) && tab2 == Misfiled(tab1, m.parent, f, n)
    requires Represents(tab1, fs[n := m])
    ensures Represents(tab2, Listing(fs, n, m, f)) && n < |tab1| && tab2[n] == tab1[n]
  {
    hide Represents, Stored, TreeOk, Misfiled, Placed, Overfull;
    f := 0;
    HeadStored(tab1, fs[n := m], n);
    if fs[m.parent].size < REFS {
      PlacedRepresented(tab1, tab2, fs, n, m);
    } else {
      f :| IsFree(tab1, f) && tab2 == Misfiled(tab1, m.parent, f, n);
      RootBusy(fs, m.parent);
      OverfullRepresented(tab1, fs[n := m], m.parent, f, n);
      MisfiledElsewhere(tab1, m.parent, f, n, n);
    }
  }

  lemma MisfiledElsewhere(tab: Table, p: nat, f: nat, n: nat, e: nat)
    requires 0 < |tab| && p < |tab| && f < |tab| && n < |tab| && e < |tab| && e != p && e != f && e != 0
    ensures |Misfiled(tab, p, f, n)| == |tab| && Misfiled(tab, p, f, n)[e] == tab[e]
  {}

  lemma LooseBlocks(fs: FS, n: nat, m: Node, lo: nat, hi: nat)
    requires BlocksOk(fs, lo, hi) && n !in fs && m.refs == []
    ensures BlocksOk(fs[n := m], lo, hi)
  {
    var fs' := fs[n := m];
    assert forall h: nat, b: nat :: UsesBlock(fs', h, b) ==> UsesBlock(fs, h, b);
  }

  lemma ValidUsable(d: Disk)
    requires d.Valid()
    ensures d.Usable()
  {
    hide Represents, BlocksOk, DirsOk, ParentsExist, Listed, NamesOk, Acyclic;
  }

  // ----- making it -----

  /** The part of a write that creates the file: it appears empty and last in its directory, whether or not an
      item of that name is there already. In a full directory it ends up in the wrong place, or, when there is no
      entry to extend the directory, nowhere. */
  method CreateFile(d: Disk, parent: nat, path: string) returns (r: Result<nat>, ghost f: nat)
    requires d.Valid() && parent in d.fs && d.fs[parent].kind.Dir?
    modifies d`fs, d.table
    ensures d.Usable()
    ensures r.Ok? ==> Made(old(d.table[..]), old(d.fs), d.table[..], d.fs, r.value, f, parent, path)
    ensures r.Ok? ==>
      |Unused(d.fs, d.FirstData(), d.blocks.Length)| == |Unused(old(d.fs), d.FirstData(), d.blocks.Length)|
    ensures r.Ok? ==>
      (d.Valid() <==> Extra(old(d.fs), parent) == 0 && forall h :: !IsItem(old(d.fs), h, parent, Normal(path)))
    ensures r.Ok? <==> |FreeSet(old(d.table[..]))| > Extra(old(d.fs), parent)
    ensures r.Err? ==> r.error.NoSpace?
    ensures r.Err? ==>
      if FreeSet(old(d.table[..])) == {} then d.fs == old(d.fs) && d.table[..] == old(d.table[..])
      else LooseFile(old(d.table[..]), old(d.fs), d.fs, parent, path)
  {
    hide Represents, DirsOk, NamesOk, Acyclic, BlocksOk, ParentsExist, Listed, Stored, Placed, SameOutside, Linked,
      Padded, SameNames, Misfiled, FreeSet, Unused, Listing;
    ghost var tab, fs, lo, hi := d.table[..], d.fs, d.FirstData(), d.blocks.Length;
    f := 0;
    var name := StringToName(path);
    var free := FindFreeEntry(d);
    SomeFree(tab);
    if free.Err? { return Err(NoSpace), f; }
    var n := free.value;
    FreshItem(tab, fs, n);
    DirStored(tab, fs, parent);
    RootInUse(tab, fs);

    ghost var m := NewNode(File, name, parent, n);
    d.table[n] := Entry(File, name, 0, 0, parent, 0, NoRefs());
    ghost var tab1 := d.table[..];
    NewFileStored(tab, n, name, parent);
    NewRepresented(tab, tab1, fs, n, m);
    OneEntry(tab, tab1, fs, n, m);
    HeadStored(tab1, fs[n := m], parent);
    RootInUse(tab1, fs[n := m]);

    // The parent lists the new file
    var ok := AddRefInEntry(d, parent, n, fs[parent]);
    if ok.Err? {
      d.fs := fs[n := m];
      LooseBlocks(fs, n, m, lo, hi);
      return Err(NoSpace), f;
    }
    f := FileListed(tab1, d.table[..], fs, n, m);
    d.fs := Listing(fs, n, m, f);
    ListingAt(fs, n, m, f, 0);
    ListingAt(fs, n, m, f, n);
    ListingBlocks(fs, n, m, f, lo, hi);
    ListingEntries(tab, tab1, d.table[..], fs, n, m, f);
    ListingOk(fs, n, m, f, lo, hi);
    NewFileKept(tab1, d.table[..], m, n);
    return Ok(n), f;
  }

  /** The new file is at the first free entry, empty and without old references in its slots. */
  ghost predicate Made(tab: Table, fs: FS, tab': Table, fs': FS, n: nat, f: nat, parent: nat, path: string) {
    && parent in fs && FirstFreeEntry(tab, n) && n !in fs && n in fs'
    && fs' == Prepared(fs, n, f, parent, path)
    && fs'[n] == NewNode(File, Normal(path), parent, n)
    && Padded(tab', fs'[n]) && SameNames(tab', fs'[n])
    && |FreeSet(tab)| == |FreeSet(tab')| + 1 + Extra(fs, parent)
  }

  /** The new file is stored but not listed anywhere. */
  ghost predicate LooseFile(tab: Table, fs: FS, fs': FS, parent: nat, path: string) {
    exists n :: FirstFreeEntry(tab, n) && n !in fs && fs' == fs[n := NewNode(File, Normal(path), parent, n)]
  }
}
