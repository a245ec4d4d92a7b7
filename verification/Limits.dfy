/** What the operations do outside the conditions they silently rely on. */
module Limits {
  import opened Entries
  import opened Layout
  import opened Trees
  import opened Tables
  import opened Directories
  import opened Growth

  /** Under an empty root there is nothing else. */
  lemma RootAlone(tab: Table, fs: FS, e: nat)
    requires Represents(tab, fs) && TreeOk(fs, {}) && fs[0].refs == [] && e < |tab| && !IsFree(tab, e)
    ensures e == 0
  {
    hide TreeOk, Stored;
    var h :| Owns(fs, h, e);
    if h != 0 { RootNotEmpty(fs, h); }
    assert DirsOk(fs) && fs[0].kind.Dir? by { RootParts(fs); }
    DirStored(tab, fs, 0);
  }

  lemma RootParts(fs: FS)
    requires TreeOk(fs, {})
    ensures DirsOk(fs) && 0 in fs && fs[0].kind.Dir?
  {}

  /** A well-formed tree keeps its root in a head entry of its own kind and reads the items off it. */
  lemma RootEntry(tab: Table, fs: FS)
    requires Represents(tab, fs) && RootOk(fs) && DirsOk(fs)
    ensures 0 < |tab| && tab[0].size == |fs[0].refs| <= REFS && !IsFree(tab, 0)
    ensures tab[0].size > 0 ==> tab[0].refs[0] == fs[0].refs[0] && fs[0].refs[0] in fs && fs[fs[0].refs[0]].parent == 0
  {
    assert ItemsOk(fs, 0) by { assert fs[0].kind.Dir?; }
    hide Represents, DirsOk, Stored, Linked;
    HeadStored(tab, fs, 0);
    HeadOf(tab, fs[0]);
    RefsFrom(tab, fs[0], 0);
    if tab[0].size > 0 { assert fs[0].refs[0] in fs[0].refs; }
  }

  lemma MisfiledAt(tab: Table, n: nat, f: nat, ref: nat)
    requires 0 < |tab| && n < |tab| && f < |tab| && f != n && f != 0 && ref < |tab| && ref != f
    ensures |Misfiled(tab, n, f, ref)| == |tab|
    ensures Misfiled(tab, n, f, ref)[0].size == tab[0].size + if n == 0 then 1 else 0
    ensures Misfiled(tab, n, f, ref)[0].refs[0] == ref
    ensures Misfiled(tab, n, f, ref)[ref].parent == tab[ref].parent
    ensures Misfiled(tab, n, f, ref)[ref].kind == tab[ref].kind
  {}

  lemma MisfiledRoot(tab: Table, n: nat, f: nat, ref: nat, fs': FS, lo: nat, hi: nat)
    requires 0 < |tab| && n < |tab| && ref < |tab|
    requires IsFree(tab, f) && !IsFree(tab, n) && !IsFree(tab, 0) && !IsFree(tab, ref)
    requires (n == 0 ==> tab[0].size == REFS) && ref != 0 && tab[ref].parent == n
    requires Represents(Misfiled(tab, n, f, ref), fs')
    ensures !WellFormed(fs', lo, hi)
  {
    hide Represents, Misfiled, DirsOk;
    MisfiledAt(tab, n, f, ref);
    if WellFormed(fs', lo, hi) {
      RootEntry(Misfiled(tab, n, f, ref), fs');
      if tab[0].size == 0 {
        RootAlone(Misfiled(tab, n, f, ref), fs', ref);
      } else if n != 0 {
        HeadStored(Misfiled(tab, n, f, ref), fs', ref);
      }
      assert false;
    }
  }

  lemma DirSize(tab: Table, fs: FS, h: nat)
    requires Represents(tab, fs) && h in fs && fs[h].kind.Dir?
    ensures h < |tab| && tab[h].size == |fs[h].refs| && !IsFree(tab, h)
  {
    hide Represents, Stored, Linked;
    HeadStored(tab, fs, h);
    HeadOf(tab, fs[h]);
  }

  /** Adding an item to a directory that already holds 120 leaves a table that stores no well-formed
      file system: the item ends up in the first slot of the root. */
  lemma FullDirectoryBroken(tab: Table, fs: FS, n: nat, f: nat, ref: nat, m: Node, fs': FS, lo: nat, hi: nat)
    requires TreeOk(fs, {}) && n in fs && fs[n].kind.Dir? && |fs[n].refs| == REFS
    requires ref !in fs && m.parent == n
    requires Represents(tab, fs[ref := m]) && IsFree(tab, f) && n < |tab|
    requires Represents(Misfiled(tab, n, f, ref), fs')
    ensures !WellFormed(fs', lo, hi)
  {
    hide TreeOk, WellFormed, Represents, Stored, Linked, Misfiled, IsFree, RootOk;
    RootParts(fs);
    DirSize(tab, fs[ref := m], n);
    DirSize(tab, fs[ref := m], 0);
    HeadStored(tab, fs[ref := m], ref);
    MisfiledRoot(tab, n, f, ref, fs', lo, hi);
  }

  /** So a directory created in a full one leaves no well-formed file system, whichever way it fails. */
  lemma CreatedInFull(tab: Table, fs: FS, n: nat, m: Node, fs': FS, lo: nat, hi: nat)
    requires TreeOk(fs, {}) && m.parent in fs && fs[m.parent].kind.Dir? && |fs[m.parent].refs| == REFS && n !in fs
    requires Misplaced(tab, fs[n := m], m.parent, n) && Represents(tab, fs')
    ensures !WellFormed(fs', lo, hi)
  {
    hide TreeOk, WellFormed, Represents, Misfiled, IsFree;
    var tab1: Table, f: nat :|
      && Represents(tab1, fs[n := m]) && IsFree(tab1, f) && n < |tab1| && m.parent < |tab1| && f < |tab1|
      && tab == Misfiled(tab1, m.parent, f, n);
    FullDirectoryBroken(tab1, fs, m.parent, f, n, m, fs', lo, hi);
  }

  /** Nor does an item moved into a full directory. */
  lemma MovedIntoFull(tab: Table, fs: FS, n: nat, m: Node, fs': FS, lo: nat, hi: nat)
    requires TreeOk(fs, {}) && n in fs && n != 0 && fs[n].parent in fs && m.kind == fs[n].kind && m.chain == fs[n].chain
    requires m.parent in fs && fs[m.parent].kind.Dir? && !HasSlot(fs, fs[n].parent, m.parent)
    requires |fs[m.parent].refs| == REFS
    requires Misplaced(tab, Between(fs, n, m), m.parent, n) && Represents(tab, fs')
    ensures !WellFormed(fs', lo, hi)
  {
    hide TreeOk, WellFormed, Represents, Misfiled, IsFree, Unlisted, Stored, Linked, RootOk;
    var fs2 := Between(fs, n, m);
    var tab1: Table, f: nat :| Represents(tab1, fs2) && IsFree(tab1, f) && n < |tab1| && m.parent < |tab1|
      && f < |tab1| && tab == Misfiled(tab1, m.parent, f, n);
    RootParts(fs);
    UnlistedAt(fs, n, 0);
    UnlistedAt(fs, n, m.parent);
    DirSize(tab1, fs2, 0);
    HeadStored(tab1, fs2, m.parent);
    HeadStored(tab1, fs2, n);
    MisfiledRoot(tab1, m.parent, f, n, fs', lo, hi);
  }

  /** An item that its parent does not list breaks the tree. */
  lemma LooseBroken(fs: FS, n: nat, lo: nat, hi: nat)
    requires n in fs && n != 0 && fs[n].parent in fs && n !in fs[fs[n].parent].refs
    ensures !WellFormed(fs, lo, hi)
  {
    hide NamesOk, Acyclic, BlocksOk, ParentsExist, DirsOk;
  }

  /** When there is no entry to extend the full directory, the new one stays unlisted. */
  lemma CreatedLoose(fs: FS, n: nat, m: Node, lo: nat, hi: nat)
    requires WellFormed(fs, lo, hi) && m.parent in fs && fs[m.parent].kind.Dir? && n !in fs
    ensures !WellFormed(fs[n := m], lo, hi)
  {
    hide NamesOk, Acyclic, BlocksOk, ParentsExist;
    assert ItemsOk(fs, m.parent);
    LooseBroken(fs[n := m], n, lo, hi);
  }

  /** A moved item is then listed nowhere either. */
  lemma MovedLoose(fs: FS, n: nat, m: Node, lo: nat, hi: nat)
    requires WellFormed(fs, lo, hi) && n in fs && n != 0 && fs[n].parent in fs && m.refs == fs[n].refs
    requires m.kind == fs[n].kind
    requires m.parent in fs && fs[m.parent].kind.Dir? && !HasSlot(fs, fs[n].parent, m.parent)
    ensures !WellFormed(Between(fs, n, m), lo, hi)
  {
    hide NamesOk, BlocksOk, ParentsExist;
    assert ItemsOk(fs, m.parent);
    ParentDiffers(fs, n);
    UnlistedAt(fs, n, m.parent);
    UnlistedAt(fs, n, n);
    LooseBroken(Between(fs, n, m), n, lo, hi);
  }

  /** A new item under a name that is taken makes two items of one name. */
  lemma NameTaken(fs: FS, n: nat, m: Node, h: nat)
    requires m.parent in fs && n !in fs && IsItem(fs, h, m.parent, m.name)
    ensures !NamesOk(Placed(fs, n, m))
  {
    var fs' := Placed(fs, n, m);
    PlacedAt(fs, n, m, h);
    PlacedAt(fs, n, m, n);
    hide Placed;
    assert fs'[h].name == fs'[n].name && fs'[h].parent == fs'[n].parent && h != n;
  }

  /** A write looks a name up as typed and creates the file under its stored form. Typing a name that
      is not in its stored form twice therefore gives two files of the same name. */
  lemma TypedTwice(fs: FS, path: string, parent: nat, h: nat, n: nat)
    requires parent in fs && IsItem(fs, h, parent, Normal(path)) && Normal(path) != path && n !in fs
    ensures !IsItem(fs, h, parent, path)
    ensures !NamesOk(Placed(fs, n, NewNode(File, Normal(path), parent, n)))
  {
    NameTaken(fs, n, NewNode(File, Normal(path), parent, n), h);
  }

  /** Moving renames the head entry alone. The other entries of the chain carry the name of the file
      exactly when there are none or the name stays the same. */
  lemma MovedNames(tab: Table, tab': Table, m: Node, srcParent: nat, dstParent: nat, name: string)
    requires Stored(tab, m) && SameNames(tab, m) && MovedTable(tab, tab', m.chain[0], srcParent, dstParent, name)
    ensures SameNames(tab', MovedNode(m, name, dstParent)) <==> |m.chain| == 1 || name == m.name
  {
    forall k | 0 <= k < |m.chain|
      ensures m.chain[k] < |tab'| && tab'[m.chain[k]].name == if k == 0 then name else m.name
    {
      LinkAt(tab, m, k);
      LinkDistinct(tab, m, 0, k);
      assert MovedEntry(tab[m.chain[k]], tab'[m.chain[k]], m.chain[k], m.chain[0], srcParent, dstParent, name);
    }
    hide Stored, MovedTable;
    if |m.chain| > 1 && name != m.name {
      assert tab'[m.chain[1]].name != name;
    }
  }
}
