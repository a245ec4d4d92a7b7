/** Moving an item from one disk to another: a copy, then a deletion. */
module Transfer {
  import opened Entries
  import opened Layout
  import opened Trees
  import opened Tables
  import opened Directories
  import opened Deletion
  import opened Subtrees
  import opened CopyTrees

  /** What a move of item `n`, which holds `t`, leaves. It is gone from the first disk with all that is under it,
      and nothing else is there. The other disk has a copy, which lacks the empty files. */
  ghost predicate Transferred(srcFs: FS, srcFs': FS, n: nat, srcParent: nat, srcName: string, s: State, s': State,
                              m: nat, parent: nat, name: string, t: Tree, lo: nat, hi: nat) {
    && IsItem(srcFs, n, srcParent, srcName) && srcFs' == Removed(srcFs, n)
    && (forall h :: h in srcFs' <==> h in srcFs && !Under(srcFs, h, n))
    && TreeCopied(s, s', m, parent, name, t, lo, hi)
    && ((exists h :: IsItem(s'.fs, h, parent, name)) <==> !Nothing(t))
  }

  /** The name is in use afterwards exactly when there was something to copy. */
  lemma CopyThere(s: State, s': State, m: nat, parent: nat, name: string, t: Tree, lo: nat, hi: nat)
    requires TreeCopied(s, s', m, parent, name, t, lo, hi) && NameFree(s.fs, parent, name)
    ensures (exists h :: IsItem(s'.fs, h, parent, name)) <==> !Nothing(t)
  {
    hide Shows, Taken;
    if !Nothing(t) { assert IsItem(s'.fs, m, parent, name); }
  }

  lemma RemovedKeys(fs: FS, n: nat)
    requires n in fs
    ensures forall h :: h in Removed(fs, n) <==> h in fs && !Under(fs, h, n)
  {
    hide Removed, Under;
    forall h: nat ensures h in Removed(fs, n) <==> h in fs && !Under(fs, h, n) { RemovedAt(fs, n, h); }
  }

  /** Moves a file, or a directory with everything in it, to another disk. A file without bytes is lost, wherever
      it is: copying it creates nothing, and it is deleted all the same. */
  method MoveToDisk(src: Disk, d: Disk, srcParent: nat, srcName: string, dstParent: nat, dstPath: string, now: nat,
                    ghost t: Tree)
    returns (r: Result<nat>, ghost m: nat)
    requires srcParent in src.fs && src.fs[srcParent].kind.Dir? && (srcParent != 0 || srcName != ROOT_NAME)
    requires dstParent in d.fs && d.fs[dstParent].kind.Dir? && |d.fs[dstParent].refs| < REFS
    requires Source(src.fs, src.blocks[..], srcParent, srcName, t)
    requires src != d && Apart(src, d) && src.Valid() && d.Valid()
    modifies src`fs, src.table, d`fs, d.table, d.blocks
    ensures src.Valid() && (r.Ok? ==> d.Valid())
    ensures r.Ok? <==>
      && (exists h :: IsItem(old(src.fs), h, srcParent, srcName))
      && CanCopyTree(State(old(d.table[..]), old(d.fs), old(d.blocks[..])), dstParent, Normal(dstPath), t,
           d.FirstData(), d.blocks.Length)
    ensures match r
      case Ok(n) => Transferred(old(src.fs), src.fs, n, srcParent, srcName,
        State(old(d.table[..]), old(d.fs), old(d.blocks[..])), State(d.table[..], d.fs, d.blocks[..]), m, dstParent,
        Normal(dstPath), t, d.FirstData(), d.blocks.Length)
      case Err(error) =>
        && src.fs == old(src.fs) && src.table[..] == old(src.table[..])
        && FilesSpared(State(old(d.table[..]), old(d.fs), old(d.blocks[..])), State(d.table[..], d.fs, d.blocks[..]))
  {
    hide Represents, WellFormed, Normal, Removed, Wiped, TreeCopied, FilesSpared, Shows, Fits, HasSpace, Under, Source;
    ghost var s, lo, hi := State(d.table[..], d.fs, d.blocks[..]), d.FirstData(), d.blocks.Length;
    m := 0;
    GoodSpared(s, lo, hi);
    var name := StringToName(dstPath);
    NormalTwice(dstPath);
    var there := Lookup(d, dstParent, name);
    if there.Ok? { return Err(Exists), m; }
    var found := Lookup(src, srcParent, srcName);
    if found.Err? { return Err(NotFound), m; }

    // The copy, and then the deletion
    var copied;
    copied, m := CopyItem(src, d, srcParent, srcName, dstParent, name, now, t);
    if copied.Err? { return Err(copied.error), m; }
    NotTheRootItem(src, found.value, srcParent, srcName);
    RemovedKeys(src.fs, found.value);
    DeleteFound(src, found.value);
    CopyThere(s, State(d.table[..], d.fs, d.blocks[..]), m, dstParent, name, t, lo, hi);
    return Ok(found.value), m;
  }

  lemma NotTheRootItem(d: Disk, n: nat, parent: nat, name: string)
    requires IsItem(d.fs, n, parent, name) && (parent != 0 || name != ROOT_NAME) && d.Valid()
    ensures n != 0
  {}
}
