/** Copying a file or a directory with everything in it. */
module CopyTrees {
  import opened Entries
  import opened Layout
  import opened Trees
  import opened Tables
  import opened Directories
  import opened Creating
  import opened Files
  import opened Sizing
  import opened Writing
  import opened Copying
  import opened Subtrees

  /** What a disk stores: its table, the files and directories, and the blocks. */
  datatype State = State(tab: Table, fs: FS, blocks: seq<Block>)

  ghost predicate Good(s: State, lo: nat, hi: nat) {
    Represents(s.tab, s.fs) && WellFormed(s.fs, lo, hi) && |s.blocks| == hi
  }

  ghost predicate NameFree(fs: FS, parent: nat, name: string) { forall h :: !IsItem(fs, h, parent, name) }

  /** As many entries and blocks are free as a copy of `t` takes. */
  ghost predicate HasSpace(s: State, t: Tree, lo: nat, hi: nat) {
    EntriesIn(t) <= |FreeSet(s.tab)| && BlocksIn(t) <= |Unused(s.fs, lo, hi)|
  }

  ghost predicate Taken(s: State, s': State, entries: nat, blocks: nat, lo: nat, hi: nat) {
    && |FreeSet(s.tab)| == |FreeSet(s'.tab)| + entries
    && |Unused(s.fs, lo, hi)| == |Unused(s'.fs, lo, hi)| + blocks
  }

  /** A copy of `t` has been made: it is item `m`, the last of its directory, and nothing else has changed. Of an
      empty file there is no copy. */
  ghost predicate TreeCopied(s: State, s': State, m: nat, parent: nat, name: string, t: Tree, lo: nat, hi: nat) {
    && Taken(s, s', EntriesIn(t), BlocksIn(t), lo, hi)
    && if Nothing(t) then s' == s
       else Added(s.fs, s.blocks, s'.fs, s'.blocks, m, parent, name) && Shows(s'.fs, s'.blocks, m, Pruned(t))
  }

  /** Every file is stored as it was, with the bytes it had. */
  ghost predicate FilesSpared(s: State, s': State) {
    forall h :: h in s.fs && s.fs[h].kind.File? ==> FileSpared(s, s', h)
  }

  ghost predicate FileSpared(s: State, s': State, h: nat) {
    && h in s.fs && Stored(s'.tab, s.fs[h]) && Readable(s.fs[h], |s.blocks|) && Readable(s.fs[h], |s'.blocks|)
    && Contents(s.fs[h], s'.blocks) == Contents(s.fs[h], s.blocks)
  }

  /** The name is free, stored names in the copy keep apart, and there is room. */
  ghost predicate CanCopyTree(s: State, parent: nat, name: string, t: Tree, lo: nat, hi: nat) {
    NameFree(s.fs, parent, name) && Fits(t) && HasSpace(s, t, lo, hi)
  }

  /** When a copy succeeds, what it makes then, and what it leaves when it fails. */
  ghost predicate TreeAnswered(r: Result<()>, found: bool, s: State, s': State, m: nat, parent: nat, name: string,
                               t: Tree, lo: nat, hi: nat) {
    && (r.Ok? <==> found && CanCopyTree(s, parent, name, t, lo, hi))
    && match r
       case Ok(_) => TreeCopied(s, s', m, parent, name, t, lo, hi)
       case Err(error) =>
         if !NameFree(s.fs, parent, name) then error.Exists? && s' == s
         else if !found then error.NotFound? && s' == s
         else FilesSpared(s, s') && if error.NoSpace? then !HasSpace(s, t, lo, hi) else error.Exists? && !Fits(t)
  }

  // ----- a file -----

  lemma GoodSpared(s: State, lo: nat, hi: nat)
    requires Good(s, lo, hi)
    ensures FilesSpared(s, s)
  {
    hide TreeOk, Represents, Stored, Contents, Linked;
    forall h | h in s.fs && s.fs[h].kind.File? ensures FileSpared(s, s, h) {
      HeadStored(s.tab, s.fs, h);
      BlocksReadable(s.fs, h, lo, hi);
    }
  }

  /** What one file's copy comes to. */
  lemma FileAnswered(r: Result<()>, srcFs: FS, srcBlocks: seq<Block>, n: nat, srcParent: nat, srcName: string,
                     s: State, s': State, m: nat, parent: nat, name: string, t: Tree, lo: nat, hi: nat)
    requires Good(s, lo, hi) && lo > 0 && (r.Ok? ==> Good(s', lo, hi)) && |s.tab| == |s'.tab|
    requires parent in s.fs && s.fs[parent].kind.Dir?
    requires Shows(srcFs, srcBlocks, n, t) && srcFs[n].kind.File? && IsItem(srcFs, n, srcParent, srcName)
    requires forall h :: IsItem(srcFs, h, srcParent, srcName) ==> h == n
    requires NameFree(s.fs, parent, name)
    requires exists from :: CopyAnswered(r, srcFs, srcBlocks, from, srcParent, srcName, s.tab, s.fs, s.blocks, s'.tab,
      s'.fs, s'.blocks, m, parent, name, lo, hi)
    ensures TreeAnswered(r, true, s, s', m, parent, name, t, lo, hi)
  {
    hide Good, CopyMade, Halfway, Contents, Readable, FreeSet, Unused, TreeCopied, FilesSpared, CopyRefused;
    var from :| CopyAnswered(r, srcFs, srcBlocks, from, srcParent, srcName, s.tab, s.fs, s.blocks, s'.tab,
      s'.fs, s'.blocks, m, parent, name, lo, hi);
    CopyNeeds(srcFs, n, srcParent, srcName, s.tab, s.fs, parent, name, lo, hi);
    match r
    case Ok(_) => FileMade(srcFs, srcBlocks, from, n, srcParent, srcName, s, s', m, parent, name, t, lo, hi);
    case Err(e) =>
      FileRefused(srcFs, n, srcParent, srcName, s, parent, name, lo, hi, e);
      HalfwaySpares(s, s', m, parent, name, lo, hi);
  }

  lemma FileRefused(srcFs: FS, n: nat, srcParent: nat, srcName: string, s: State, parent: nat, name: string, lo: nat,
                    hi: nat, e: Error)
    requires IsItem(srcFs, n, srcParent, srcName) && NameFree(s.fs, parent, name)
    requires CopyRefused(srcFs, srcParent, srcName, s.tab, s.fs, parent, name, lo, hi, e)
    ensures e.NoSpace?
  {}

  lemma FileMade(srcFs: FS, srcBlocks: seq<Block>, from: nat, n: nat, srcParent: nat, srcName: string,
                 s: State, s': State, m: nat, parent: nat, name: string, t: Tree, lo: nat, hi: nat)
    requires parent in s.fs && s.fs[parent].kind.Dir? && |s.tab| == |s'.tab|
    requires forall h :: IsItem(srcFs, h, srcParent, srcName) ==> h == n
    requires t.Leaf? && FileHas(srcFs, srcBlocks, n, t.bytes)
    requires CopyMade(srcFs, srcBlocks, from, srcParent, srcName, s.tab, s.fs, s.blocks, s'.tab, s'.fs, s'.blocks, m,
      parent, name, lo)
    requires Good(s, lo, hi) && Good(s', lo, hi)
    ensures TreeCopied(s, s', m, parent, name, t, lo, hi)
  {
    hide Contents, Readable, FreeSet, Unused, Represents, TreeOk, BlocksOk, Placed, OthersKept, FreshCopy;
    if t.bytes != [] {
      var x := NewNode(File, name, parent, m);
      PlacedAt(s.fs, m, x, m);
      PlacedAt(s.fs, m, x, parent);
      forall h: nat
        ensures h in s'.fs && h !in s.fs ==> h == m
        ensures h in s.fs && h != parent ==> h in s'.fs && s'.fs[h] == s.fs[h]
      {
        PlacedAt(s.fs, m, x, h);
      }
      UnderSelf(s'.fs, m);
      OthersKeptMore(s.fs, s.blocks, s'.fs, s'.blocks, m, parent);
      CopyTaken(s.tab, s.fs, s'.tab, s'.fs, m, x, lo, hi);
      HasSize(s'.fs, s'.blocks, m, t.bytes);
    }
  }

  lemma OthersKeptMore(fs: FS, blocks: seq<Block>, fs': FS, blocks': seq<Block>, m: nat, p: nat)
    requires OthersKept(fs, blocks, fs', blocks', m) && m !in fs
    ensures OthersKept(fs, blocks, fs', blocks', p)
  {
    hide Contents, Readable;
  }

  lemma HalfwaySpares(s: State, s': State, m: nat, parent: nat, name: string, lo: nat, hi: nat)
    requires Good(s, lo, hi) && NameFree(s.fs, parent, name) && parent in s.fs && s.fs[parent].kind.Dir?
    requires Halfway(s.tab, s.fs, s.blocks, s'.tab, s'.blocks, m, 0, parent, name)
    ensures FilesSpared(s, s')
  {
    hide Represents, TreeOk, BlocksOk, Stored, Contents, Readable, Listing;
    GoodSpared(s, lo, hi);
    WellFormedRoot(s.fs, lo, hi);
    forall h | h in s.fs && s.fs[h].kind.File? ensures FileSpared(s, s', h) {
      ListingAt(s.fs, m, NewNode(File, Normal(name), parent, m), 0, h);
    }
  }

  lemma WellFormedRoot(fs: FS, lo: nat, hi: nat)
    requires WellFormed(fs, lo, hi)
    ensures 0 in fs && fs[0].kind.Dir?
  {}

  // ----- a directory -----

  /** Directory `e` has been made, and the first `k` items of `t` have been copied to it. */
  ghost predicate DirUnderway(s0: State, s: State, e: nat, parent: nat, name: string, t: Tree, k: nat, lo: nat,
                              hi: nat) {
    && t.Branch? && k <= |t.items| && FitsFirst(t, k)
    && Added(s0.fs, s0.blocks, s.fs, s.blocks, e, parent, name)
    && ShowsFirst(s.fs, s.blocks, e, PrunedItems(t, k))
    && Taken(s0, s, 1 + EntriesFirst(t, k), BlocksFirst(t, k), lo, hi)
  }

  ghost predicate ShowsFirst(fs: FS, blocks: seq<Block>, e: nat, items: seq<Item>) {
    && e in fs && fs[e].kind.Dir? && |fs[e].refs| == |items|
    && forall i :: 0 <= i < |items| ==> ShowsItem(fs, blocks, fs[e].refs[i], items[i])
  }

  /** An empty directory to begin with. */
  lemma DirMade(s0: State, s: State, e: nat, parent: nat, name: string, t: Tree, lo: nat, hi: nat)
    requires t.Branch? && parent in s0.fs && s0.fs[parent].kind.Dir? && e !in s0.fs
    requires s.fs == Placed(s0.fs, e, NewNode(Dir, name, parent, e)) && s.blocks == s0.blocks && |s.tab| == |s0.tab|
    requires Good(s0, lo, hi) && Good(s, lo, hi)
    ensures DirUnderway(s0, s, e, parent, name, t, 0, lo, hi)
  {
    hide Represents, TreeOk, BlocksOk, Placed, FreeSet, Unused, Contents, Readable, BlocksOf;
    var m := NewNode(Dir, name, parent, e);
    forall h: nat ensures h in s.fs && h !in s0.fs ==> h == e
      ensures h in s0.fs && h != parent ==> h in s.fs && s.fs[h] == s0.fs[h]
    {
      PlacedAt(s0.fs, e, m, h);
    }
    PlacedAt(s0.fs, e, m, e);
    PlacedAt(s0.fs, e, m, parent);
    UnderSelf(s.fs, e);
    GoodOthers(s0, lo, hi);
    OthersKeptIn(s0.fs, s0.blocks, s.fs, parent);
    PlacedChains(s0.fs, e, m);
    EntriesConserved(s0.tab, s0.fs, s.tab, s.fs, e);
    BlocksConserved(s0.fs, s.fs, e, lo, hi);
  }

  lemma GoodOthers(s: State, lo: nat, hi: nat)
    requires Good(s, lo, hi)
    ensures forall h :: h in s.fs && s.fs[h].kind.File? ==> Readable(s.fs[h], |s.blocks|)
  {
    hide Good, Stored, Readable;
    GoodSpared(s, lo, hi);
    forall h | h in s.fs && s.fs[h].kind.File? ensures Readable(s.fs[h], |s.blocks|) { assert FileSpared(s, s, h); }
  }

  lemma OthersKeptIn(fs: FS, blocks: seq<Block>, fs': FS, p: nat)
    requires forall h :: h in fs && fs[h].kind.File? ==> Readable(fs[h], |blocks|)
    requires forall h :: h in fs && h != p ==> h in fs' && fs'[h] == fs[h]
    ensures OthersKept(fs, blocks, fs', blocks, p)
  {}

  /** A name is taken in the new directory exactly by an item that has been copied. */
  lemma NameThere(fs: FS, blocks: seq<Block>, e: nat, t: Tree, k: nat, name: string, lo: nat, hi: nat)
    requires t.Branch? && k <= |t.items| && WellFormed(fs, lo, hi) && e != 0
    requires ShowsFirst(fs, blocks, e, PrunedItems(t, k))
    ensures NameFree(fs, e, name) <==>
      forall i :: 0 <= i < k ==> Nothing(t.items[i].tree) || Normal(t.items[i].name) != name
  {
    hide NamesOk, Acyclic, BlocksOk, ParentsExist, Normal, Shows;
    var items := PrunedItems(t, k);
    PrunedNames(t, k, name);
    assert ItemsOk(fs, e);
    if NameFree(fs, e, name) {
      forall j | 0 <= j < |items| ensures items[j].name != name {
        assert ShowsItem(fs, blocks, fs[e].refs[j], items[j]);
        assert fs[e].refs[j] in fs[e].refs;
        assert !IsItem(fs, fs[e].refs[j], e, name);
      }
    } else {
      var h :| IsItem(fs, h, e, name);
      assert h != 0;
      assert h in fs[e].refs;
      var j :| 0 <= j < |fs[e].refs| && fs[e].refs[j] == h;
      assert ShowsItem(fs, blocks, fs[e].refs[j], items[j]);
    }
  }

  lemma {:induction false} PrunedNames(t: Tree, k: nat, name: string)
    requires t.Branch? && k <= |t.items|
    ensures (forall j :: 0 <= j < |PrunedItems(t, k)| ==> PrunedItems(t, k)[j].name != name) <==>
      forall i :: 0 <= i < k ==> Nothing(t.items[i].tree) || Normal(t.items[i].name) != name
    decreases k
  {
    hide Normal;
    if k > 0 {
      PrunedNames(t, k - 1, name);
      var before, item := PrunedItems(t, k - 1), t.items[k-1];
      if !Nothing(item.tree) {
        assert PrunedItems(t, k) == before + [Item(Normal(item.name), Pruned(item.tree))];
        assert PrunedItems(t, k)[|before|].name == Normal(item.name);
        assert forall j :: 0 <= j < |before| ==> PrunedItems(t, k)[j] == before[j];
      } else {
        assert PrunedItems(t, k) == before;
      }
    }
  }

  /** The next item has been copied. */
  lemma NextItem(s0: State, s: State, s': State, e: nat, c: nat, parent: nat, name: string, t: Tree, k: nat, lo: nat,
                 hi: nat)
    requires DirUnderway(s0, s, e, parent, name, t, k, lo, hi) && k < |t.items| && e != parent && e != 0
    requires NameFree(s.fs, e, Normal(t.items[k].name)) && Fits(t.items[k].tree)
    requires TreeCopied(s, s', c, e, Normal(t.items[k].name), t.items[k].tree, lo, hi) && Good(s, lo, hi)
    ensures DirUnderway(s0, s', e, parent, name, t, k + 1, lo, hi)
  {
    hide WellFormed, Represents, Shows, Normal, FreeSet, Unused, Added, ShowsFirst, FitsFirst;
    var item := t.items[k];
    NameThere(s.fs, s.blocks, e, t, k, Normal(item.name), lo, hi);
    FitsNext(t, k);
    if Nothing(item.tree) {
      assert PrunedItems(t, k + 1) == PrunedItems(t, k);
    } else {
      GoodParents(s, lo, hi);
      AddedTwice(s0.fs, s0.blocks, s.fs, s.blocks, s'.fs, s'.blocks, e, parent, name, c, Normal(item.name));
      ShowsNext(s.fs, s.blocks, s'.fs, s'.blocks, e, c, PrunedItems(t, k), Item(Normal(item.name), Pruned(item.tree)));
    }
  }

  lemma FitsNext(t: Tree, k: nat)
    requires t.Branch? && k < |t.items| && FitsFirst(t, k)
    ensures FitsFirst(t, k + 1) <==>
      && Fits(t.items[k].tree)
      && forall i :: 0 <= i < k ==> Nothing(t.items[i].tree) || Normal(t.items[i].name) != Normal(t.items[k].name)
  {
    hide Normal;
    if FitsFirst(t, k + 1) {
      forall i | 0 <= i < k ensures Nothing(t.items[i].tree) || Normal(t.items[i].name) != Normal(t.items[k].name) {
        assert !Clashing(t.items[i], t.items[k]);
      }
    }
  }

  lemma {:induction false} FitsLess(t: Tree, k: nat)
    requires t.Branch? && k <= |t.items| && Fits(t)
    ensures FitsFirst(t, k)
  {}

  lemma GoodParents(s: State, lo: nat, hi: nat)
    requires Good(s, lo, hi)
    ensures ParentsExist(s.fs) && DirsOk(s.fs) && Acyclic(s.fs) && RootOk(s.fs)
  {}

  lemma ShowsNext(fs: FS, blocks: seq<Block>, fs': FS, blocks': seq<Block>, e: nat, c: nat, items: seq<Item>,
                  item: Item)
    requires Added(fs, blocks, fs', blocks', c, e, item.name) && Shows(fs', blocks', c, item.tree)
    requires ShowsFirst(fs, blocks, e, items) && DirsOk(fs) && Acyclic(fs) && RootOk(fs)
    ensures ShowsFirst(fs', blocks', e, items + [item])
  {
    hide OthersKept, Shows, Under, Acyclic;
    assert ItemsOk(fs, e);
    assert fs'[e].refs == fs[e].refs + [c];
    forall i | 0 <= i < |items| ensures ShowsItem(fs', blocks', fs[e].refs[i], items[i]) {
      var x := fs[e].refs[i];
      assert ShowsItem(fs, blocks, x, items[i]);
      assert x in fs[e].refs;
      NotUnderItem(fs, e, x);
      UnderSelf(fs, x);
      ShowsKept(fs, blocks, fs', blocks', e, x, items[i].tree);
    }
    assert ShowsItem(fs', blocks', c, item);
  }

  /** A directory is not under its own items. */
  lemma NotUnderItem(fs: FS, e: nat, x: nat)
    requires x in fs && x != 0 && fs[x].parent == e && e in fs && Acyclic(fs) && RootOk(fs)
    ensures !Under(fs, e, x) && x != e
  {
    ParentDiffers(fs, x);
    if k: nat :| Anc(fs, e, k) == x {
      assert Anc(fs, x, k + 1) == x;
      assert Under(fs, x, 0);
      var j: nat :| Anc(fs, x, j) == 0;
      Around(fs, x, k + 1, j);
      assert (k + 1) * j >= j by { assert (k + 1) * j == k * j + j; }
      AncAdd(fs, x, j, (k + 1) * j - j);
      AncOfRoot(fs, (k + 1) * j - j);
    }
  }

  lemma {:induction false} Around(fs: FS, x: nat, length: nat, rounds: nat)
    requires Anc(fs, x, length) == x
    ensures Anc(fs, x, length * rounds) == x
    decreases rounds
  {
    if rounds > 0 {
      Around(fs, x, length, rounds - 1);
      assert length * rounds == length * (rounds - 1) + length;
      AncAdd(fs, x, length * (rounds - 1), length);
    }
  }

  /** All items have been copied. */
  lemma AllCopied(s0: State, s: State, e: nat, parent: nat, name: string, t: Tree, lo: nat, hi: nat)
    requires t.Branch? && DirUnderway(s0, s, e, parent, name, t, |t.items|, lo, hi)
    requires NameFree(s0.fs, parent, name)
    ensures TreeAnswered(Ok(()), true, s0, s, e, parent, name, t, lo, hi)
  {
    hide FreeSet, Unused, Added, FitsFirst, NameFree;
    assert Pruned(t).items == PrunedItems(t, |t.items|);
  }

  /** An item that cannot be copied ends the copy of its directory. */
  lemma ItemFailed(r: Result<()>, s0: State, s: State, s': State, e: nat, c: nat, parent: nat, name: string, t: Tree,
                   k: nat, lo: nat, hi: nat)
    requires DirUnderway(s0, s, e, parent, name, t, k, lo, hi) && k < |t.items| && e != 0 && r.Err?
    requires NameFree(s0.fs, parent, name)
    requires TreeAnswered(r, true, s, s', c, e, Normal(t.items[k].name), t.items[k].tree, lo, hi)
    requires s0.fs[parent].kind.Dir? && Good(s0, lo, hi) && Good(s, lo, hi)
    ensures TreeAnswered(r, true, s0, s', e, parent, name, t, lo, hi)
  {
    hide WellFormed, Represents, Shows, Normal, FreeSet, Unused, ShowsFirst, FitsFirst, OthersKept, FilesSpared;
    var item := t.items[k];
    FirstLess(t, k + 1, |t.items|);
    NameThere(s.fs, s.blocks, e, t, k, Normal(item.name), lo, hi);
    FitsNext(t, k);
    if Fits(t) { FitsLess(t, k + 1); }
    GoodSpared(s, lo, hi);
    SparedSince(s0, s, s', e, parent, name, lo, hi);
  }

  lemma SparedSince(s0: State, s: State, s': State, e: nat, parent: nat, name: string, lo: nat, hi: nat)
    requires Added(s0.fs, s0.blocks, s.fs, s.blocks, e, parent, name) && s0.fs[parent].kind.Dir? && FilesSpared(s, s')
    ensures FilesSpared(s0, s')
  {
    hide Stored, Readable, Contents;
    forall h | h in s0.fs && s0.fs[h].kind.File? ensures FileSpared(s0, s', h) { assert FileSpared(s, s', h); }
  }

  // ----- where the copy is read from -----

  /** Item `n` is outside the directory that has changed, and so still what it was. */
  lemma SourceStays(fs: FS, blocks: seq<Block>, fs': FS, blocks': seq<Block>, m: nat, p: nat, name: string, n: nat,
                    t: Tree)
    requires Added(fs, blocks, fs', blocks', m, p, name) && DirsOk(fs) && ParentsExist(fs)
    requires !Under(fs, p, n) && n in fs && Shows(fs, blocks, n, t)
    ensures n in fs' && fs'[n] == fs[n] && Shows(fs', blocks', n, t) && !Under(fs', p, n) && !Under(fs', m, n)
  {
    hide OthersKept, Under, DirsOk, ParentsExist;
    UnderSelf(fs, n);
    ShowsKept(fs, blocks, fs', blocks', p, n, t);
    hide Shows;
    AddedUnder(fs, blocks, fs', blocks', m, p, name);
    UnderStep(fs', m, n);
  }

  /** What is to be copied, if it is there, holds `t`, and the copy is not put under it. */
  ghost predicate Source(srcFs: FS, srcBlocks: seq<Block>, srcParent: nat, srcName: string, t: Tree) {
    forall h :: IsItem(srcFs, h, srcParent, srcName) ==> Shows(srcFs, srcBlocks, h, t)
  }

  ghost predicate Outside(fs: FS, parent: nat, srcParent: nat, srcName: string) {
    forall h :: IsItem(fs, h, srcParent, srcName) ==> !Under(fs, parent, h)
  }

  /** The next item to copy. */
  lemma NextSource(fs: FS, blocks: seq<Block>, n: nat, t: Tree, k: nat, lo: nat, hi: nat)
    requires t.Branch? && k < |t.items| && n in fs && Shows(fs, blocks, n, t) && WellFormed(fs, lo, hi)
    ensures IsItem(fs, fs[n].refs[k], n, t.items[k].name)
    ensures Source(fs, blocks, n, t.items[k].name, t.items[k].tree)
    ensures forall e :: !Under(fs, e, n) ==> Outside(fs, e, n, t.items[k].name)
  {
    hide Acyclic, BlocksOk, ParentsExist, Listed, Under;
    var c := fs[n].refs[k];
    assert ShowsItem(fs, blocks, c, t.items[k]);
    assert ItemsOk(fs, n) && c in fs[n].refs;
    hide Shows;
    forall h | IsItem(fs, h, n, t.items[k].name) ensures h == c { assert fs[h].name == fs[c].name; }
    forall e | !Under(fs, e, n) ensures Outside(fs, e, n, t.items[k].name) { NotUnderChild(fs, e, c, n); }
  }

  // ----- the copy -----

  /** Two disks are one and the same, or have nothing in common. */
  predicate Apart(src: Disk, d: Disk) { src == d || (src.table != d.table && src.blocks != d.blocks) }

  /** The items of a directory are read once, before anything is made. */
  method ReadDirectory(d: Disk, n: nat) returns (entry: Entry)
    requires n in d.fs && d.fs[n].kind.Dir? && d.Valid()
    ensures entry.size == |d.fs[n].refs| <= REFS && entry.refs[..entry.size] == d.fs[n].refs
  {
    hide TreeOk, Represents, Stored, Linked;
    HeadStored(d.table[..], d.fs, n);
    entry := d.table[n];
    HeadOf(d.table[..], d.fs[n]);
    RefsFrom(d.table[..], d.fs[n], 0);
    WellFormedDir(d.fs, n, d.FirstData(), d.blocks.Length);
  }

  lemma WellFormedDir(fs: FS, n: nat, lo: nat, hi: nat)
    requires n in fs && fs[n].kind.Dir? && WellFormed(fs, lo, hi)
    ensures |fs[n].refs| <= REFS
  {
    assert ItemsOk(fs, n);
  }

  /** Copies a file, or a directory with everything in it, to the same disk or another; not to a place under
      itself. */
  method CopyItem(src: Disk, d: Disk, srcParent: nat, srcName: string, dstParent: nat, dstPath: string, now: nat,
                  ghost t: Tree)
    returns (r: Result<()>, ghost m: nat)
    requires srcParent in src.fs && src.fs[srcParent].kind.Dir?
    requires dstParent in d.fs && d.fs[dstParent].kind.Dir? && |d.fs[dstParent].refs| < REFS
    requires Source(src.fs, src.blocks[..], srcParent, srcName, t)
    requires src == d ==> Outside(d.fs, dstParent, srcParent, srcName)
    requires Apart(src, d) && src.Valid() && d.Valid()
    modifies d`fs, d.table, d.blocks
    ensures r.Ok? ==> d.Valid()
    ensures TreeAnswered(r, exists h :: IsItem(old(src.fs), h, srcParent, srcName),
      State(old(d.table[..]), old(d.fs), old(d.blocks[..])), State(d.table[..], d.fs, d.blocks[..]), m, dstParent,
      Normal(dstPath), t, d.FirstData(), d.blocks.Length)
    decreases t, 1
  {
    hide Represents, WellFormed, Normal, Shows, CopyAnswered, TreeAnswered, Under;
    m := 0;
    ghost var s, lo, hi := State(d.table[..], d.fs, d.blocks[..]), d.FirstData(), d.blocks.Length;
    var name := StringToName(dstPath);
    NormalTwice(dstPath);
    var there := Lookup(d, dstParent, name);
    if there.Ok? {
      r := Err(Exists);
      NotAsked(r, exists h :: IsItem(src.fs, h, srcParent, srcName), s, m, dstParent, name, t, lo, hi);
      return;
    }
    var from := Lookup(src, srcParent, srcName);
    if from.Err? {
      r := Err(NotFound);
      NotAsked(r, false, s, m, dstParent, name, t, lo, hi);
      return;
    }
    var n := from.value;
    assert Shows(src.fs, src.blocks[..], n, t) && IsItem(src.fs, n, srcParent, srcName);
    NamedOnce(src, n, srcParent, srcName);
    HeadStored(src.table[..], src.fs, n);
    if src.table[n].kind.File? {
      ghost var from0, srcFs, srcBlocks := 0, src.fs, src.blocks[..];
      r, from0, m := CopyFile(src, d, srcParent, srcName, dstParent, name, now);
      FileAnswered(r, srcFs, srcBlocks, n, srcParent, srcName, s, State(d.table[..], d.fs, d.blocks[..]), m,
        dstParent, name, t, lo, hi);
    } else {
      r, m := CopyDirectory(src, d, n, dstParent, name, now, t);
    }
  }

  lemma NotAsked(r: Result<()>, found: bool, s: State, m: nat, parent: nat, name: string, t: Tree, lo: nat, hi: nat)
    requires match r
      case Err(Exists) => !NameFree(s.fs, parent, name)
      case Err(NotFound) => !found && NameFree(s.fs, parent, name)
      case _ => false
    ensures TreeAnswered(r, found, s, s, m, parent, name, t, lo, hi)
  {}

  /** Makes the directory and copies one item after another to it. */
  method CopyDirectory(src: Disk, d: Disk, n: nat, dstParent: nat, name: string, now: nat, ghost t: Tree)
    returns (r: Result<()>, ghost m: nat)
    requires n in src.fs && src.fs[n].kind.Dir? && Shows(src.fs, src.blocks[..], n, t)
    requires dstParent in d.fs && d.fs[dstParent].kind.Dir? && |d.fs[dstParent].refs| < REFS
    requires NameFree(d.fs, dstParent, name) && Normal(name) == name
    requires src == d ==> !Under(d.fs, dstParent, n)
    requires Apart(src, d) && src.Valid() && d.Valid()
    modifies d`fs, d.table, d.blocks
    ensures r.Ok? ==> d.Valid()
    ensures TreeAnswered(r, true, State(old(d.table[..]), old(d.fs), old(d.blocks[..])),
      State(d.table[..], d.fs, d.blocks[..]), m, dstParent, name, t, d.FirstData(), d.blocks.Length)
    decreases t, 0
  {
    hide Represents, WellFormed, Normal, Shows, TreeAnswered, Under, DirUnderway, Created, Source, Outside;
    ghost var s0, lo, hi := State(d.table[..], d.fs, d.blocks[..]), d.FirstData(), d.blocks.Length;
    ghost var node := src.fs[n];
    WellFormedRoot(s0.fs, lo, hi);
    ShowsDirectory(src.fs, src.blocks[..], n, t);
    var entry := ReadDirectory(src, n);
    var made := CreateDirectory(d, dstParent, name, now);
    m := if made.Ok? then made.value else 0;
    ghost var s := State(d.table[..], d.fs, d.blocks[..]);
    DirAnswered(s0, s, made, dstParent, name, t, lo, hi);
    if made.Err? { return Err(made.error), m; }
    var e := made.value;
    if src == d { SourceLeft(s0, s, e, dstParent, name, n, t, 0, lo, hi); }
    var k := 0;
    while k < entry.size
      invariant 0 <= k <= entry.size && src.Valid() && d.Valid()
      invariant DirUnderway(s0, State(d.table[..], d.fs, d.blocks[..]), e, dstParent, name, t, k, lo, hi)
      invariant n in src.fs && src.fs[n] == node && Shows(src.fs, src.blocks[..], n, t)
      invariant src == d ==> !Under(d.fs, e, n)
      modifies d`fs, d.table, d.blocks
    {
      s := State(d.table[..], d.fs, d.blocks[..]);
      ghost var item := t.items[k];
      NextSource(src.fs, src.blocks[..], n, t, k, src.FirstData(), src.blocks.Length);
      DirIs(s0, s, e, dstParent, name, t, k, lo, hi);
      HeadStored(src.table[..], src.fs, node.refs[k]);
      HeadOf(src.table[..], src.fs[node.refs[k]]);
      var itemName := src.table[entry.refs[k]].name;
      var copied;
      ghost var c;
      copied, c := CopyItem(src, d, n, itemName, e, itemName, now, item.tree);
      ghost var s' := State(d.table[..], d.fs, d.blocks[..]);
      if copied.Err? {
        ItemFailed(copied, s0, s, s', e, c, dstParent, name, t, k, lo, hi);
        return copied, m;
      }
      ItemAnswered(copied, s0, s, s', e, c, dstParent, name, t, k, lo, hi);
      if src == d { ItemLeft(copied, s, s', c, e, Normal(item.name), n, t, item.tree, lo, hi); }
      k := k + 1;
    }
    AllCopied(s0, State(d.table[..], d.fs, d.blocks[..]), e, dstParent, name, t, lo, hi);
    return Ok(()), m;
  }

  lemma ShowsDirectory(fs: FS, blocks: seq<Block>, n: nat, t: Tree)
    requires Shows(fs, blocks, n, t) && n in fs && fs[n].kind.Dir?
    ensures t.Branch? && |t.items| == |fs[n].refs|
  {}

  /** The directory has been made, or the whole copy fails. */
  lemma DirAnswered(s0: State, s: State, made: Result<nat>, parent: nat, name: string, t: Tree, lo: nat, hi: nat)
    requires t.Branch? && parent in s0.fs && s0.fs[parent].kind.Dir? && |s0.fs[parent].refs| < REFS
    requires Created(s0.tab, s0.fs, s.tab, s.fs, made, parent, name) && s.blocks == s0.blocks && |s.tab| == |s0.tab|
    requires NameFree(s0.fs, parent, name) && Good(s0, lo, hi) && Good(s, lo, hi)
    ensures match made
      case Ok(e) => DirUnderway(s0, s, e, parent, name, t, 0, lo, hi)
      case Err(error) => TreeAnswered(Err(error), true, s0, s, 0, parent, name, t, lo, hi)
  {
    hide Represents, WellFormed, DirUnderway, FreeSet, Unused, Placed, FilesSpared, Fits;
    match made
    case Ok(e) =>
      FreshItem(s0.tab, s0.fs, e);
      DirMade(s0, s, e, parent, name, t, lo, hi);
    case Err(_) =>
      GoodSpared(s0, lo, hi);
      NoEntries(s0.tab);
  }

  lemma NoEntries(tab: Table)
    ensures |FreeSet(tab)| == 0 <==> FreeSet(tab) == {}
  {}

  /** In the middle of a copy, the new directory has room and is not the root. */
  lemma DirIs(s0: State, s: State, e: nat, parent: nat, name: string, t: Tree, k: nat, lo: nat, hi: nat)
    requires DirUnderway(s0, s, e, parent, name, t, k, lo, hi) && k < |t.items| <= REFS && 0 in s0.fs
    ensures e in s.fs && s.fs[e].kind.Dir? && |s.fs[e].refs| < REFS && e != 0 && e != parent && parent in s0.fs
  {
    hide Added, FitsFirst, Taken, Shows;
    CopiedItems(t, k);
    AddedNew(s0, s, e, parent, name);
  }

  lemma AddedNew(s0: State, s: State, e: nat, parent: nat, name: string)
    requires Added(s0.fs, s0.blocks, s.fs, s.blocks, e, parent, name)
    ensures e !in s0.fs && parent in s0.fs
  {}

  /** The source after the directory has been made. */
  lemma SourceLeft(s0: State, s: State, e: nat, parent: nat, name: string, n: nat, t: Tree, k: nat, lo: nat, hi: nat)
    requires DirUnderway(s0, s, e, parent, name, t, k, lo, hi)
    requires n in s0.fs && Shows(s0.fs, s0.blocks, n, t) && !Under(s0.fs, parent, n) && Good(s0, lo, hi)
    ensures n in s.fs && s.fs[n] == s0.fs[n] && Shows(s.fs, s.blocks, n, t) && !Under(s.fs, e, n)
  {
    hide Represents, TreeOk, BlocksOk, Shows, Under, Added, ShowsFirst, Taken, FitsFirst;
    GoodParents(s0, lo, hi);
    SourceStays(s0.fs, s0.blocks, s.fs, s.blocks, e, parent, name, n, t);
  }

  /** The source after an item has been copied. */
  lemma ItemLeft(r: Result<()>, s: State, s': State, c: nat, e: nat, name: string, n: nat, t: Tree, u: Tree, lo: nat,
                 hi: nat)
    requires r.Ok? && TreeAnswered(r, true, s, s', c, e, name, u, lo, hi)
    requires n in s.fs && Shows(s.fs, s.blocks, n, t) && !Under(s.fs, e, n) && Good(s, lo, hi)
    ensures n in s'.fs && s'.fs[n] == s.fs[n] && Shows(s'.fs, s'.blocks, n, t) && !Under(s'.fs, e, n)
  {
    hide Represents, TreeOk, BlocksOk, Shows, Under, Added, Taken, Fits, HasSpace;
    if !Nothing(u) {
      GoodParents(s, lo, hi);
      SourceStays(s.fs, s.blocks, s'.fs, s'.blocks, c, e, name, n, t);
    }
  }

  lemma ItemAnswered(r: Result<()>, s0: State, s: State, s': State, e: nat, c: nat, parent: nat, name: string,
                     t: Tree, k: nat, lo: nat, hi: nat)
    requires DirUnderway(s0, s, e, parent, name, t, k, lo, hi) && k < |t.items| && e != parent && e != 0
    requires r.Ok? && TreeAnswered(r, true, s, s', c, e, Normal(t.items[k].name), t.items[k].tree, lo, hi)
    requires Good(s, lo, hi)
    ensures DirUnderway(s0, s', e, parent, name, t, k + 1, lo, hi)
  {
    hide Good, DirUnderway, TreeCopied, Fits, HasSpace, Normal;
    NextItem(s0, s, s', e, c, parent, name, t, k, lo, hi);
  }

  /** Where all names are in their stored form, no copy fails because of a name. */
  lemma {:induction false} StoredNamesFit(fs: FS, blocks: seq<Block>, n: nat, t: Tree)
    requires forall h :: h in fs && h != 0 ==> Normal(fs[h].name) == fs[h].name
    requires DirsOk(fs) && NamesOk(fs) && Shows(fs, blocks, n, t)
    ensures Fits(t)
    decreases t
  {
    hide Normal, Contents, Readable;
    if t.Branch? {
      var refs := fs[n].refs;
      assert ItemsOk(fs, n) by { assert fs[n].kind.Dir?; }
      forall i | 0 <= i < |t.items|
        ensures refs[i] in fs && refs[i] != 0 && fs[refs[i]].parent == n && fs[refs[i]].name == t.items[i].name
        ensures Fits(t.items[i].tree)
      {
        assert ShowsItem(fs, blocks, refs[i], t.items[i]) && refs[i] in refs;
        StoredNamesFit(fs, blocks, refs[i], t.items[i].tree);
      }
      forall i, j | 0 <= i < j < |t.items| ensures !Clashing(t.items[i], t.items[j]) { assert refs[i] != refs[j]; }
    }
  }
}
