/** What a file or directory holds, as a tree, and what a copy makes of it. */
module Subtrees {
  import opened Entries
  import opened Layout
  import opened Trees
  import opened Tables
  import opened Directories
  import opened Deletion
  import opened Files
  import opened Writing
  import opened Copying

  /** A file with its bytes, or a directory with its items in order. */
  datatype Tree = Leaf(bytes: seq<Byte>) | Branch(items: seq<Item>)
  datatype Item = Item(name: string, tree: Tree)

  /** Item `n` of `fs` holds `t`. */
  ghost predicate Shows(fs: FS, blocks: seq<Block>, n: nat, t: Tree)
    decreases t
  {
    match t
    case Leaf(bytes) => FileHas(fs, blocks, n, bytes)
    case Branch(items) =>
      && n in fs && fs[n].kind.Dir? && |fs[n].refs| == |items|
      && forall i :: 0 <= i < |items| ==> ShowsItem(fs, blocks, fs[n].refs[i], items[i])
  }

  ghost predicate ShowsItem(fs: FS, blocks: seq<Block>, n: nat, item: Item)
    decreases item
  {
    n in fs && fs[n].name == item.name && Shows(fs, blocks, n, item.tree)
  }

  /** There is nothing to copy: a file without bytes. */
  predicate Nothing(t: Tree) { t == Leaf([]) }

  /** What a copy of `t` holds: empty files are missing, and names are in their stored form. */
  function Pruned(t: Tree): Tree
    decreases t, if t.Branch? then |t.items| + 1 else 0
  {
    match t
    case Leaf(_) => t
    case Branch(items) => Branch(PrunedItems(t, |items|))
  }

  /** The first `k` items of a copy. */
  function PrunedItems(t: Tree, k: nat): seq<Item>
    requires t.Branch? && k <= |t.items|
    decreases t, k
  {
    if k == 0 then []
    else
      var item := t.items[k-1];
      PrunedItems(t, k - 1) + if Nothing(item.tree) then [] else [Item(Normal(item.name), Pruned(item.tree))]
  }

  /** Items that are not left out keep apart: no later item has the stored name of an earlier one. */
  predicate Fits(t: Tree)
    decreases t, 1
  {
    t.Branch? ==> FitsFirst(t, |t.items|)
  }

  predicate FitsFirst(t: Tree, k: nat)
    requires t.Branch? && k <= |t.items|
    decreases t, 0
  {
    && (forall i, j :: 0 <= i < j < k ==> !Clashing(t.items[i], t.items[j]))
    && forall i :: 0 <= i < k ==> Fits(t.items[i].tree)
  }

  predicate Clashing(item: Item, later: Item) { !Nothing(item.tree) && Normal(item.name) == Normal(later.name) }

  /** Entries that a copy of `t` takes. */
  function EntriesIn(t: Tree): nat
    decreases t, if t.Branch? then |t.items| + 1 else 0
  {
    match t
    case Leaf(bytes) => if bytes == [] then 0 else ChainLen(NeededBlocks(|bytes|))
    case Branch(items) => 1 + EntriesFirst(t, |items|)
  }

  function EntriesFirst(t: Tree, k: nat): nat
    requires t.Branch? && k <= |t.items|
    decreases t, k
  {
    if k == 0 then 0 else EntriesFirst(t, k - 1) + EntriesIn(t.items[k-1].tree)
  }

  /** Blocks that a copy of `t` takes. */
  function BlocksIn(t: Tree): nat
    decreases t, if t.Branch? then |t.items| + 1 else 0
  {
    match t
    case Leaf(bytes) => NeededBlocks(|bytes|)
    case Branch(items) => BlocksFirst(t, |items|)
  }

  function BlocksFirst(t: Tree, k: nat): nat
    requires t.Branch? && k <= |t.items|
    decreases t, k
  {
    if k == 0 then 0 else BlocksFirst(t, k - 1) + BlocksIn(t.items[k-1].tree)
  }

  lemma {:induction false} FirstLess(t: Tree, j: nat, k: nat)
    requires t.Branch? && j <= k <= |t.items|
    ensures EntriesFirst(t, j) <= EntriesFirst(t, k) && BlocksFirst(t, j) <= BlocksFirst(t, k)
    decreases k
  {
    if j < k { FirstLess(t, j, k - 1); }
  }

  // ----- every item holds one tree -----

  /** What an item holds is determined. */
  lemma {:induction false} ShowsOnce(fs: FS, blocks: seq<Block>, n: nat, t: Tree, u: Tree)
    requires Shows(fs, blocks, n, t) && Shows(fs, blocks, n, u)
    ensures t == u
    decreases t
  {
    hide Contents, Readable;
    if t.Branch? && u.Branch? {
      forall i | 0 <= i < |t.items| ensures t.items[i] == u.items[i] {
        var c := fs[n].refs[i];
        assert ShowsItem(fs, blocks, c, t.items[i]) && ShowsItem(fs, blocks, c, u.items[i]);
        ShowsOnce(fs, blocks, c, t.items[i].tree, u.items[i].tree);
      }
    }
  }

  /** Items are files, with as many references as their bytes need, or directories. */
  ghost predicate NodesOk(fs: FS) {
    forall h :: h in fs ==> fs[h].kind.Dir? || (fs[h].kind.File? && |fs[h].refs| == NeededBlocks(fs[h].size))
  }

  lemma NodesAreOk(tab: Table, fs: FS)
    requires Represents(tab, fs)
    ensures NodesOk(fs)
  {
    forall h | h in fs ensures fs[h].kind.Dir? || (fs[h].kind.File? && |fs[h].refs| == NeededBlocks(fs[h].size)) {
      HeadStored(tab, fs, h);
    }
  }

  /** Every item of a file system holds one. */
  lemma {:induction false} HoldsTree(fs: FS, blocks: seq<Block>, n: nat, height: nat, lo: nat) returns (t: Tree)
    requires n in fs && n != 0 && Tall(fs, n, height) && NodesOk(fs) && WellFormed(fs, lo, |blocks|)
    ensures Shows(fs, blocks, n, t)
    decreases height, 1
  {
    hide WellFormed, Contents, Tall;
    if fs[n].kind.File? {
      WellFormedBlocks(fs, lo, |blocks|);
      BlocksReadable(fs, n, lo, |blocks|);
      t := Leaf(Contents(fs[n], blocks));
    } else {
      var items := HoldsItems(fs, blocks, n, height, lo, |fs[n].refs|);
      t := Branch(items);
    }
  }

  lemma {:induction false} HoldsItems(fs: FS, blocks: seq<Block>, n: nat, height: nat, lo: nat, k: nat)
    returns (items: seq<Item>)
    requires n in fs && n != 0 && fs[n].kind.Dir? && k <= |fs[n].refs| && Tall(fs, n, height)
    requires NodesOk(fs) && WellFormed(fs, lo, |blocks|)
    ensures |items| == k && forall i :: 0 <= i < k ==> ShowsItem(fs, blocks, fs[n].refs[i], items[i])
    decreases height, 0, k
  {
    hide WellFormed, Tall;
    if k == 0 {
      items := [];
    } else {
      items := HoldsItems(fs, blocks, n, height, lo, k - 1);
      var c := fs[n].refs[k-1];
      ChildLower(fs, n, c, height, lo, |blocks|);
      var t := HoldsTree(fs, blocks, c, height - 1, lo);
      items := items + [Item(fs[c].name, t)];
    }
  }

  lemma ChildLower(fs: FS, n: nat, c: nat, height: nat, lo: nat, hi: nat)
    requires WellFormed(fs, lo, hi) && n in fs && fs[n].kind.Dir? && c in fs[n].refs && Tall(fs, n, height)
    ensures c in fs && c != 0 && fs[c].parent == n && height > 0 && Tall(fs, c, height - 1)
  {
    hide NamesOk, Acyclic, BlocksOk, ParentsExist, Listed;
    assert ItemsOk(fs, n);
    assert Anc(fs, c, 1) == n by { assert Anc(fs, n, 0) == n; }
    forall h, k: nat | h in fs && Anc(fs, h, k) == c ensures k <= height - 1 {
      AncAdd(fs, h, k, 1);
      assert Anc(fs, h, k + 1) == n;
    }
  }

  /** A copy holds the very same tree if and only if nothing in it is an empty file and all names are in
      their stored form. */
  lemma {:induction false} CopiedWhole(t: Tree)
    ensures Pruned(t) == t <==> Whole(t)
    decreases t, 1
  {
    if t.Branch? { CopiedItems(t, |t.items|); }
  }

  predicate Whole(t: Tree) {
    t.Branch? ==> forall i :: 0 <= i < |t.items| ==> WholeItem(t.items[i])
  }

  predicate WholeItem(item: Item) {
    !Nothing(item.tree) && Normal(item.name) == item.name && Whole(item.tree)
  }

  lemma {:induction false} CopiedItems(t: Tree, k: nat)
    requires t.Branch? && k <= |t.items|
    ensures |PrunedItems(t, k)| <= k
    ensures PrunedItems(t, k) == t.items[..k] <==> forall i :: 0 <= i < k ==> WholeItem(t.items[i])
    decreases t, 0, k
  {
    if k > 0 {
      CopiedItems(t, k - 1);
      CopiedWhole(t.items[k-1].tree);
      assert t.items[..k] == t.items[..k-1] + [t.items[k-1]];
    }
    assert t.items[..|t.items|] == t.items;
  }

  // ----- what changes around a tree -----

  /** All that was there before is as it was, but for directory `p`. */
  ghost predicate Kept(fs: FS, blocks: seq<Block>, fs': FS, blocks': seq<Block>, p: nat) {
    && (forall h :: h in fs && h != p ==> h in fs' && fs'[h] == fs[h])
    && OthersKept(fs, blocks, fs', blocks', p)
  }

  /** What an item holds stays the same when just a directory outside it changes. */
  lemma {:induction false} ShowsKept(fs: FS, blocks: seq<Block>, fs': FS, blocks': seq<Block>, p: nat, n: nat, t: Tree)
    requires DirsOk(fs) && Kept(fs, blocks, fs', blocks', p) && !Under(fs, p, n) && Shows(fs, blocks, n, t)
    ensures Shows(fs', blocks', n, t)
    decreases t
  {
    hide Contents, Readable, Under;
    UnderSelf(fs, n);
    if t.Branch? {
      assert ItemsOk(fs, n) by { assert fs[n].kind.Dir?; }
      forall i | 0 <= i < |t.items| ensures ShowsItem(fs', blocks', fs[n].refs[i], t.items[i]) {
        var c := fs[n].refs[i];
        assert ShowsItem(fs, blocks, c, t.items[i]);
        NotUnderChild(fs, p, c, n);
        UnderSelf(fs, c);
        ShowsKept(fs, blocks, fs', blocks', p, c, t.items[i].tree);
      }
    }
  }

  lemma NotUnderChild(fs: FS, p: nat, c: nat, n: nat)
    requires c in fs && fs[c].parent == n && !Under(fs, p, n)
    ensures !Under(fs, p, c)
  {
    if Under(fs, p, c) {
      UnderSelf(fs, n);
      UnderStep(fs, c, n);
      UnderTrans(fs, p, c, n);
    }
  }

  /** Item `m` has been added to directory `parent`, last, with nothing but new items under it; all else is as
      it was. */
  ghost predicate Added(fs: FS, blocks: seq<Block>, fs': FS, blocks': seq<Block>, m: nat, parent: nat, name: string) {
    && parent in fs && m !in fs && m in fs' && fs'[m].parent == parent && fs'[m].name == name
    && parent in fs' && fs'[parent] == WithItem(fs[parent], m)
    && Kept(fs, blocks, fs', blocks', parent)
    && forall h :: h in fs' && h !in fs ==> Under(fs', h, m)
  }

  /** Old items keep their places. */
  lemma AddedUnder(fs: FS, blocks: seq<Block>, fs': FS, blocks': seq<Block>, m: nat, parent: nat, name: string)
    requires Added(fs, blocks, fs', blocks', m, parent, name) && ParentsExist(fs)
    ensures forall h, n :: h in fs ==> (Under(fs', h, n) <==> Under(fs, h, n))
  {
    hide OthersKept, Under;
    UnderSame(fs', fs);
  }

  /** An item added under a new item is part of that one. */
  lemma AddedTwice(fs: FS, blocks: seq<Block>, fs1: FS, blocks1: seq<Block>, fs2: FS, blocks2: seq<Block>, m: nat,
                   parent: nat, name: string, c: nat, item: string)
    requires Added(fs, blocks, fs1, blocks1, m, parent, name) && Added(fs1, blocks1, fs2, blocks2, c, m, item)
    requires ParentsExist(fs1) && m != parent
    ensures Added(fs, blocks, fs2, blocks2, m, parent, name)
  {
    hide OthersKept, Under, ParentsExist;
    OthersKeptTwice(fs, blocks, fs1, blocks1, fs2, blocks2, parent, m);
    forall h | h in fs2 && h !in fs ensures Under(fs2, h, m) {
      AddedInside(fs, blocks, fs1, blocks1, fs2, blocks2, m, parent, name, c, item, h);
    }
  }

  lemma AddedInside(fs: FS, blocks: seq<Block>, fs1: FS, blocks1: seq<Block>, fs2: FS, blocks2: seq<Block>, m: nat,
                    parent: nat, name: string, c: nat, item: string, h: nat)
    requires Added(fs, blocks, fs1, blocks1, m, parent, name) && Added(fs1, blocks1, fs2, blocks2, c, m, item)
    requires ParentsExist(fs1) && h in fs2 && h !in fs
    ensures Under(fs2, h, m)
  {
    hide Kept, Under, ParentsExist;
    if h in fs1 {
      AddedUnder(fs1, blocks1, fs2, blocks2, c, m, item);
    } else {
      UnderSelf(fs2, m);
      UnderStep(fs2, c, m);
      UnderTrans(fs2, h, c, m);
    }
  }

  lemma OthersKeptTwice(fs: FS, blocks: seq<Block>, fs1: FS, blocks1: seq<Block>, fs2: FS, blocks2: seq<Block>, p: nat,
                        m: nat)
    requires OthersKept(fs, blocks, fs1, blocks1, p) && OthersKept(fs1, blocks1, fs2, blocks2, m) && m !in fs
    ensures OthersKept(fs, blocks, fs2, blocks2, p)
  {
    hide Contents, Readable;
  }
}
