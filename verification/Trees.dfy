/** The directory tree: what makes it well formed, and what creating, removing and moving do to it. */
module Trees {
  import opened Entries
  import opened Layout

  const ROOT_NAME := "."

  /** The `k`-th directory up from `h`. */
  ghost function Anc(fs: FS, h: nat, k: nat): nat
    decreases k
  {
    if k == 0 then h else if h in fs then Anc(fs, fs[h].parent, k - 1) else h
  }

  /** `n` is `h` or one of the directories above it. */
  ghost predicate Under(fs: FS, h: nat, n: nat) {
    exists k: nat :: Anc(fs, h, k) == n
  }

  ghost predicate RootOk(fs: FS) {
    0 in fs && fs[0].kind.Dir? && fs[0].parent == 0 && fs[0].name == ROOT_NAME
  }

  /** Directories list distinct items, each of which names the directory as its parent. */
  ghost predicate DirsOk(fs: FS) {
    forall h {:trigger fs[h].kind} :: h in fs && fs[h].kind.Dir? ==> ItemsOk(fs, h)
  }

  ghost predicate ItemsOk(fs: FS, h: nat)
    requires h in fs
  {
    && |fs[h].refs| <= REFS
    && NoDup(fs[h].refs)
    && forall c :: c in fs[h].refs ==> c in fs && c != 0 && fs[c].parent == h
  }

  ghost predicate ParentsExist(fs: FS) {
    forall h {:trigger fs[h].parent} :: h in fs ==> fs[h].parent in fs && fs[fs[h].parent].kind.Dir?
  }

  /** Everything but the root and the items in `loose` is listed by its parent. */
  ghost predicate Listed(fs: FS, loose: set<nat>) {
    forall h {:trigger fs[h].parent} :: h in fs && h != 0 && h !in loose && fs[h].parent in fs ==>
      h in fs[fs[h].parent].refs
  }

  ghost predicate NamesOk(fs: FS) {
    forall g, h {:trigger fs[g].name, fs[h].name} ::
      g in fs && h in fs && fs[g].parent == fs[h].parent && fs[g].name == fs[h].name ==> g == h
  }

  /** The root is above everything. */
  ghost predicate Acyclic(fs: FS) {
    forall h {:trigger Under(fs, h, 0)} :: h in fs ==> Under(fs, h, 0)
  }

  ghost predicate UsesBlock(fs: FS, h: nat, b: nat) {
    h in fs && fs[h].kind.File? && b in fs[h].refs
  }

  /** Some file uses block `b`. */
  ghost predicate InUse(fs: FS, b: nat) {
    exists h: nat :: UsesBlock(fs, h, b)
  }

  /** No block serves twice, and all lie in the data region. */
  ghost predicate BlocksOk(fs: FS, lo: nat, hi: nat) {
    && (forall h :: h in fs && fs[h].kind.File? ==> NoDup(fs[h].refs))
    && (forall h: nat, b: nat :: UsesBlock(fs, h, b) ==> lo <= b < hi)
    && (forall g, h, b :: UsesBlock(fs, g, b) && UsesBlock(fs, h, b) ==> g == h)
  }

  ghost predicate TreeOk(fs: FS, loose: set<nat>) {
    RootOk(fs) && DirsOk(fs) && ParentsExist(fs) && Listed(fs, loose) && NamesOk(fs) && Acyclic(fs)
  }

  ghost predicate WellFormed(fs: FS, lo: nat, hi: nat) {
    TreeOk(fs, {}) && BlocksOk(fs, lo, hi)
  }

  // ----- ancestors -----

  lemma UnderSelf(fs: FS, h: nat)
    ensures Under(fs, h, h)
  {
    assert Anc(fs, h, 0) == h;
  }

  lemma {:induction false} AncAdd(fs: FS, h: nat, j: nat, k: nat)
    ensures Anc(fs, h, j + k) == Anc(fs, Anc(fs, h, j), k)
    decreases j
  {
    if j > 0 {
      if h in fs {
        AncAdd(fs, fs[h].parent, j - 1, k);
      } else {
        AncOutside(fs, h, j + k);
        AncOutside(fs, h, k);
      }
    }
  }

  lemma AncOutside(fs: FS, h: nat, k: nat)
    requires h !in fs
    ensures Anc(fs, h, k) == h
  {}

  lemma UnderTrans(fs: FS, h: nat, c: nat, n: nat)
    requires Under(fs, h, c) && Under(fs, c, n)
    ensures Under(fs, h, n)
  {
    var j: nat :| Anc(fs, h, j) == c;
    var k: nat :| Anc(fs, c, k) == n;
    AncAdd(fs, h, j, k);
  }

  lemma UnderStep(fs: FS, h: nat, n: nat)
    requires h in fs
    ensures Under(fs, h, n) <==> h == n || Under(fs, fs[h].parent, n)
  {
    assert Anc(fs, h, 0) == h;
    if k: nat :| Anc(fs, h, k) == n && k > 0 {
      assert Anc(fs, fs[h].parent, k - 1) == n;
    }
    if k: nat :| Anc(fs, fs[h].parent, k) == n {
      assert Anc(fs, h, k + 1) == n;
    }
  }

  lemma {:induction false} AncSame(fs: FS, fs': FS, h: nat, k: nat)
    requires h in fs'
    requires forall g :: g in fs' ==> g in fs && fs'[g].parent == fs[g].parent && fs[g].parent in fs'
    ensures Anc(fs', h, k) == Anc(fs, h, k)
    decreases k
  {
    if k > 0 { AncSame(fs, fs', fs[h].parent, k - 1); }
  }

  /** Being under another item is a matter of the parents alone. */
  lemma UnderSame(fs: FS, fs': FS)
    requires forall g :: g in fs' ==> g in fs && fs'[g].parent == fs[g].parent && fs[g].parent in fs'
    ensures forall h, n :: h in fs' ==> (Under(fs', h, n) <==> Under(fs, h, n))
  {
    forall h, n | h in fs' ensures Under(fs', h, n) <==> Under(fs, h, n) {
      if k: nat :| Anc(fs', h, k) == n { AncSame(fs, fs', h, k); assert Anc(fs, h, k) == n; }
      if k: nat :| Anc(fs, h, k) == n { AncSame(fs, fs', h, k); assert Anc(fs', h, k) == n; }
    }
  }

  lemma {:induction false} AncOfRoot(fs: FS, k: nat)
    requires RootOk(fs)
    ensures Anc(fs, 0, k) == 0
  {
    if k > 0 { AncOfRoot(fs, k - 1); }
  }

  /** Nothing but itself is under something that does not exist. */
  lemma {:induction false} AncExists(fs: FS, h: nat, k: nat)
    requires ParentsExist(fs) && h in fs
    ensures Anc(fs, h, k) in fs
    decreases k
  {
    if k > 0 { AncExists(fs, fs[h].parent, k - 1); }
  }

  // ----- placing an item in a directory -----

  /** `fs` with `n`, new or old, described by `m` and listed last in the directory `m` names. */
  function Placed(fs: FS, n: nat, m: Node): FS
    requires m.parent in fs
  {
    var fs' := fs[n := m];
    fs'[m.parent := WithItem(fs'[m.parent], n)]
  }

  /** `n` can be placed as `m`: it is not listed anywhere, and `m` keeps what it contains. */
  ghost predicate CanPlace(fs: FS, n: nat, m: Node) {
    && n != 0 && !m.kind.Free?
    && (if n in fs then m.kind == fs[n].kind && m.refs == fs[n].refs else m.refs == [])
    && (n in fs && fs[n].parent in fs ==> n !in fs[fs[n].parent].refs)
    && m.parent in fs && fs[m.parent].kind.Dir? && |fs[m.parent].refs| < REFS
    && (forall h {:trigger fs[h].name} :: h in fs && h != n && fs[h].parent == m.parent ==> fs[h].name != m.name)
  }

  /** What placing changes, item by item. */
  lemma PlacedAt(fs: FS, n: nat, m: Node, h: nat)
    requires m.parent in fs
    ensures h in Placed(fs, n, m) <==> h in fs || h == n
    ensures h in Placed(fs, n, m) ==>
      var x := if h == n then m else fs[h]; Placed(fs, n, m)[h] == if h == m.parent then WithItem(x, n) else x
  {}

  lemma PlacedItems(fs: FS, n: nat, m: Node, h: nat)
    requires CanPlace(fs, n, m) && m.parent != n && (h in fs ==> ItemsOk(fs, h))
    requires h in Placed(fs, n, m) && (n in fs ==> fs[n].parent in fs)
    ensures ItemsOk(Placed(fs, n, m), h)
  {
    PlacedAt(fs, n, m, h);
    hide Placed;
    var fs' := Placed(fs, n, m);
    if h in fs { assert n !in fs[h].refs; }
    forall c | c in fs'[h].refs ensures c in fs' && c != 0 && fs'[c].parent == h {
      PlacedAt(fs, n, m, c);
    }
  }

  lemma PlacedDirs(fs: FS, n: nat, m: Node)
    requires DirsOk(fs) && ParentsExist(fs) && CanPlace(fs, n, m) && m.parent != n
    ensures DirsOk(Placed(fs, n, m))
  {
    hide ItemsOk, Placed;
    var fs' := Placed(fs, n, m);
    forall h | h in fs' && fs'[h].kind.Dir? ensures ItemsOk(fs', h) {
      PlacedAt(fs, n, m, h);
      assert n in fs ==> fs[n].parent in fs;
      PlacedItems(fs, n, m, h);
    }
  }

  lemma PlacedParents(fs: FS, n: nat, m: Node)
    requires ParentsExist(fs) && CanPlace(fs, n, m)
    ensures ParentsExist(Placed(fs, n, m))
  {
    hide Placed;
    var fs' := Placed(fs, n, m);
    forall h | h in fs' ensures fs'[h].parent in fs' && fs'[fs'[h].parent].kind.Dir? {
      PlacedAt(fs, n, m, h);
      PlacedAt(fs, n, m, fs'[h].parent);
      assert h != n ==> fs[h].parent in fs;
    }
  }

  lemma PlacedListedAt(fs: FS, n: nat, m: Node, h: nat)
    requires CanPlace(fs, n, m) && h in Placed(fs, n, m)
    requires h != n ==> fs[h].parent in fs && h in fs[fs[h].parent].refs
    ensures Placed(fs, n, m)[h].parent in Placed(fs, n, m)
    ensures h in Placed(fs, n, m)[Placed(fs, n, m)[h].parent].refs
  {
    hide Placed;
    PlacedAt(fs, n, m, h);
    PlacedAt(fs, n, m, Placed(fs, n, m)[h].parent);
  }

  lemma PlacedListed(fs: FS, n: nat, m: Node, loose: set<nat>)
    requires Listed(fs, loose + {n}) && ParentsExist(fs) && CanPlace(fs, n, m)
    ensures Listed(Placed(fs, n, m), loose)
  {
    hide Placed;
    var fs' := Placed(fs, n, m);
    forall h | h in fs' && h != 0 && h !in loose && fs'[h].parent in fs' ensures h in fs'[fs'[h].parent].refs {
      PlacedAt(fs, n, m, h);
      if h != n { assert fs[h].parent in fs; }
      PlacedListedAt(fs, n, m, h);
    }
  }

  /** Paths to the root that avoid `n` are still there. */
  lemma {:induction false} PlacedAbove(fs: FS, n: nat, m: Node, h: nat, k: nat)
    requires RootOk(fs) && ParentsExist(fs) && m.parent in fs && m.parent != n && n != 0
    requires h in fs && !Under(fs, h, n) && Anc(fs, h, k) == 0
    ensures Under(Placed(fs, n, m), h, 0)
    decreases k
  {
    var fs' := Placed(fs, n, m);
    UnderStep(fs, h, n);
    if k == 0 {
      assert Anc(fs', 0, 0) == 0;
    } else {
      PlacedAbove(fs, n, m, fs[h].parent, k - 1);
      UnderStep(fs', h, 0);
    }
  }

  lemma {:induction false} PlacedBelow(fs: FS, n: nat, m: Node, h: nat, k: nat)
    requires RootOk(fs) && ParentsExist(fs) && Acyclic(fs) && m.parent in fs && n != 0
    requires !Under(fs, m.parent, n)
    requires h in fs && Anc(fs, h, k) == 0
    ensures Under(Placed(fs, n, m), h, 0)
    decreases k
  {
    var fs' := Placed(fs, n, m);
    UnderStep(fs, m.parent, n);
    if h == n {
      assert Under(fs, m.parent, 0);
      var j: nat :| Anc(fs, m.parent, j) == 0;
      PlacedAbove(fs, n, m, m.parent, j);
      UnderStep(fs', h, 0);
    } else if k == 0 {
      assert Anc(fs', 0, 0) == 0;
    } else {
      PlacedBelow(fs, n, m, fs[h].parent, k - 1);
      UnderStep(fs', h, 0);
    }
  }

  /** Placing keeps the tree free of cycles exactly when the directory is not under the item. */
  lemma PlacedAcyclic(fs: FS, n: nat, m: Node)
    requires RootOk(fs) && ParentsExist(fs) && Acyclic(fs) && m.parent in fs && n != 0
    ensures Acyclic(Placed(fs, n, m)) <==> !Under(fs, m.parent, n)
  {
    var fs' := Placed(fs, n, m);
    if Under(fs, m.parent, n) {
      var k: nat :| Anc(fs, m.parent, k) == n;
      AncExists(fs, m.parent, k);
      if Under(fs', n, 0) {
        var j: nat :| Anc(fs', n, j) == 0;
        assert Anc(fs, n, 0) == n;
        StaysUnder(fs, n, m, n, j);
        var i: nat :| Anc(fs, 0, i) == n;
        AncOfRoot(fs, i);
        assert false;
      }
    } else {
      forall h | h in fs' ensures Under(fs', h, 0) {
        assert Under(fs, m.parent, 0);
        var j: nat :| Anc(fs, m.parent, j) == 0;
        UnderStep(fs, m.parent, n);
        PlacedAbove(fs, n, m, m.parent, j);
        UnderStep(fs', n, 0);
        if h in fs {
          assert Under(fs, h, 0);
          var k: nat :| Anc(fs, h, k) == 0;
          PlacedBelow(fs, n, m, h, k);
        }
      }
    }
  }

  /** Once the directory is under the item, whatever is under the item stays so going up. */
  lemma {:induction false} StaysUnder(fs: FS, n: nat, m: Node, h: nat, k: nat)
    requires ParentsExist(fs) && n in fs && m.parent in fs && Under(fs, m.parent, n)
    requires h in fs && Under(fs, h, n)
    ensures Under(fs, Anc(Placed(fs, n, m), h, k), n)
    decreases k
  {
    if k > 0 {
      UnderStep(fs, h, n);
      StaysUnder(fs, n, m, Placed(fs, n, m)[h].parent, k - 1);
    }
  }

  lemma PlacedNames(fs: FS, n: nat, m: Node)
    requires NamesOk(fs) && CanPlace(fs, n, m)
    ensures NamesOk(Placed(fs, n, m))
  {
    hide Placed;
    var fs' := Placed(fs, n, m);
    forall g, h | g in fs' && h in fs' && fs'[g].parent == fs'[h].parent && fs'[g].name == fs'[h].name
      ensures g == h
    {
      PlacedAt(fs, n, m, g);
      PlacedAt(fs, n, m, h);
    }
  }

  lemma PlacedOk(fs: FS, n: nat, m: Node, loose: set<nat>)
    requires TreeOk(fs, loose + {n}) && CanPlace(fs, n, m)
    requires !Under(fs, m.parent, n)
    ensures TreeOk(Placed(fs, n, m), loose)
  {
    hide DirsOk, ParentsExist, Listed, NamesOk, Acyclic, Placed;
    assert Anc(fs, m.parent, 0) == m.parent;
    PlacedDirs(fs, n, m);
    PlacedParents(fs, n, m);
    PlacedListed(fs, n, m, loose);
    PlacedAcyclic(fs, n, m);
    PlacedNames(fs, n, m);
    PlacedAt(fs, n, m, 0);
  }

  lemma PlacedBlocks(fs: FS, n: nat, m: Node, lo: nat, hi: nat)
    requires BlocksOk(fs, lo, hi) && CanPlace(fs, n, m) && m.parent != n
    ensures BlocksOk(Placed(fs, n, m), lo, hi)
  {
    var fs' := Placed(fs, n, m);
    forall h: nat, b: nat | UsesBlock(fs', h, b) ensures UsesBlock(fs, h, b) && fs'[h].refs == fs[h].refs {
      PlacedAt(fs, n, m, h);
    }
    forall h | h in fs' && fs'[h].kind.File? ensures NoDup(fs'[h].refs) {
      PlacedAt(fs, n, m, h);
    }
  }

  // ----- taking an item off its directory's list -----

  function Unlisted(fs: FS, n: nat): FS
    requires n in fs && fs[n].parent in fs
  {
    fs[fs[n].parent := WithoutItem(fs[fs[n].parent], n)]
  }

  lemma UnlistedAt(fs: FS, n: nat, h: nat)
    requires n in fs && fs[n].parent in fs
    ensures h in Unlisted(fs, n) <==> h in fs
    ensures h in fs ==> Unlisted(fs, n)[h] == if h == fs[n].parent then WithoutItem(fs[h], n) else fs[h]
  {}

  lemma UnlistedItems(fs: FS, n: nat, h: nat)
    requires n in fs && fs[n].parent in fs && h in fs && ItemsOk(fs, h)
    requires h == fs[n].parent ==> n in fs[h].refs
    ensures h in Unlisted(fs, n) && ItemsOk(Unlisted(fs, n), h)
    ensures h == fs[n].parent ==> n !in Unlisted(fs, n)[h].refs
  {
    hide Unlisted;
    var fs' := Unlisted(fs, n);
    if n in fs[h].refs { WithoutMembers(fs[h].refs, n); }
    UnlistedAt(fs, n, h);
    forall c | c in fs'[h].refs ensures c in fs' && c != 0 && fs'[c].parent == h {
      UnlistedAt(fs, n, c);
    }
  }

  lemma UnlistedDirs(fs: FS, n: nat)
    requires DirsOk(fs) && ParentsExist(fs) && n in fs && n in fs[fs[n].parent].refs
    ensures DirsOk(Unlisted(fs, n)) && n !in Unlisted(fs, n)[fs[n].parent].refs
  {
    hide Unlisted, ItemsOk;
    var fs' := Unlisted(fs, n);
    forall h | h in fs' && fs'[h].kind.Dir? ensures ItemsOk(fs', h) {
      UnlistedAt(fs, n, h);
      assert fs[h].kind.Dir?;
      UnlistedItems(fs, n, h);
    }
    assert fs[fs[n].parent].kind.Dir?;
    UnlistedItems(fs, n, fs[n].parent);
  }

  lemma UnlistedListed(fs: FS, n: nat, loose: set<nat>)
    requires DirsOk(fs) && ParentsExist(fs) && Listed(fs, loose) && n in fs && n in fs[fs[n].parent].refs
    ensures ParentsExist(Unlisted(fs, n)) && Listed(Unlisted(fs, n), loose + {n})
  {
    hide Unlisted;
    var fs' := Unlisted(fs, n);
    var p := fs[n].parent;
    assert ItemsOk(fs, p) by { assert fs[p].kind.Dir?; }
    WithoutMembers(fs[p].refs, n);
    forall h | h in fs'
      ensures fs'[h].parent in fs' && fs'[fs'[h].parent].kind.Dir?
      ensures h != 0 && h !in loose + {n} ==> h in fs'[fs'[h].parent].refs
    {
      UnlistedAt(fs, n, h);
      UnlistedAt(fs, n, fs[h].parent);
    }
  }

  lemma UnlistedUnder(fs: FS, n: nat)
    requires ParentsExist(fs) && n in fs
    ensures forall h, g :: h in fs ==> (Under(Unlisted(fs, n), h, g) <==> Under(fs, h, g))
  {
    forall h | h in fs ensures Unlisted(fs, n)[h].parent == fs[h].parent && fs[h].parent in fs {
      UnlistedAt(fs, n, h);
    }
    hide Unlisted;
    UnderSame(fs, Unlisted(fs, n));
  }

  lemma UnlistedOk(fs: FS, n: nat, loose: set<nat>)
    requires TreeOk(fs, loose) && n in fs && n in fs[fs[n].parent].refs
    ensures TreeOk(Unlisted(fs, n), loose + {n})
    ensures n !in Unlisted(fs, n)[fs[n].parent].refs
  {
    hide Unlisted, DirsOk, Listed;
    var fs' := Unlisted(fs, n);
    UnlistedDirs(fs, n);
    UnlistedListed(fs, n, loose);
    UnlistedUnder(fs, n);
    UnlistedAt(fs, n, 0);
    forall h | h in fs' ensures Under(fs', h, 0) {
      UnlistedAt(fs, n, h);
      assert Under(fs, h, 0);
    }
    forall g, h | g in fs' && h in fs' && fs'[g].parent == fs'[h].parent && fs'[g].name == fs'[h].name
      ensures g == h
    {
      UnlistedAt(fs, n, g);
      UnlistedAt(fs, n, h);
    }
  }

  lemma UnlistedBlocks(fs: FS, n: nat, lo: nat, hi: nat)
    requires BlocksOk(fs, lo, hi) && n in fs && fs[n].parent in fs && fs[fs[n].parent].kind.Dir?
    ensures BlocksOk(Unlisted(fs, n), lo, hi)
  {
    var fs' := Unlisted(fs, n);
    forall h: nat, b: nat | UsesBlock(fs', h, b) ensures UsesBlock(fs, h, b) && fs'[h].refs == fs[h].refs {
      UnlistedAt(fs, n, h);
    }
    forall h | h in fs' && fs'[h].kind.File? ensures NoDup(fs'[h].refs) {
      UnlistedAt(fs, n, h);
    }
  }

  // ----- moving an item -----

  lemma {:induction false} SelfParent(fs: FS, n: nat, k: nat)
    requires n in fs && fs[n].parent == n
    ensures Anc(fs, n, k) == n
  {
    if k > 0 { SelfParent(fs, n, k - 1); }
  }

  lemma ParentDiffers(fs: FS, n: nat)
    requires n in fs && n != 0 && Acyclic(fs)
    ensures fs[n].parent != n
  {
    if fs[n].parent == n {
      assert Under(fs, n, 0);
      var k: nat :| Anc(fs, n, k) == 0;
      SelfParent(fs, n, k);
    }
  }

  /** `fs` with item `n` taken off its directory's list and placed as `m`. */
  function Moved(fs: FS, n: nat, m: Node): FS
    requires n in fs && fs[n].parent in fs && m.parent in fs
  {
    Placed(Unlisted(fs, n), n, m)
  }

  /** `m` is item `n` under another name or in another directory, where there is room for it. */
  ghost predicate CanMove(fs: FS, n: nat, m: Node) {
    && n in fs && n != 0 && !m.kind.Free?
    && m.kind == fs[n].kind && m.chain == fs[n].chain && m.size == fs[n].size && m.refs == fs[n].refs
    && m.parent in fs && fs[m.parent].kind.Dir?
    && (|fs[m.parent].refs| < REFS || m.parent == fs[n].parent)
    && (forall h {:trigger fs[h].name} :: h in fs && h != n && fs[h].parent == m.parent ==> fs[h].name != m.name)
  }

  lemma MoveStart(fs: FS, n: nat, m: Node)
    requires TreeOk(fs, {}) && CanMove(fs, n, m)
    ensures fs[n].parent in fs && n in fs[fs[n].parent].refs && fs[n].parent != n
    ensures fs[fs[n].parent].kind.Dir? && ItemsOk(fs, fs[n].parent) && ItemsOk(fs, m.parent)
  {
    hide ItemsOk;
    ListedAt(fs, n);
    ParentDiffers(fs, n);
    assert fs[fs[n].parent].kind.Dir? && fs[m.parent].kind.Dir?;
  }

  lemma MovedRoom(fs: FS, n: nat, m: Node)
    requires CanMove(fs, n, m) && fs[n].parent in fs
    requires n in fs[fs[n].parent].refs && ItemsOk(fs, fs[n].parent) && ItemsOk(fs, m.parent)
    ensures n !in Unlisted(fs, n)[fs[n].parent].refs
    ensures |Unlisted(fs, n)[m.parent].refs| < REFS && Unlisted(fs, n)[m.parent].kind.Dir?
  {
    hide Unlisted;
    WithoutMembers(fs[fs[n].parent].refs, n);
    UnlistedAt(fs, n, fs[n].parent);
    UnlistedAt(fs, n, m.parent);
  }

  lemma MovedName(fs: FS, n: nat, m: Node, h: nat)
    requires CanMove(fs, n, m) && fs[n].parent in fs
    requires h in fs && h != n && fs[h].parent == m.parent
    ensures h in Unlisted(fs, n) && Unlisted(fs, n)[h].name != m.name
  {
    assert fs[h].name != m.name;
    UnlistedAt(fs, n, h);
  }

  lemma MovedCanPlace(fs: FS, n: nat, m: Node)
    requires TreeOk(fs, {}) && CanMove(fs, n, m)
    ensures fs[n].parent in fs && n in fs[fs[n].parent].refs && fs[n].parent != n
    ensures CanPlace(Unlisted(fs, n), n, m)
  {
    MoveStart(fs, n, m);
    hide Unlisted, TreeOk, ItemsOk;
    MovedRoom(fs, n, m);
    UnlistedAt(fs, n, n);
    forall h | h in Unlisted(fs, n) && h != n && Unlisted(fs, n)[h].parent == m.parent
      ensures Unlisted(fs, n)[h].name != m.name
    {
      UnlistedAt(fs, n, h);
      MovedName(fs, n, m, h);
    }
  }

  /** A move leaves a well-formed file system exactly when it does not put a directory under itself. */
  lemma MovedOk(fs: FS, n: nat, m: Node, lo: nat, hi: nat)
    requires WellFormed(fs, lo, hi) && CanMove(fs, n, m)
    ensures fs[n].parent in fs
    ensures WellFormed(Moved(fs, n, m), lo, hi) <==> !Under(fs, m.parent, n)
  {
    hide Unlisted, Placed, DirsOk, NamesOk, Listed, BlocksOk, Under, Acyclic, ParentsExist;
    MovedCanPlace(fs, n, m);
    ListedAt(fs, n);
    var fs1 := Unlisted(fs, n);
    UnlistedOk(fs, n, {});
    assert {} + {n} == {n};
    UnlistedUnder(fs, n);
    PlacedAcyclic(fs1, n, m);
    if !Under(fs, m.parent, n) {
      PlacedOk(fs1, n, m, {});
      UnlistedBlocks(fs, n, lo, hi);
      UnderSelf(fs, n);
      PlacedBlocks(fs1, n, m, lo, hi);
    }
  }

  /** What moving does to one item. */
  lemma MovedAt(fs: FS, n: nat, m: Node, h: nat)
    requires n in fs && m.parent in fs && fs[n].parent in fs && fs[n].parent != n && h in fs
    ensures h in Moved(fs, n, m)
    ensures var x := if h == n then m else if h == fs[n].parent then WithoutItem(fs[h], n) else fs[h];
      Moved(fs, n, m)[h] == if h == m.parent then WithItem(x, n) else x
  {
    hide Unlisted, Placed;
    UnlistedAt(fs, n, h);
    UnlistedAt(fs, n, m.parent);
    PlacedAt(Unlisted(fs, n), n, m, h);
  }

  /** A move conserves everything but the place of `n`, which leaves one list and joins one once. */
  lemma MovedConserves(fs: FS, n: nat, m: Node)
    requires TreeOk(fs, {}) && CanMove(fs, n, m) && !Under(fs, m.parent, n)
    ensures fs[n].parent in fs
    ensures Moved(fs, n, m).Keys == fs.Keys
    ensures forall h :: h in fs && fs[h].kind.File? ==> Moved(fs, n, m)[h].refs == fs[h].refs
    ensures forall h, g :: h in fs && fs[h].kind.Dir? && g != n ==>
      multiset(Moved(fs, n, m)[h].refs)[g] == multiset(fs[h].refs)[g]
    ensures forall h :: h in fs && fs[h].kind.Dir? ==>
      multiset(Moved(fs, n, m)[h].refs)[n] == if h == m.parent then 1 else 0
  {
    hide Moved, DirsOk, ParentsExist, Listed, NamesOk, Acyclic;
    UnderSelf(fs, n);
    MovedCanPlace(fs, n, m);
    forall h | h in fs
      ensures h in Moved(fs, n, m)
      ensures fs[h].kind.File? ==> Moved(fs, n, m)[h].refs == fs[h].refs
      ensures fs[h].kind.Dir? ==> forall g ::
        multiset(Moved(fs, n, m)[h].refs)[g] ==
          if g != n then multiset(fs[h].refs)[g] else if h == m.parent then 1 else 0
    {
      MovedAt(fs, n, m, h);
      MovedCount(fs, n, h);
      MovedCount(fs, n, m.parent);
    }
    assert Moved(fs, n, m).Keys == fs.Keys by { MovedKeys(fs, n, m); }
  }

  lemma MovedKeys(fs: FS, n: nat, m: Node)
    requires n in fs && fs[n].parent in fs && m.parent in fs
    ensures Moved(fs, n, m).Keys == fs.Keys
  {}

  lemma MovedCount(fs: FS, n: nat, h: nat)
    requires TreeOk(fs, {}) && n in fs && n != 0 && h in fs
    ensures h == fs[n].parent ==> multiset(fs[h].refs) == multiset(Without(fs[h].refs, n)) + multiset{n}
    ensures fs[h].kind.Dir? ==> multiset(fs[h].refs)[n] == if h == fs[n].parent then 1 else 0
    ensures h == fs[n].parent ==> fs[h].kind.Dir?
  {
    ListedAt(fs, n);
    if fs[h].kind.Dir? {
      assert ItemsOk(fs, h);
      hide DirsOk, ParentsExist, Listed, NamesOk, Acyclic;
      if n in fs[h].refs {
        WithoutCount(fs[h].refs, n);
        NoDupCount(fs[h].refs, n);
      }
    }
  }

  // ----- removing a subtree -----

  /** `fs` without `n` and everything under it. */
  ghost function Removed(fs: FS, n: nat): FS
    requires n in fs
  {
    map h | h in fs && !Under(fs, h, n) :: if h == fs[n].parent then WithoutItem(fs[h], n) else fs[h]
  }

  lemma RemovedAt(fs: FS, n: nat, h: nat)
    requires n in fs
    ensures h in Removed(fs, n) <==> h in fs && !Under(fs, h, n)
    ensures h in Removed(fs, n) ==> Removed(fs, n)[h] == if h == fs[n].parent then WithoutItem(fs[h], n) else fs[h]
  {}

  lemma RootUnderNone(fs: FS, n: nat)
    requires RootOk(fs) && n != 0
    ensures !Under(fs, 0, n)
  {
    forall k: nat ensures Anc(fs, 0, k) != n { AncOfRoot(fs, k); }
  }

  lemma RemovedParents(fs: FS, n: nat)
    requires RootOk(fs) && ParentsExist(fs) && n in fs && n != 0
    ensures RootOk(Removed(fs, n)) && ParentsExist(Removed(fs, n))
  {
    hide Removed, Under;
    var fs' := Removed(fs, n);
    RootUnderNone(fs, n);
    RemovedAt(fs, n, 0);
    forall h | h in fs' ensures fs'[h].parent in fs' && fs'[fs'[h].parent].kind.Dir? {
      RemovedAt(fs, n, h);
      UnderStep(fs, h, n);
      RemovedAt(fs, n, fs[h].parent);
    }
  }

  lemma RemovedItems(fs: FS, n: nat, h: nat)
    requires n in fs && h in fs && ItemsOk(fs, h) && h in Removed(fs, n)
    requires h == fs[n].parent ==> n in fs[h].refs
    ensures ItemsOk(Removed(fs, n), h)
  {
    hide Removed, Under;
    var fs' := Removed(fs, n);
    if n in fs[h].refs { WithoutMembers(fs[h].refs, n); }
    RemovedAt(fs, n, h);
    forall c | c in fs'[h].refs ensures c in fs' && c != 0 && fs'[c].parent == h {
      assert c in fs[h].refs && c != n;
      UnderStep(fs, c, n);
      RemovedAt(fs, n, c);
    }
  }

  lemma RemovedDirs(fs: FS, n: nat)
    requires RootOk(fs) && DirsOk(fs) && ParentsExist(fs) && n in fs && n != 0 && n in fs[fs[n].parent].refs
    ensures RootOk(Removed(fs, n)) && DirsOk(Removed(fs, n)) && ParentsExist(Removed(fs, n))
  {
    hide Removed, Under, ItemsOk;
    var fs' := Removed(fs, n);
    RemovedParents(fs, n);
    forall h | h in fs' && fs'[h].kind.Dir? ensures ItemsOk(fs', h) {
      RemovedAt(fs, n, h);
      assert fs[h].kind.Dir?;
      RemovedItems(fs, n, h);
    }
  }

  lemma RemovedListed(fs: FS, n: nat)
    requires ParentsExist(fs) && Listed(fs, {}) && n in fs
    ensures Listed(Removed(fs, n), {})
  {
    hide Removed, Under;
    var fs' := Removed(fs, n);
    forall h | h in fs' && h != 0 && fs'[h].parent in fs' ensures h in fs'[fs'[h].parent].refs {
      RemovedAt(fs, n, h);
      var p := fs[h].parent;
      assert fs'[h].parent == p;
      RemovedAt(fs, n, p);
      UnderSelf(fs, n);
      assert h in fs[p].refs;
      WithoutKeeps(fs[p].refs, n, h);
    }
  }

  lemma RemovedAcyclic(fs: FS, n: nat)
    requires RootOk(fs) && ParentsExist(fs) && Acyclic(fs) && n in fs && n != 0
    ensures Acyclic(Removed(fs, n))
  {
    hide Removed, Under, Anc;
    var fs' := Removed(fs, n);
    RemovedParents(fs, n);
    RemovedUnder(fs, n);
    forall h | h in fs' ensures Under(fs', h, 0) {
      RemovedAt(fs, n, h);
      assert Under(fs, h, 0);
    }
  }

  lemma RemovedUnder(fs: FS, n: nat)
    requires RootOk(fs) && ParentsExist(fs) && n in fs && n != 0
    ensures forall h, g :: h in Removed(fs, n) ==> (Under(Removed(fs, n), h, g) <==> Under(fs, h, g))
  {
    hide Removed, Under, Anc;
    var fs' := Removed(fs, n);
    RemovedParents(fs, n);
    forall h | h in fs' ensures h in fs && fs'[h].parent == fs[h].parent && fs[h].parent in fs' {
      RemovedAt(fs, n, h);
      assert fs'[h].parent in fs';
    }
    UnderSame(fs, fs');
  }

  lemma RemovedOk(fs: FS, n: nat)
    requires TreeOk(fs, {}) && n in fs && n != 0
    ensures TreeOk(Removed(fs, n), {})
  {
    hide Removed, DirsOk, Listed, Acyclic, Under;
    var fs' := Removed(fs, n);
    assert fs[n].parent in fs && n in fs[fs[n].parent].refs by { ListedAt(fs, n); }
    RemovedDirs(fs, n);
    RemovedListed(fs, n);
    RemovedAcyclic(fs, n);
    forall g, h | g in fs' && h in fs' && fs'[g].parent == fs'[h].parent && fs'[g].name == fs'[h].name
      ensures g == h
    {
      RemovedAt(fs, n, g);
      RemovedAt(fs, n, h);
    }
  }

  lemma ListedAt(fs: FS, n: nat)
    requires ParentsExist(fs) && Listed(fs, {}) && n in fs && n != 0
    ensures fs[n].parent in fs && n in fs[fs[n].parent].refs && fs[fs[n].parent].kind.Dir?
  {}

  lemma {:induction false} NothingBelow(fs: FS, n: nat, k: nat)
    requires RootOk(fs) && ParentsExist(fs) && Listed(fs, {}) && fs[0].refs == []
    requires n in fs && Anc(fs, n, k) == 0
    ensures n == 0
    decreases k
  {
    if n != 0 {
      assert n in fs[fs[n].parent].refs;
      NothingBelow(fs, fs[n].parent, k - 1);
    }
  }

  /** A directory other than the root is somewhere under the root. */
  lemma RootNotEmpty(fs: FS, n: nat)
    requires TreeOk(fs, {}) && n in fs && n != 0
    ensures fs[0].refs != []
  {
    assert Under(fs, n, 0);
    var k: nat :| Anc(fs, n, k) == 0;
    if fs[0].refs == [] { NothingBelow(fs, n, k); }
  }

  // ----- changing a file -----

  lemma FileUnder(fs: FS, n: nat, m: Node)
    requires ParentsExist(fs) && n in fs && m.parent == fs[n].parent
    ensures forall h, g :: h in fs ==> (Under(fs[n := m], h, g) <==> Under(fs, h, g))
  {
    forall h | h in fs[n := m] ensures h in fs && fs[n := m][h].parent == fs[h].parent && fs[h].parent in fs[n := m] {}
    hide Under, Anc;
    UnderSame(fs, fs[n := m]);
  }

  lemma FileDirs(fs: FS, n: nat, m: Node)
    requires DirsOk(fs) && n in fs && fs[n].kind.File? && m.kind.File? && m.parent == fs[n].parent
    ensures DirsOk(fs[n := m])
  {
    var fs' := fs[n := m];
    forall h | h in fs' && fs'[h].kind.Dir? ensures ItemsOk(fs', h) { assert fs[h].kind.Dir? && ItemsOk(fs, h); }
  }

  lemma FileListed(fs: FS, n: nat, m: Node)
    requires ParentsExist(fs) && Listed(fs, {}) && n in fs && fs[n].kind.File? && m.kind.File?
    requires m.parent == fs[n].parent
    ensures ParentsExist(fs[n := m]) && Listed(fs[n := m], {})
  {
    var fs' := fs[n := m];
    forall h | h in fs'
      ensures fs'[h].parent in fs' && fs'[fs'[h].parent].kind.Dir?
      ensures h != 0 ==> h in fs'[fs'[h].parent].refs
    {
      assert fs[h].parent in fs && fs[h].parent != n;
    }
  }

  /** The tree does not depend on what files contain. */
  lemma FileChanged(fs: FS, n: nat, m: Node)
    requires TreeOk(fs, {}) && n in fs && n != 0 && fs[n].kind.File?
    requires m.kind.File? && m.name == fs[n].name && m.parent == fs[n].parent
    ensures TreeOk(fs[n := m], {})
  {
    hide DirsOk, ParentsExist, Listed, NamesOk, Under, Anc;
    var fs' := fs[n := m];
    FileUnder(fs, n, m);
    FileDirs(fs, n, m);
    FileListed(fs, n, m);
    FileNames(fs, n, m);
    forall h | h in fs' ensures Under(fs', h, 0) { assert Under(fs, h, 0); }
  }

  /** Nor does what is wrong with it. */
  lemma FileSame(fs: FS, n: nat, m: Node)
    requires n in fs && n != 0 && fs[n].kind.File?
    requires m.kind.File? && m.name == fs[n].name && m.parent == fs[n].parent
    ensures TreeOk(fs[n := m], {}) <==> TreeOk(fs, {})
  {
    hide TreeOk;
    if TreeOk(fs, {}) { FileChanged(fs, n, m); }
    if TreeOk(fs[n := m], {}) {
      FileChanged(fs[n := m], n, fs[n]);
      assert fs[n := m][n := fs[n]] == fs;
    }
  }

  lemma FileNames(fs: FS, n: nat, m: Node)
    requires NamesOk(fs) && n in fs && m.name == fs[n].name && m.parent == fs[n].parent
    ensures NamesOk(fs[n := m])
  {
    var fs' := fs[n := m];
    forall g, h | g in fs' && h in fs' && fs'[g].parent == fs'[h].parent && fs'[g].name == fs'[h].name ensures g == h {
      assert fs[g].name == fs'[g].name && fs[h].name == fs'[h].name;
    }
  }
}
