/** Deleting an item with everything below it. */
module Deletion {
  import opened Entries
  import opened Layout
  import opened Trees
  import opened Tables
  import opened Directories

  /** `n` heads a subtree that can be deleted: it is listed, and so is everything below it. */
  ghost predicate Deletable(fs: FS, n: nat) {
    && RootOk(fs) && DirsOk(fs) && ParentsExist(fs)
    && n in fs && n != 0 && n in fs[fs[n].parent].refs
    && ListedBelow(fs, n)
  }

  ghost predicate ListedBelow(fs: FS, n: nat) {
    forall h {:trigger fs[h].parent} :: h in fs && h != 0 && fs[h].parent in fs && Under(fs, fs[h].parent, n) ==>
      h in fs[fs[h].parent].refs
  }

  /** No path up to `n` is longer than `height`. */
  ghost predicate Tall(fs: FS, n: nat, height: nat) {
    forall h, k: nat :: h in fs && Anc(fs, h, k) == n ==> k <= height
  }

  /** Block numbers are larger than entry numbers, so no file refers to an entry. */
  ghost predicate BlocksAbove(fs: FS, count: nat) {
    forall h: nat, b: nat :: UsesBlock(fs, h, b) ==> b >= count
  }

  ghost predicate UnderAny(fs: FS, h: nat, items: seq<nat>) {
    exists i :: 0 <= i < |items| && Under(fs, h, items[i])
  }

  lemma UnderOneMore(fs: FS, h: nat, items: seq<nat>, c: nat)
    ensures UnderAny(fs, h, items + [c]) <==> UnderAny(fs, h, items) || Under(fs, h, c)
  {
    hide Under;
    var more := items + [c];
    assert more[|items|] == c;
    if i :| 0 <= i < |items| && Under(fs, h, items[i]) { assert more[i] == items[i]; }
  }

  /** `fs1` after the first `b` items of directory `n` are gone with all below them. */
  ghost predicate Emptied(fs1: FS, fs2: FS, n: nat, b: nat)
    requires n in fs1
  {
    && b <= |fs1[n].refs| == fs1[n].size
    && (forall h :: h in fs2 <==> h in fs1 && !UnderAny(fs1, h, fs1[n].refs[..b]))
    && (forall h :: h in fs2 && h != n ==> fs2[h] == fs1[h])
    && n in fs2
    && fs2[n] == Node(fs1[n].kind, fs1[n].name, fs1[n].parent, fs1[n].chain, fs1[n].size - b, fs1[n].refs[b..])
  }

  lemma EmptiedNone(fs1: FS, n: nat)
    requires n in fs1 && fs1[n].size == |fs1[n].refs|
    ensures Emptied(fs1, fs1, n, 0)
  {}

  lemma EmptiedParent(fs1: FS, fs2: FS, n: nat, b: nat, h: nat)
    requires n in fs1 && Emptied(fs1, fs2, n, b) && h in fs2
    ensures h in fs1 && fs2[h].parent == fs1[h].parent && fs2[h].chain == fs1[h].chain && fs2[h].kind == fs1[h].kind
  {}

  lemma EmptiedUnder(fs1: FS, fs2: FS, n: nat, b: nat)
    requires n in fs1 && Emptied(fs1, fs2, n, b) && ParentsExist(fs2)
    ensures forall h, g :: h in fs2 ==> (Under(fs2, h, g) <==> Under(fs1, h, g))
    ensures forall h, k :: h in fs2 ==> Anc(fs2, h, k) == Anc(fs1, h, k)
  {
    hide Under, Anc, Emptied;
    forall h | h in fs2 ensures h in fs1 && fs2[h].parent == fs1[h].parent && fs1[h].parent in fs2 {
      EmptiedParent(fs1, fs2, n, b, h);
      assert fs2[h].parent in fs2;
    }
    UnderSame(fs1, fs2);
    forall h, k: nat | h in fs2 ensures Anc(fs2, h, k) == Anc(fs1, h, k) { AncSame(fs1, fs2, h, k); }
  }

  lemma EmptiedOnce(fs1: FS, fs2: FS, n: nat, b: nat)
    requires n in fs1 && ParentsExist(fs1) && Emptied(fs1, fs2, n, b) && ParentsExist(fs2) && b < |fs1[n].refs|
    requires var c := fs1[n].refs[b]; c in fs2 && fs2[c].parent == n && !Under(fs1, n, c)
    ensures Emptied(fs1, Removed(fs2, fs1[n].refs[b]), n, b + 1)
  {
    hide Under, Anc, Removed, UnderAny, ParentsExist;
    var c := fs1[n].refs[b];
    EmptiedUnder(fs1, fs2, n, b);
    var fs3 := Removed(fs2, c);
    assert fs1[n].refs[..b+1] == fs1[n].refs[..b] + [c];
    forall h: nat ensures h in fs3 <==> h in fs1 && !UnderAny(fs1, h, fs1[n].refs[..b+1]) {
      RemovedAt(fs2, c, h);
      UnderOneMore(fs1, h, fs1[n].refs[..b], c);
    }
    forall h | h in fs3 && h != n ensures fs3[h] == fs1[h] {
      RemovedAt(fs2, c, h);
    }
    RemovedAt(fs2, c, n);
    assert fs2[n].refs[0] == c;
    assert fs1[n].refs[b..][1..] == fs1[n].refs[b+1..];
  }

  lemma {:induction false} BelowItemAt(fs: FS, n: nat, h: nat, k: nat)
    requires ParentsExist(fs) && n in fs && n != 0 && RootOk(fs) && ListedBelow(fs, n) && h in fs && h != n
    requires Anc(fs, h, k) == n
    ensures UnderAny(fs, h, fs[n].refs)
    decreases k
  {
    var p := fs[h].parent;
    assert k > 0 && Anc(fs, p, k - 1) == n;
    if p == n {
      UnderSelf(fs, n);
      RootUnderNone(fs, n);
      assert h in fs[n].refs;
      UnderSelf(fs, h);
    } else {
      BelowItemAt(fs, n, p, k - 1);
      var i :| 0 <= i < |fs[n].refs| && Under(fs, p, fs[n].refs[i]);
      UnderStep(fs, h, fs[n].refs[i]);
    }
  }

  /** What lies below a directory lies below one of its items. */
  lemma BelowItem(fs: FS, n: nat, h: nat)
    requires RootOk(fs) && DirsOk(fs) && ParentsExist(fs) && ListedBelow(fs, n)
    requires n in fs && n != 0 && fs[n].kind.Dir? && h in fs
    ensures Under(fs, h, n) <==> h == n || UnderAny(fs, h, fs[n].refs)
  {
    if h == n {
      UnderSelf(fs, n);
    } else if Under(fs, h, n) {
      var k: nat :| Anc(fs, h, k) == n;
      BelowItemAt(fs, n, h, k);
    } else if i :| 0 <= i < |fs[n].refs| && Under(fs, h, fs[n].refs[i]) {
      var c := fs[n].refs[i];
      assert ItemsOk(fs, n);
      UnderSelf(fs, n);
      UnderStep(fs, c, n);
      UnderTrans(fs, h, c, n);
    }
  }

  /** With all items gone, dropping the directory itself completes the removal of its subtree. */
  lemma EmptiedAll(fs: FS, fs2: FS, n: nat)
    requires Deletable(fs, n) && fs[n].parent in fs && fs[n].parent != n && fs[n].kind.Dir?
    requires Emptied(Unlisted(fs, n), fs2, n, |fs[n].refs|)
    ensures fs2 - {n} == Removed(fs, n)
  {
    hide Removed, Unlisted, Under, Anc, DirsOk, ListedBelow, UnderAny, ParentsExist;
    var fs1 := Unlisted(fs, n);
    UnlistedAt(fs, n, n);
    assert fs1[n].refs[..|fs[n].refs|] == fs[n].refs;
    forall h: nat ensures h in fs2 - {n} <==> h in Removed(fs, n) {
      UnlistedAt(fs, n, h);
      RemovedAt(fs, n, h);
      if h in fs {
        BelowItem(fs, n, h);
        UnlistedUnderAny(fs, n, h, fs[n].refs);
      }
    }
    forall h | h in fs2 - {n} ensures (fs2 - {n})[h] == Removed(fs, n)[h] {
      UnlistedAt(fs, n, h);
      RemovedAt(fs, n, h);
    }
  }

  lemma UnlistedUnderAny(fs: FS, n: nat, h: nat, items: seq<nat>)
    requires ParentsExist(fs) && n in fs && h in fs
    ensures UnderAny(Unlisted(fs, n), h, items) <==> UnderAny(fs, h, items)
  {
    hide Under, Unlisted;
    UnlistedUnder(fs, n);
  }

  /** Nothing lies below a file. */
  lemma FileRemoved(fs: FS, n: nat)
    requires ParentsExist(fs) && n in fs && n != 0 && fs[n].kind.File? && fs[n].parent in fs
    ensures Unlisted(fs, n) - {n} == Removed(fs, n)
  {
    hide Removed, Unlisted, Under, Anc, ParentsExist;
    forall h: nat ensures h in Unlisted(fs, n) - {n} <==> h in Removed(fs, n) {
      UnlistedAt(fs, n, h);
      RemovedAt(fs, n, h);
      UnderSelf(fs, n);
      if h in fs && Under(fs, h, n) { OnlyItself(fs, n, h); }
    }
    forall h | h in Removed(fs, n) ensures (Unlisted(fs, n) - {n})[h] == Removed(fs, n)[h] {
      UnlistedAt(fs, n, h);
      RemovedAt(fs, n, h);
    }
  }

  lemma OnlyItself(fs: FS, n: nat, h: nat)
    requires ParentsExist(fs) && n in fs && fs[n].kind.File? && h in fs && Under(fs, h, n)
    ensures h == n
  {
    var k: nat :| Anc(fs, h, k) == n;
    OnlyItselfAt(fs, n, h, k);
  }

  lemma {:induction false} OnlyItselfAt(fs: FS, n: nat, h: nat, k: nat)
    requires ParentsExist(fs) && n in fs && fs[n].kind.File? && h in fs && Anc(fs, h, k) == n
    ensures h == n
    decreases k
  {
    if h != n { OnlyItselfAt(fs, n, fs[h].parent, k - 1); }
  }

  // ----- no cycles below -----

  lemma {:induction false} AncLoop(fs: FS, n: nat, j: nat, times: nat)
    requires j > 0 && Anc(fs, n, j) == n
    ensures Anc(fs, n, times * j) == n && times * j >= times
  {
    if times > 0 {
      AncLoop(fs, n, j, times - 1);
      AncAdd(fs, n, (times - 1) * j, j);
    }
  }

  /** An item whose subtree has a height is not below itself. */
  lemma NotBelowItself(fs: FS, n: nat, height: nat)
    requires n in fs && Tall(fs, n, height)
    ensures !Under(fs, fs[n].parent, n)
  {
    if k: nat :| Anc(fs, fs[n].parent, k) == n {
      AncLoop(fs, n, k + 1, height + 1);
    }
  }

  lemma NotBelowItem(fs: FS, n: nat, height: nat, c: nat)
    requires n in fs && Tall(fs, n, height) && c in fs && fs[c].parent == n && fs[n].parent in fs && c != n
    ensures !Under(fs, n, c)
  {
    NotBelowItself(fs, n, height);
    if Under(fs, n, c) {
      UnderStep(fs, n, c);
      UnderSelf(fs, n);
      UnderStep(fs, c, n);
      UnderTrans(fs, fs[n].parent, c, n);
    }
  }

  lemma UnlistedDeletable(fs: FS, n: nat, height: nat)
    requires Deletable(fs, n) && Tall(fs, n, height)
    ensures fs[n].parent in fs && fs[n].parent != n && fs[fs[n].parent].kind.Dir?
    ensures n in Unlisted(fs, n) && RootOk(Unlisted(fs, n)) && DirsOk(Unlisted(fs, n)) && ParentsExist(Unlisted(fs, n))
    ensures ListedBelow(Unlisted(fs, n), n) && Tall(Unlisted(fs, n), n, height)
    ensures n !in Unlisted(fs, n)[fs[n].parent].refs
  {
    hide Unlisted, Under, Anc;
    var fs1 := Unlisted(fs, n);
    NotBelowItself(fs, n, height);
    UnderSelf(fs, n);
    UnlistedDirs(fs, n);
    UnlistedParents(fs, n);
    UnlistedUnder(fs, n);
    UnlistedAt(fs, n, 0);
    UnlistedAt(fs, n, n);
    forall h | h in fs1 && h != 0 && fs1[h].parent in fs1 && Under(fs1, fs1[h].parent, n)
      ensures h in fs1[fs1[h].parent].refs
    {
      UnlistedAt(fs, n, h);
      UnlistedAt(fs, n, fs[h].parent);
    }
    forall h, k: nat | h in fs1 && Anc(fs1, h, k) == n ensures k <= height {
      UnlistedAt(fs, n, h);
      UnlistedAnc(fs, n, h, k);
    }
  }

  lemma UnlistedParents(fs: FS, n: nat)
    requires ParentsExist(fs) && n in fs
    ensures ParentsExist(Unlisted(fs, n))
  {
    hide Unlisted;
    forall h | h in Unlisted(fs, n)
      ensures Unlisted(fs, n)[h].parent in Unlisted(fs, n) && Unlisted(fs, n)[Unlisted(fs, n)[h].parent].kind.Dir?
    {
      UnlistedAt(fs, n, h);
      UnlistedAt(fs, n, fs[h].parent);
    }
  }

  lemma UnlistedAnc(fs: FS, n: nat, h: nat, k: nat)
    requires ParentsExist(fs) && n in fs && h in fs
    ensures Anc(Unlisted(fs, n), h, k) == Anc(fs, h, k)
  {
    forall g | g in fs ensures Unlisted(fs, n)[g].parent == fs[g].parent && fs[g].parent in fs {
      UnlistedAt(fs, n, g);
    }
    hide Unlisted, Anc;
    UnlistedAt(fs, n, h);
    AncSame(fs, Unlisted(fs, n), h, k);
  }

  lemma NextListed(fs1: FS, fs2: FS, n: nat, b: nat, c: nat)
    requires n in fs1 && Emptied(fs1, fs2, n, b) && ParentsExist(fs2)
    requires ListedBelow(fs1, n) && c in fs1 && fs1[c].parent == n && !Under(fs1, n, c)
    ensures ListedBelow(fs2, c)
  {
    EmptiedUnder(fs1, fs2, n, b);
    UnderSelf(fs1, n);
    UnderStep(fs1, c, n);
    hide Anc, Under, UnderAny, ParentsExist;
    forall h | h in fs2 && h != 0 && fs2[h].parent in fs2 && Under(fs2, fs2[h].parent, c)
      ensures h in fs2[fs2[h].parent].refs
    {
      EmptiedParent(fs1, fs2, n, b, h);
      var p := fs1[h].parent;
      UnderTrans(fs1, p, c, n);
      assert p != n && fs2[p] == fs1[p];
    }
  }

  lemma NextTall(fs1: FS, fs2: FS, n: nat, b: nat, c: nat, height: nat)
    requires n in fs1 && Emptied(fs1, fs2, n, b) && ParentsExist(fs2)
    requires Tall(fs1, n, height) && c in fs1 && fs1[c].parent == n
    ensures height > 0 && Tall(fs2, c, height - 1)
  {
    EmptiedUnder(fs1, fs2, n, b);
    UpOne(fs1, c);
    hide Under, Anc, UnderAny, ParentsExist;
    forall h, k: nat | h in fs2 && Anc(fs2, h, k) == c ensures k <= height - 1 {
      EmptiedParent(fs1, fs2, n, b, h);
      AncAdd(fs1, h, k, 1);
    }
  }

  /** The next item of a directory being emptied can be deleted in its turn. */
  lemma NextDeletable(fs1: FS, fs2: FS, n: nat, b: nat, height: nat)
    requires n in fs1 && n != 0 && Emptied(fs1, fs2, n, b) && b < |fs1[n].refs| && fs1[n].kind.Dir?
    requires RootOk(fs2) && DirsOk(fs2) && ParentsExist(fs2)
    requires ListedBelow(fs1, n) && Tall(fs1, n, height) && fs1[n].parent in fs1 && fs1[n].parent != n
    ensures var c := fs1[n].refs[b];
      && Deletable(fs2, c) && height > 0 && Tall(fs2, c, height - 1)
      && fs2[c].parent == n && c != n && !Under(fs1, n, c)
  {
    var c := fs1[n].refs[b];
    assert c == fs2[n].refs[0];
    assert ItemsOk(fs2, n) by { assert fs2[n].kind.Dir?; }
    EmptiedParent(fs1, fs2, n, b, c);
    hide Anc, Under, UnderAny, Tall, ListedBelow, Emptied;
    SelfItem(fs1, n, height, c);
    NextListed(fs1, fs2, n, b, c);
    NextTall(fs1, fs2, n, b, c, height);
  }

  lemma UpOne(fs: FS, h: nat)
    requires h in fs
    ensures Anc(fs, h, 1) == fs[h].parent
  {
    assert Anc(fs, fs[h].parent, 0) == fs[h].parent;
  }

  lemma SelfItem(fs: FS, n: nat, height: nat, c: nat)
    requires n in fs && Tall(fs, n, height) && c in fs && fs[c].parent == n && fs[n].parent in fs && fs[n].parent != n
    ensures c != n && !Under(fs, n, c)
  {
    NotBelowItem(fs, n, height, c);
  }

  // ----- what happens to the table -----

  /** Entry `e` belongs to `n` or to something under it. */
  ghost predicate Below(fs: FS, e: nat, n: nat) {
    exists h: nat :: Owns(fs, h, e) && Under(fs, h, n)
  }

  ghost predicate BelowAny(fs: FS, e: nat, items: seq<nat>) {
    exists h: nat :: Owns(fs, h, e) && UnderAny(fs, h, items)
  }

  /** Exactly the entries of `n` and of everything under it are zeroed; of the others at most the
      entry of the directory that listed `n` has changed. */
  ghost predicate Wiped(tab: Table, tab': Table, fs: FS, n: nat)
    requires n in fs
  {
    && |tab'| == |tab|
    && forall e :: 0 <= e < |tab| && e != fs[n].parent ==> tab'[e] == if Below(fs, e, n) then ZeroEntry() else tab[e]
  }

  ghost predicate WipedItems(tab: Table, tab': Table, fs: FS, n: nat, items: seq<nat>) {
    && |tab'| == |tab|
    && forall e :: 0 <= e < |tab| && e != n ==> tab'[e] == if BelowAny(fs, e, items) then ZeroEntry() else tab[e]
  }

  lemma WipedNone(tab: Table, fs: FS, n: nat)
    ensures WipedItems(tab, tab, fs, n, [])
  {}

  lemma BelowOneMore(fs1: FS, fs2: FS, n: nat, b: nat, e: nat)
    requires n in fs1 && Emptied(fs1, fs2, n, b) && ParentsExist(fs2) && b < |fs1[n].refs|
    ensures BelowAny(fs1, e, fs1[n].refs[..b+1]) <==>
      BelowAny(fs1, e, fs1[n].refs[..b]) || Below(fs2, e, fs1[n].refs[b])
  {
    hide Under, UnderAny, Anc, ParentsExist;
    EmptiedUnder(fs1, fs2, n, b);
    var c := fs1[n].refs[b];
    assert fs1[n].refs[..b+1] == fs1[n].refs[..b] + [c];
    forall h: nat ensures UnderAny(fs1, h, fs1[n].refs[..b+1])
      <==> UnderAny(fs1, h, fs1[n].refs[..b]) || Under(fs1, h, c) {
      UnderOneMore(fs1, h, fs1[n].refs[..b], c);
    }
    forall h: nat ensures Owns(fs2, h, e) <==> Owns(fs1, h, e) && h in fs2 {
      if h in fs2 { EmptiedParent(fs1, fs2, n, b, h); }
    }
    if h: nat :| Owns(fs1, h, e) && UnderAny(fs1, h, fs1[n].refs[..b+1]) {
      if h in fs2 { assert Owns(fs2, h, e); }
    }
    if h: nat :| Owns(fs2, h, e) && Under(fs2, h, c) {
      assert Owns(fs1, h, e) && UnderAny(fs1, h, fs1[n].refs[..b+1]);
    }
    if h: nat :| Owns(fs1, h, e) && UnderAny(fs1, h, fs1[n].refs[..b]) {
      assert UnderAny(fs1, h, fs1[n].refs[..b+1]);
    }
  }

  lemma WipedOnce(tab1: Table, tab2: Table, tab3: Table, fs1: FS, fs2: FS, n: nat, b: nat)
    requires n in fs1 && Emptied(fs1, fs2, n, b) && ParentsExist(fs2) && b < |fs1[n].refs|
    requires fs1[n].refs[b] in fs2 && fs2[fs1[n].refs[b]].parent == n
    requires WipedItems(tab1, tab2, fs1, n, fs1[n].refs[..b])
    requires Wiped(tab2, tab3, fs2, fs1[n].refs[b])
    ensures WipedItems(tab1, tab3, fs1, n, fs1[n].refs[..b+1])
  {
    hide Below, BelowAny, Emptied, ParentsExist;
    forall e: nat | e < |tab1| && e != n
      ensures tab3[e] == if BelowAny(fs1, e, fs1[n].refs[..b+1]) then ZeroEntry() else tab1[e]
    {
      BelowOneMore(fs1, fs2, n, b, e);
    }
  }

  lemma BelowDir(tab: Table, fs: FS, n: nat, e: nat)
    requires Represents(tab, fs) && RootOk(fs) && DirsOk(fs) && ParentsExist(fs) && ListedBelow(fs, n)
    requires n in fs && n != 0 && fs[n].kind.Dir? && fs[n].parent in fs
    ensures Below(fs, e, n) <==> e == n || BelowAny(Unlisted(fs, n), e, fs[n].refs)
  {
    hide Under, UnderAny, Anc, Represents, ParentsExist, ListedBelow, DirsOk, Unlisted;
    DirStored(tab, fs, n);
    assert Owns(fs, n, n);
    forall h: nat | h in fs
      ensures Owns(Unlisted(fs, n), h, e) <==> Owns(fs, h, e)
      ensures Under(fs, h, n) <==> h == n || UnderAny(Unlisted(fs, n), h, fs[n].refs)
    {
      UnlistedAt(fs, n, h);
      BelowItem(fs, n, h);
      UnlistedUnderAny(fs, n, h, fs[n].refs);
    }
    forall h: nat ensures Owns(Unlisted(fs, n), h, e) ==> h in fs { UnlistedAt(fs, n, h); }
    if h: nat :| Owns(fs, h, e) && Under(fs, h, n) {
      assert h == n ==> e == n;
    }
    if h: nat :| Owns(Unlisted(fs, n), h, e) && UnderAny(Unlisted(fs, n), h, fs[n].refs) {
      assert Owns(fs, h, e);
    }
  }

  lemma WipedDir(tab: Table, tab1: Table, tab2: Table, fs: FS, n: nat)
    requires Represents(tab, fs) && RootOk(fs) && DirsOk(fs) && ParentsExist(fs) && ListedBelow(fs, n)
    requires n in fs && n != 0 && fs[n].kind.Dir? && fs[n].parent in fs && fs[fs[n].parent].chain == [fs[n].parent]
    requires SameOutside(tab, tab1, fs[fs[n].parent].chain, fs[fs[n].parent].chain)
    requires WipedItems(tab1, tab2, Unlisted(fs, n), n, fs[n].refs) && n < |tab|
    ensures Wiped(tab, tab2[n := ZeroEntry()], fs, n)
  {
    hide Below, BelowAny, ParentsExist, Represents, ListedBelow, DirsOk, Unlisted;
    forall e: nat | e < |tab| && e != fs[n].parent
      ensures tab2[n := ZeroEntry()][e] == if Below(fs, e, n) then ZeroEntry() else tab[e]
    {
      BelowDir(tab, fs, n, e);
    }
  }

  lemma WipedFile(tab: Table, tab1: Table, tab2: Table, fs: FS, n: nat)
    requires Represents(tab, fs) && ParentsExist(fs)
    requires n in fs && n != 0 && fs[n].kind.File? && fs[n].parent in fs && fs[fs[n].parent].chain == [fs[n].parent]
    requires SameOutside(tab, tab1, fs[fs[n].parent].chain, fs[fs[n].parent].chain)
    requires fs[n].chain != [] && ZeroedFrom(tab1, tab2, fs[n].chain, 1) && n < |tab|
    ensures Wiped(tab, tab2[n := ZeroEntry()], fs, n)
  {
    hide Stored, ParentsExist, Under, Anc;
    HeadStored(tab, fs, n);
    UnderSelf(fs, n);
    forall e: nat | e < |tab| && e != fs[n].parent
      ensures tab2[n := ZeroEntry()][e] == if Below(fs, e, n) then ZeroEntry() else tab[e]
    {
      if h: nat :| Owns(fs, h, e) && Under(fs, h, n) { OnlyItself(fs, n, h); }
      if e in fs[n].chain {
        assert Owns(fs, n, e);
        assert e == n || e in fs[n].chain[1..];
      }
    }
  }

  // ----- the recursive deletion -----

  lemma FileRefs(fs: FS, n: nat, count: nat, e: nat)
    requires BlocksAbove(fs, count) && n in fs && fs[n].kind.File? && e < count
    ensures e !in fs[n].refs
  {
    forall b | b in fs[n].refs ensures b >= count { assert UsesBlock(fs, n, b); }
  }

  lemma RemovedBlocks(fs: FS, n: nat, count: nat)
    requires BlocksAbove(fs, count) && n in fs
    requires fs[n].parent in fs && fs[fs[n].parent].kind.Dir?
    ensures BlocksAbove(Removed(fs, n), count)
  {
    hide Under, Removed;
    forall h: nat, b: nat | UsesBlock(Removed(fs, n), h, b) ensures b >= count {
      RemovedAt(fs, n, h);
      assert UsesBlock(fs, h, b);
    }
  }

  lemma UnlistedBlocksAbove(fs: FS, n: nat, count: nat)
    requires BlocksAbove(fs, count) && n in fs && fs[n].parent in fs && fs[fs[n].parent].kind.Dir?
    ensures BlocksAbove(Unlisted(fs, n), count)
  {
    hide Unlisted;
    forall h: nat, b: nat | UsesBlock(Unlisted(fs, n), h, b) ensures b >= count {
      UnlistedAt(fs, n, h);
      assert UsesBlock(fs, h, b);
    }
  }

  /** What the deletion of one item needs, and what stays true between items. */
  ghost predicate Emptying(tab1: Table, tab: Table, fs1: FS, fs: FS, n: nat, b: nat) {
    && n in fs1 && Emptied(fs1, fs, n, b)
    && Represents(tab, fs) && RootOk(fs) && DirsOk(fs) && ParentsExist(fs)
    && BlocksAbove(fs, |tab|)
    && WipedItems(tab1, tab, fs1, n, fs1[n].refs[..b])
  }

  lemma EmptyingOnce(tab1: Table, tab: Table, tab': Table, fs1: FS, fs: FS, fs': FS, n: nat, b: nat)
    requires Emptying(tab1, tab, fs1, fs, n, b) && b < |fs1[n].refs|
    requires var c := fs1[n].refs[b]; Deletable(fs, c) && fs[c].parent == n && c != n && !Under(fs1, n, c)
    requires fs1[n].kind.Dir? && ParentsExist(fs1)
    requires fs' == Removed(fs, fs1[n].refs[b]) && Wiped(tab, tab', fs, fs1[n].refs[b]) && Represents(tab', fs')
    ensures Emptying(tab1, tab', fs1, fs', n, b + 1)
  {
    hide Emptied, Represents, Removed, ListedBelow, WipedItems, Under;
    var c := fs1[n].refs[b];
    assert n in fs && fs[n].kind.Dir? by { EmptiedHas(fs1, fs, n, b); }
    EmptiedOnce(fs1, fs, n, b);
    RemovedDirs(fs, c);
    RemovedBlocks(fs, c, |tab|);
    WipedOnce(tab1, tab, tab', fs1, fs, n, b);
  }

  lemma EmptiedHas(fs1: FS, fs: FS, n: nat, b: nat)
    requires n in fs1 && Emptied(fs1, fs, n, b)
    ensures n in fs && fs[n].kind == fs1[n].kind && fs[n].chain == fs1[n].chain
    ensures b <= |fs1[n].refs| && fs[n].refs == fs1[n].refs[b..]
  {}

  /** The loop of `DeleteN` over the items of directory `n`, from a copy of its entry. */
  method DeleteItems(d: Disk, n: nat, entry: Entry, ghost height: nat)
    requires n in d.fs && n != 0 && Emptying(d.table[..], d.table[..], d.fs, d.fs, n, 0)
    requires d.fs[n].kind.Dir? && d.fs[n].parent in d.fs && d.fs[n].parent != n
    requires ListedBelow(d.fs, n) && Tall(d.fs, n, height)
    requires entry.size == |d.fs[n].refs| <= REFS
    requires forall i :: 0 <= i < entry.size ==> entry.refs[i] == d.fs[n].refs[i]
    modifies d`fs, d.table
    ensures Emptying(old(d.table[..]), d.table[..], old(d.fs), d.fs, n, |old(d.fs)[n].refs|)
    decreases height, 0
  {
    hide Emptied, Represents, Removed, ListedBelow, WipedItems, Under, RootOk, DirsOk, ParentsExist, Tall, Wiped,
      BlocksAbove;
    ghost var tab1, fs1 := d.table[..], d.fs;
    var b := 0;
    while b < Min(entry.size, REFS)
      invariant 0 <= b <= entry.size
      invariant Emptying(tab1, d.table[..], fs1, d.fs, n, b)
    {
      ghost var fs := d.fs;
      ghost var tab := d.table[..];
      NextDeletable(fs1, fs, n, b, height);
      var c := entry.refs[b];
      HeadStored(tab, fs, c);
      var ok := DeleteN(d, c, fs[c], 0, height - 1);
      EmptyingOnce(tab1, tab, d.table[..], fs1, fs, d.fs, n, b);
      b := b + 1;
    }
  }

  /** Deletes the entry at `n`: a head (`k` is 0) with all below it, or the rest of the chain of file
      `m` from its `k`-th entry on. For a chained entry the search for a reference in its `parent`,
      the entry before it, compares an entry number with block numbers and finds nothing. */
  method DeleteN(d: Disk, n: nat, ghost m: Node, ghost k: nat, ghost height: nat) returns (r: Result<()>)
    requires k < |m.chain| && n == m.chain[k]
    requires k == 0 ==> Represents(d.table[..], d.fs) && Deletable(d.fs, n) && d.fs[n] == m
    requires k == 0 ==> Tall(d.fs, n, height) && BlocksAbove(d.fs, d.table.Length)
    requires k > 0 ==> Stored(d.table[..], m) && m.kind.File? && !IsFree(d.table[..], 0)
    requires k > 0 ==> forall b :: b in m.refs ==> b >= d.table.Length
    modifies d`fs, d.table
    ensures r.Ok?
    ensures k == 0 ==> Represents(d.table[..], d.fs) && d.fs == Removed(old(d.fs), n)
    ensures k == 0 ==> Wiped(old(d.table[..]), d.table[..], old(d.fs), n)
    ensures k > 0 ==> d.fs == old(d.fs) && ZeroedFrom(old(d.table[..]), d.table[..], m.chain, k)
    decreases height, |m.chain| - k
  {
    hide Represents, Removed, Deletable, Tall, BlocksAbove, Stored, Wiped, WipedItems, ZeroedFrom, Emptied, SameOutside,
      Linked, RootOk, DirsOk, ParentsExist, ListedBelow, Emptying, Unlisted;
    ghost var tab, fs := d.table[..], d.fs;
    if k == 0 { HeadReady(tab, fs, n, height); }
    RefsFrom(tab, m, k);
    var entry := d.table[n];

    // The parent forgets this item
    ghost var pm, pk := if k == 0 then fs[fs[n].parent] else m, if k == 0 then 0 else k - 1;
    if k > 0 { LinkedParent(tab, m, k); }
    r := RemoveRefInEntry(d, entry.parent, n, pm, pk);
    ghost var tab1 := d.table[..];
    if k == 0 {
      HeadUnlisted(tab, tab1, fs, n, height);
      d.fs := Unlisted(fs, n);
    }

    // What a directory contains goes first
    if entry.kind.Dir? {
      DeleteItems(d, n, entry, height);
    }

    // A file gives back its other entries
    if entry.next != 0 {
      r := DeleteN(d, entry.next, m, k + 1, height);
    } else if k + 1 == |m.chain| {
      NothingZeroed(d.table[..], m.chain);
    }

    ghost var tab2 := d.table[..];
    d.table[n] := ZeroEntry();
    assert d.table[..] == tab2[n := ZeroEntry()];
    if k > 0 {
      ZeroedOneMore(tab, tab2, m, k);
    } else if m.kind.Dir? {
      HeadDirDone(tab, tab1, tab2, fs, d.fs, n, height);
      d.fs := d.fs - {n};
    } else {
      HeadFileDone(tab, tab1, tab2, fs, n, height);
      d.fs := d.fs - {n};
    }
    return Ok(());
  }

  lemma LinkedParent(tab: Table, m: Node, k: nat)
    requires Stored(tab, m) && 0 < k < |m.chain|
    ensures m.chain[k] < |tab| && tab[m.chain[k]].parent == m.chain[k-1]
  {
    LinkAt(tab, m, k);
  }

  lemma ZeroedOneMore(tab: Table, tab2: Table, m: Node, k: nat)
    requires Stored(tab, m) && k < |m.chain| && ZeroedFrom(tab, tab2, m.chain, k + 1)
    ensures m.chain[k] < |tab2| && ZeroedFrom(tab, tab2[m.chain[k] := ZeroEntry()], m.chain, k)
  {
    LinkAt(tab, m, k);
    assert m.chain[k..] == [m.chain[k]] + m.chain[k+1..];
  }

  lemma HeadReady(tab: Table, fs: FS, n: nat, height: nat)
    requires Represents(tab, fs) && Deletable(fs, n) && Tall(fs, n, height) && BlocksAbove(fs, |tab|)
    ensures n in fs && n != 0
    ensures fs[n].parent in fs && fs[n].parent != n && fs[fs[n].parent].kind.Dir? && n in fs[fs[n].parent].refs
    ensures Stored(tab, fs[n]) && fs[n].chain != [] && fs[n].chain[0] == n && n < |tab|
    ensures tab[n].parent == fs[n].parent && tab[n].kind == fs[n].kind && !fs[n].kind.Free?
    ensures Stored(tab, fs[fs[n].parent]) && fs[fs[n].parent].chain == [fs[n].parent] && !IsFree(tab, 0)
    ensures fs[n].kind.Dir? ==> fs[n].chain == [n] && tab[n].size == |fs[n].refs| <= REFS
    ensures fs[n].kind.File? ==> n !in fs[n].refs
  {
    UnlistedDeletable(fs, n, height);
    HeadStored(tab, fs, n);
    DirStored(tab, fs, fs[n].parent);
    RootInUse(tab, fs);
    hide ListedBelow, Tall;
    if fs[n].kind.Dir? {
      DirStored(tab, fs, n);
      HeadOf(tab, fs[n]);
    } else {
      FileRefs(fs, n, |tab|, n);
    }
  }

  lemma HeadUnlisted(tab: Table, tab1: Table, fs: FS, n: nat, height: nat)
    requires Represents(tab, fs) && Deletable(fs, n) && Tall(fs, n, height) && BlocksAbove(fs, |tab|)
    requires fs[n].parent in fs && Stored(tab1, WithoutItem(fs[fs[n].parent], n))
    requires SameOutside(tab, tab1, fs[fs[n].parent].chain, fs[fs[n].parent].chain)
    ensures Represents(tab1, Unlisted(fs, n)) && n in Unlisted(fs, n) && Unlisted(fs, n)[n] == fs[n]
    ensures Stored(tab1, fs[n]) && !IsFree(tab1, 0)
    ensures fs[n].parent in Unlisted(fs, n) && fs[n].parent != n
    ensures fs[n].kind.Dir? ==> Emptying(tab1, tab1, Unlisted(fs, n), Unlisted(fs, n), n, 0)
    ensures ListedBelow(Unlisted(fs, n), n) && Tall(Unlisted(fs, n), n, height)
    ensures fs[n].kind.File? ==> forall b :: b in fs[n].refs ==> b >= |tab|
  {
    hide Stored, Unlisted, Linked, Represents, ListedBelow, Tall, Emptied, WipedItems;
    UnlistedDeletable(fs, n, height);
    UnlistedRepresented(tab, tab1, fs, n);
    var fs1 := Unlisted(fs, n);
    UnlistedAt(fs, n, n);
    UnlistedAt(fs, n, fs[n].parent);
    HeadStored(tab1, fs1, n);
    RootInUse(tab1, fs1);
    if fs[n].kind.Dir? {
      DirStored(tab1, fs1, n);
      EmptiedNone(fs1, n);
      UnlistedBlocksAbove(fs, n, |tab|);
      WipedNone(tab1, fs1, n);
      assert fs1[n].refs[..0] == [];
    } else {
      forall b | b in fs[n].refs ensures b >= |tab| { assert UsesBlock(fs, n, b); }
    }
  }

  lemma HeadDirDone(tab: Table, tab1: Table, tab2: Table, fs: FS, fs2: FS, n: nat, height: nat)
    requires Represents(tab, fs) && Deletable(fs, n) && Tall(fs, n, height) && BlocksAbove(fs, |tab|)
    requires fs[n].kind.Dir? && fs[n].parent in fs
    requires SameOutside(tab, tab1, fs[fs[n].parent].chain, fs[fs[n].parent].chain)
    requires Emptying(tab1, tab2, Unlisted(fs, n), fs2, n, |fs[n].refs|)
    ensures n < |tab2| && Represents(tab2[n := ZeroEntry()], fs2 - {n}) && fs2 - {n} == Removed(fs, n)
    ensures Wiped(tab, tab2[n := ZeroEntry()], fs, n)
  {
    hide Stored, Unlisted, Linked, Represents, Tall, Emptied, BelowAny, ListedBelow, Removed, DirsOk, ParentsExist,
      Wiped;
    HeadReady(tab, fs, n, height);
    UnlistedAt(fs, n, n);
    var fs1 := Unlisted(fs, n);
    EmptiedAll(fs, fs2, n);
    EmptiedHas(fs1, fs2, n, |fs[n].refs|);
    assert fs1[n].refs[..|fs[n].refs|] == fs[n].refs;
    WipedDir(tab, tab1, tab2, fs, n);
    Dropped(tab2, tab2[n := ZeroEntry()], fs2, n);
  }

  lemma HeadFileDone(tab: Table, tab1: Table, tab2: Table, fs: FS, n: nat, height: nat)
    requires Represents(tab, fs) && Deletable(fs, n) && Tall(fs, n, height) && BlocksAbove(fs, |tab|)
    requires fs[n].kind.File? && fs[n].parent in fs && fs[n].chain != []
    requires SameOutside(tab, tab1, fs[fs[n].parent].chain, fs[fs[n].parent].chain)
    requires Represents(tab1, Unlisted(fs, n)) && ZeroedFrom(tab1, tab2, fs[n].chain, 1)
    ensures n < |tab2| && Represents(tab2[n := ZeroEntry()], Unlisted(fs, n) - {n})
    ensures Unlisted(fs, n) - {n} == Removed(fs, n)
    ensures Wiped(tab, tab2[n := ZeroEntry()], fs, n)
  {
    hide Stored, Unlisted, Linked, Represents, Tall, ListedBelow, Removed, DirsOk, ParentsExist, Wiped;
    HeadReady(tab, fs, n, height);
    UnlistedAt(fs, n, n);
    FileRemoved(fs, n);
    WipedFile(tab, tab1, tab2, fs, n);
    var tab3 := tab2[n := ZeroEntry()];
    forall e | e in fs[n].chain ensures e < |tab3| && tab3[e].kind.Free? {
      assert Owns(Unlisted(fs, n), n, e);
      OwnedIsUsed(tab1, Unlisted(fs, n), n, e);
      assert e == n || e in fs[n].chain[1..];
    }
    Dropped(tab1, tab3, Unlisted(fs, n), n);
  }

  // ----- deleting an item of the tree -----

  /** Every path up is shorter than some bound, since there are finitely many items. */
  lemma {:induction false} Bounded(fs: FS, keys: set<nat>) returns (bound: nat)
    requires RootOk(fs) && Acyclic(fs) && forall h :: h in keys ==> h in fs
    ensures forall h, k: nat :: h in keys && k >= bound ==> Anc(fs, h, k) == 0
    decreases |keys|
  {
    hide Anc;
    if keys == {} {
      bound := 0;
    } else {
      var h :| h in keys;
      var rest := Bounded(fs, keys - {h});
      assert Under(fs, h, 0);
      var j: nat :| Anc(fs, h, j) == 0;
      bound := if j > rest then j else rest;
      forall k: nat | k >= bound ensures Anc(fs, h, k) == 0 {
        AncAdd(fs, h, j, k - j);
        AncOfRoot(fs, k - j);
      }
    }
  }

  lemma CanDelete(fs: FS, n: nat, lo: nat, hi: nat) returns (height: nat)
    requires WellFormed(fs, lo, hi) && n in fs && n != 0
    ensures Deletable(fs, n) && Tall(fs, n, height) && BlocksAbove(fs, lo)
  {
    hide DirsOk, NamesOk, Anc, Under;
    ListedAt(fs, n);
    height := Bounded(fs, fs.Keys);
  }

  /** Deletes an item that has been found, with everything below it. */
  method DeleteFound(d: Disk, n: nat)
    requires d.Valid() && n in d.fs && n != 0
    modifies d`fs, d.table
    ensures d.Valid() && d.fs == Removed(old(d.fs), n) && Wiped(old(d.table[..]), d.table[..], old(d.fs), n)
  {
    hide Represents, Removed, Deletable, Tall, Wiped, DirsOk, NamesOk, Acyclic, Listed, ParentsExist, BlocksOk, Under;
    ghost var tab, fs := d.table[..], d.fs;
    ghost var height := CanDelete(fs, n, d.FirstData(), d.blocks.Length);
    HeadStored(tab, fs, n);
    BlocksAboveLess(fs, d.FirstData(), d.table.Length);
    var ok := DeleteN(d, n, fs[n], 0, height);
    RemovedOk(fs, n);
    RemovedBlocksOk(fs, n, d.FirstData(), d.blocks.Length);
  }

  /** Deletes an item by directory and name, with everything below it. */
  method Delete(d: Disk, parent: nat, name: string) returns (r: Result<nat>)
    requires d.Valid() && parent in d.fs && d.fs[parent].kind.Dir? && (parent != 0 || name != ROOT_NAME)
    modifies d`fs, d.table
    ensures d.Valid()
    ensures r.Err? ==> r.error.NotFound? && (forall h :: !IsItem(d.fs, h, parent, name))
    ensures r.Err? ==> d.fs == old(d.fs) && d.table[..] == old(d.table[..])
    ensures r.Ok? ==>
      exists n :: IsItem(old(d.fs), n, parent, name)
        && d.fs == Removed(old(d.fs), n) && Wiped(old(d.table[..]), d.table[..], old(d.fs), n)
  {
    hide Represents, Removed, Wiped, DirsOk, NamesOk, Acyclic, Listed, ParentsExist, BlocksOk;
    var found := Lookup(d, parent, name);
    if found.Err? { return found; }
    DeleteFound(d, found.value);
    return Ok(0);
  }

  lemma BlocksAboveLess(fs: FS, count: nat, fewer: nat)
    requires BlocksAbove(fs, count) && fewer <= count
    ensures BlocksAbove(fs, fewer)
  {}

  lemma RemovedBlocksOk(fs: FS, n: nat, lo: nat, hi: nat)
    requires BlocksOk(fs, lo, hi) && n in fs && ParentsExist(fs)
    ensures BlocksOk(Removed(fs, n), lo, hi)
  {
    hide Under, Removed;
    assert fs[n].parent in fs && fs[fs[n].parent].kind.Dir?;
    var fs' := Removed(fs, n);
    forall h: nat, b: nat | UsesBlock(fs', h, b) ensures UsesBlock(fs, h, b) {
      RemovedAt(fs, n, h);
    }
    forall h | h in fs' && fs'[h].kind.File? ensures NoDup(fs'[h].refs) {
      RemovedAt(fs, n, h);
    }
  }
}
