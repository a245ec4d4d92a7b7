/** Inputs for which a command succeeds and leaves no well-formed file system, or does not do what it should. */
module Witnesses {
  import opened Entries
  import opened Layout
  import opened Trees
  import opened Tables
  import opened Directories
  import opened Creating
  import opened Growth
  import opened Limits
  import opened Files
  import opened Sizing
  import opened Writing
  import opened Copying
  import opened Subtrees
  import opened CopyTrees
  import opened Format
  import opened Runs

  /** The command succeeds, and whatever state it leads to is not good. */
  ghost predicate Harmed(s: State, c: Command, lo: nat, hi: nat) {
    && Callable(s.fs, c) && Succeeds(s, c, lo, hi)
    && forall s' :: Done(s, c, s', lo, hi) ==> !Good(s', lo, hi)
  }

  lemma HarmsAll(s: State, c: Command, lo: nat, hi: nat)
    requires Good(s, lo, hi) && Callable(s.fs, c) && Succeeds(s, c, lo, hi) && !Harmless(s.fs, c)
    ensures Harmed(s, c, lo, hi)
  {
    hide Good, Callable, Succeeds, Harmless, Done;
    forall s' | Done(s, c, s', lo, hi) ensures !Good(s', lo, hi) { StepKeeps(s, c, s', lo, hi); }
  }

  // ----- on an empty disk -----

  /** A disk that has just been formatted, with room for a file. */
  ghost predicate Fresh(s: State, lo: nat, hi: nat) {
    Blank(s.tab) && |s.tab| >= 2 && s.fs == Empty() && 0 < lo < hi == |s.blocks|
  }

  lemma FreshGood(s: State, lo: nat, hi: nat)
    requires Fresh(s, lo, hi)
    ensures Good(s, lo, hi) && |FreeSet(s.tab)| >= 1 && |Unused(s.fs, lo, hi)| >= 1
  {
    hide Represents, WellFormed, FreeSet, Unused, Blank;
    BlankStored(s.tab);
    EmptyOk(lo, hi);
    EmptyRoom(s.tab, lo, hi);
  }

  lemma NothingThere(name: string)
    requires name != ROOT_NAME
    ensures forall h :: !IsItem(Empty(), h, 0, name)
  {}

  /** A new file that is given two blocks at once has the same block twice. */
  lemma TwoBlocksAtOnce(s: State, data: seq<Byte>, lo: nat, hi: nat)
    requires Fresh(s, lo, hi) && |data| == 1024
    ensures Harmed(s, Write(0, "a", 0, data, true, false), lo, hi)
  {
    hide Good, Represents, FreeSet, Unused, Done, Blank;
    FreshGood(s, lo, hi);
    NothingThere("a");
    assert NeededBlocks(1024) == 2 && ChainLen(2) == 1 && !SafeResize(0, 1024, false);
    NotThere(s.tab, s.fs, 0, "a", true, 1024, false, lo, hi);
    HarmsAll(s, Write(0, "a", 0, data, true, false), lo, hi);
  }

  // ----- moving, and typing a name twice -----

  /** A directory is moved into itself. */
  lemma IntoItself(s: State, s': State, lo: nat, hi: nat) returns (n: nat)
    requires Fresh(s, lo, hi) && Done(s, MakeDir(0, "a"), s', lo, hi)
    ensures Harmed(s', MoveTo(0, "a", n, "b"), lo, hi)
  {
    hide Represents, WellFormed, Placed, Blank, TreeOk, Under, Step, Refused, FreeSet;
    FreshGood(s, lo, hi);
    StepKeeps(s, MakeDir(0, "a"), s', lo, hi);
    assert Normal("a") == "a" && Normal("b") == "b";
    n :| MakeDone(s, s', n, 0, "a");
    var m := NewNode(Dir, "a", 0, n);
    GoodFresh(s, lo, hi, n);
    PlacedAt(Empty(), n, m, n);
    PlacedAt(Empty(), n, m, 0);
    UnderSelf(s'.fs, n);
    forall h ensures !IsItem(s'.fs, h, n, "b") { PlacedAt(Empty(), n, m, h); }
    assert IsItem(s'.fs, n, 0, "a");
    HarmsAll(s', MoveTo(0, "a", n, "b"), lo, hi);
  }

  lemma Underscored()
    ensures Normal("a b") == "a_b"
  {}

  /** An empty file is made under a name that is not in its stored form, twice. */
  lemma TwiceTheName(s: State, s': State, lo: nat, hi: nat)
    requires Fresh(s, lo, hi) && Done(s, Write(0, "a b", 0, [], true, false), s', lo, hi) && FreeSet(s'.tab) != {}
    ensures Harmed(s', Write(0, "a b", 0, [], true, false), lo, hi)
  {
    hide Represents, WellFormed, Blank, TreeOk, FreeSet, Unused, Normal, Good, MadeFirst, Done, Fresh;
    var c := Write(0, "a b", 0, [], true, false);
    FreshGood(s, lo, hi);
    Underscored();
    NothingThere("a b");
    NothingThere("a_b");
    var n := FirstFile(s, c, s', lo, hi);
    FirstFileIs(s'.fs, n, "a_b");
    assert IsItem(s'.fs, n, 0, "a_b");
    FreshHarmless(s, c, lo, hi);
    StepKeeps(s, c, s', lo, hi);
    NotThere(s'.tab, s'.fs, 0, "a b", true, 0, false, lo, hi);
    assert NeededBlocks(0) == 0 && ChainLen(0) == 1;
    HarmsAll(s', c, lo, hi);
  }

  lemma FreshHarmless(s: State, c: Command, lo: nat, hi: nat)
    requires Fresh(s, lo, hi) && c.Write? && c.parent == 0 && c.offset + |c.buff| == 0 && !c.truncate
    requires Normal(c.path) != ROOT_NAME && c.path != ROOT_NAME
    ensures Callable(s.fs, c) && Harmless(s.fs, c)
  {
    hide Blank, Normal;
  }

  /** On what was an empty disk, file `n` is now the only item beside the root. */
  ghost predicate MadeFirst(fs: FS, n: nat, name: string) {
    n > 0 && n in fs && fs == Placed(Empty(), n, NewNode(File, name, 0, n))[n := fs[n]]
    && fs[n].kind.File? && fs[n].name == name && fs[n].parent == 0 && fs[n].size == 0
  }

  lemma FirstFile(s: State, c: Command, s': State, lo: nat, hi: nat) returns (n: nat)
    requires Fresh(s, lo, hi) && Done(s, c, s', lo, hi)
    requires c.Write? && c.parent == 0 && c.offset + |c.buff| == 0 && !c.truncate && c.path != ROOT_NAME
    ensures MadeFirst(s'.fs, n, Normal(c.path))
  {
    hide Represents, FirstFreeEntry, Normal, BlocksOk, TreeOk, Wrote, OthersKept, Placed, SafeResize;
    var f;
    n, f :| WriteDone(s, c, s', lo, hi, n, f);
    NothingThere(c.path);
    PlacedAt(Empty(), n, NewNode(File, Normal(c.path), 0, n), n);
  }

  lemma FirstFileIs(fs: FS, n: nat, name: string)
    requires MadeFirst(fs, n, name)
    ensures forall h, parent, x :: IsItem(fs, h, parent, x) <==>
      (h == 0 && parent == 0 && x == ROOT_NAME) || (h == n && parent == 0 && x == name)
    ensures 0 in fs && fs[0].kind.Dir? && |fs[0].refs| < REFS && n in fs && fs[n].kind.File? && n != 0
  {
    hide Placed;
    forall h ensures h in fs <==> h == 0 || h == n ensures h == 0 ==> fs[h].name == ROOT_NAME && fs[h].parent == 0 {
      PlacedAt(Empty(), n, NewNode(File, name, 0, n), h);
    }
    PlacedAt(Empty(), n, NewNode(File, name, 0, n), 0);
  }

  /** Copying an empty file succeeds and creates nothing. */
  lemma EmptyCopy(s: State, s': State, s'': State, lo: nat, hi: nat)
    requires Fresh(s, lo, hi) && Done(s, Write(0, "a", 0, [], true, false), s', lo, hi)
    requires Done(s', Copy(0, "a", 0, "b"), s'', lo, hi)
    ensures Callable(s'.fs, Copy(0, "a", 0, "b")) && Succeeds(s', Copy(0, "a", 0, "b"), lo, hi)
    ensures forall h :: !IsItem(s''.fs, h, 0, "b")
  {
    hide Represents, WellFormed, Blank, TreeOk, FreeSet, Unused, Normal, Good, MadeFirst, Fresh, Shows, Under, Done,
      FileHas;
    var c, t := Write(0, "a", 0, [], true, false), Leaf([]);
    PlainNames();
    NothingThere("a");
    NothingThere("b");
    var n := FirstFile(s, c, s', lo, hi);
    FirstFileIs(s'.fs, n, "a");
    FreshGood(s, lo, hi);
    FreshHarmless(s, c, lo, hi);
    StepKeeps(s, c, s', lo, hi);
    GoodFile(s', n, lo, hi);
    FirstFileEmpty(s', n);
    assert CopySource(s', n, t, 0, "a");
    GoodParents(s', lo, hi);
    RootUnderNone(s'.fs, n);
    NothingCopied(s', s'', n, lo, hi);
  }

  lemma NothingCopied(s: State, s': State, n: nat, lo: nat, hi: nat)
    requires CopySource(s, n, Leaf([]), 0, "a") && (forall h :: IsItem(s.fs, h, 0, "a") ==> h == n)
    requires Done(s, Copy(0, "a", 0, "b"), s', lo, hi)
    ensures s' == s
  {
    hide Represents, WellFormed, Shows, Normal, Added, Taken;
    var m, t, k :| CopyDone(s, Copy(0, "a", 0, "b"), s', lo, hi, m, t, k);
    ShowsOnce(s.fs, s.blocks, n, t, Leaf([]));
  }

  lemma PlainNames()
    ensures Normal("a") == "a" && Normal("b") == "b"
  {}

  lemma FirstFileEmpty(s: State, n: nat)
    requires MadeFirst(s.fs, n, "a") && Readable(s.fs[n], |s.blocks|)
    ensures Shows(s.fs, s.blocks, n, Leaf([]))
  {}

  // ----- a cut that ends on the last slot of an entry -----

  /** A file of 121 blocks is cut to 120: its last reference is lost. */
  lemma CutTo120(s: State, n: nat, lo: nat, hi: nat)
    requires Good(s, lo, hi) && IsItem(s.fs, n, 0, "a") && s.fs[n].kind.File? && s.fs[n].size == 121 * BLOCK
    ensures Harmed(s, Write(0, "a", 120 * BLOCK, [], false, true), lo, hi)
  {
    hide Good, FreeSet, Unused, Done;
    var c := Write(0, "a", 120 * BLOCK, [], false, true);
    GoodParts(s, n, lo, hi);
    ThereOnce(s.tab, s.fs, n, 0, "a", false, 120 * BLOCK, true, lo, hi);
    HarmsAll(s, c, lo, hi);
  }

  /** When the same cut is to write a byte as well, it stops halfway. */
  lemma StopsAt120(s: State, n: nat, x: Byte, lo: nat, hi: nat)
    requires Good(s, lo, hi) && IsItem(s.fs, n, 0, "a") && s.fs[n].kind.File? && s.fs[n].size == 121 * BLOCK
    ensures !Succeeds(s, Write(0, "a", 120 * BLOCK - 1, [x], false, true), lo, hi)
    ensures !Refused(s, Write(0, "a", 120 * BLOCK - 1, [x], false, true))
  {
    hide Good, FreeSet, Unused;
    GoodParts(s, n, lo, hi);
    ThereOnce(s.tab, s.fs, n, 0, "a", false, 120 * BLOCK, true, lo, hi);
  }

  lemma GoodParts(s: State, n: nat, lo: nat, hi: nat)
    requires Good(s, lo, hi) && IsItem(s.fs, n, 0, "a") && s.fs[n].kind.File?
    ensures IsDir(s.fs, 0) && forall h :: IsItem(s.fs, h, 0, "a") ==> h == n
    ensures |s.fs[n].refs| == NeededBlocks(s.fs[n].size) && |s.fs[n].chain| == ChainLen(|s.fs[n].refs|)
  {
    hide DirsOk, ParentsExist, Acyclic, BlocksOk, Listed, NamesOk, Represents, Linked, Holds, Sized;
    HeadStored(s.tab, s.fs, n);
    hide WellFormed;
    OnlyOne(s.fs, lo, hi, n, 0, "a");
  }

  /** A file of 240 blocks is cut to 130: a reference it no longer has stays in its second entry. */
  lemma CutTo130(tab: Table, tab': Table, m: Node, m': Node)
    requires Resized(tab, tab', m, m', 130) && Holds(tab, m.chain, m.refs) && Padded(tab, m)
    requires m.refs == seq(240, j => 500 + j)
    ensures |m'.chain| == 2 && m'.chain[1] < |tab'| && tab'[m'.chain[1]].refs[10] == 630
  {
    hide Linked, Rechained, Holds, Refilled, Padded;
    assert ChainLen(130) == 2;
    PaddedSlot(tab, tab', m, m', 130, 1, 10);
  }

  /** So the file cannot grow again while block 630 is the only one that is not in use. */
  lemma GrowthBlocked(tab: Table, tab': Table, m: Node, m': Node, fs: FS, lo: nat, hi: nat)
    requires Resized(tab, tab', m, m', 130) && Holds(tab, m.chain, m.refs) && Padded(tab, m)
    requires m.refs == seq(240, j => 500 + j) && Unused(fs, lo, hi) == {630}
    ensures !Room(tab', fs, m', 131 * BLOCK, lo, hi)
  {
    hide Linked, Rechained, Holds, Refilled, Padded, Unused, FreeSet;
    CutTo130(tab, tab', m, m');
    assert SlotLeft(tab', m', 131, 130) == 630;
  }

  /** A file of two entries is renamed: its second entry keeps the old name. */
  lemma HalfRenamed(tab: Table, tab': Table, m: Node)
    requires Stored(tab, m) && SameNames(tab, m) && m.name == "a" && m.chain == [1, 2] && m.parent == 0
    requires MovedTable(tab, tab', 1, 0, 0, "b")
    ensures 2 < |tab'| && tab'[1].name == "b" && tab'[2].name == "a"
    ensures !SameNames(tab', MovedNode(m, "b", 0))
  {
    LinkAt(tab, m, 0);
    LinkAt(tab, m, 1);
    assert m.chain[1] == 2 && tab[m.chain[1]].name == "a";
    assert MovedEntry(tab[2], tab'[2], 2, 1, 0, 0, "b") && MovedEntry(tab[1], tab'[1], 1, 1, 0, 0, "b");
    hide Stored, SameNames;
    MovedNames(tab, tab', m, 0, 0, "b");
  }

  // ----- the 121st item -----

  /** Names of two letters. */
  function Letters(h: nat): string
    requires h <= REFS
  {
    [('a' as int + h / 12) as char, ('a' as int + h % 12) as char]
  }

  /** Every other item of a disk with 120 of them in its root directory. */
  function NthFile(h: nat): Node
    requires 0 < h <= REFS
  {
    NewNode(File, Letters(h), 0, h)
  }

  function FullRoot(): FS {
    map h: nat | h <= REFS :: if h == 0 then Node(Dir, ROOT_NAME, 0, [0], REFS, RootRefs()) else NthFile(h)
  }

  function RootRefs(): Refs { seq(REFS, i => i + 1) }

  /** The table of that disk, of `count` entries. */
  function FullTable(count: nat): Table
    requires count > REFS
  {
    seq(count, e requires 0 <= e < count =>
      if e == 0 then Entry(Dir, ROOT_NAME, 0, REFS, 0, 0, RootRefs())
      else if e <= REFS then Entry(File, Letters(e), 0, 0, 0, 0, NoRefs())
      else ZeroEntry())
  }

  lemma FullAt(h: nat)
    requires h <= REFS
    ensures h in FullRoot() && FullRoot()[h].chain == [h] && FullRoot()[h].parent == 0
    ensures h == 0 ==> FullRoot()[h] == Node(Dir, ROOT_NAME, 0, [0], REFS, RootRefs())
    ensures h > 0 ==> FullRoot()[h] == NthFile(h)
  {}

  lemma FullStored(count: nat, h: nat)
    requires count > REFS && h <= REFS
    ensures Stored(FullTable(count), FullRoot()[h])
  {
    var tab := FullTable(count);
    if h == 0 {
      var m := FullRoot()[0];
      assert forall k, i :: 0 <= k < 1 && 0 <= i < REFS ==> tab[m.chain[k]].refs[i] == m.refs[REFS * k + i];
    } else {
      NewStored(tab, h, File, Letters(h), 0, 0);
      assert tab[h := tab[h]] == tab;
    }
  }

  lemma FullRepresented(count: nat)
    requires count > REFS
    ensures Represents(FullTable(count), FullRoot())
  {
    hide Stored;
    forall h | h in FullRoot() ensures Stored(FullTable(count), FullRoot()[h]) { FullStored(count, h); }
    forall e | 0 <= e < count && !FullTable(count)[e].kind.Free? ensures exists h :: Owns(FullRoot(), h, e) {
      assert e > REFS ==> FullTable(count)[e] == ZeroEntry();
      FullAt(e);
      assert Owns(FullRoot(), e, e);
    }
  }

  lemma LettersDiffer(g: nat, h: nat)
    requires 0 < g <= REFS && 0 < h <= REFS && Letters(g) == Letters(h)
    ensures g == h
  {
    assert Letters(g)[0] == Letters(h)[0] && Letters(g)[1] == Letters(h)[1];
  }

  lemma FullNames()
    ensures NamesOk(FullRoot())
  {
    var fs := FullRoot();
    forall g, h | g in fs && h in fs && fs[g].name == fs[h].name ensures g == h {
      FullAt(g);
      FullAt(h);
      assert |ROOT_NAME| == 1;
      if g > 0 && h > 0 { LettersDiffer(g, h); }
    }
  }

  lemma FullAcyclic()
    ensures Acyclic(FullRoot())
  {
    hide Under;
    forall h | h in FullRoot() ensures Under(FullRoot(), h, 0) {
      UnderSelf(FullRoot(), 0);
      UnderStep(FullRoot(), h, 0);
    }
  }

  lemma FullOk(lo: nat, hi: nat)
    ensures WellFormed(FullRoot(), lo, hi)
  {
    hide NamesOk, Acyclic, FullRoot, NthFile;
    var fs := FullRoot();
    FullNames();
    FullAcyclic();
    FullAt(0);
    forall h | h in fs ensures h <= REFS && fs[h].parent == 0 && (h > 0 ==> fs[h].kind.File? && fs[h].refs == []) {
      OnlyThese(h);
      FullAt(h);
      if h > 0 { NoRefsYet(h); }
    }
    forall h: nat | 0 < h <= REFS ensures h in fs && h in fs[0].refs { FullAt(h); assert fs[0].refs[h-1] == h; }
  }

  lemma OnlyThese(h: nat)
    requires h in FullRoot()
    ensures h <= REFS
  {}

  lemma NoRefsYet(h: nat)
    requires 0 < h <= REFS
    ensures NthFile(h).refs == [] && NthFile(h).kind.File?
  {}

  lemma FullRoom(count: nat)
    requires count >= REFS + 3
    ensures |FreeSet(FullTable(count))| >= 2
  {
    var free, two := FreeSet(FullTable(count)), {REFS + 1, REFS + 2};
    assert FullTable(count)[REFS + 1] == ZeroEntry() && FullTable(count)[REFS + 2] == ZeroEntry();
    assert free == (free - two) + two;
  }

  /** One more directory is made there. */
  lemma OneTooMany(count: nat, blocks: seq<Block>, lo: nat)
    requires count >= REFS + 3
    ensures Harmed(State(FullTable(count), FullRoot(), blocks), MakeDir(0, "z"), lo, |blocks|)
  {
    hide Represents, WellFormed, FreeSet, FullTable;
    var s := State(FullTable(count), FullRoot(), blocks);
    FullRepresented(count);
    FullOk(lo, |blocks|);
    FullRoom(count);
    FullAt(0);
    forall h ensures !IsItem(FullRoot(), h, 0, Normal("z")) { assert |Normal("z")| == 1 && Normal("z") == "z"; }
    HarmsAll(s, MakeDir(0, "z"), lo, |blocks|);
  }
}
