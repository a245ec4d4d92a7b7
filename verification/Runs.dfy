/** Runs of commands: what all of them keep, and what happens to a file none of them names. */
module Runs {
  import opened Entries
  import opened Layout
  import opened Trees
  import opened Tables
  import opened Directories
  import opened Creating
  import opened Deletion
  import opened Files
  import opened Limits
  import opened Sizing
  import opened Writing
  import opened Copying
  import opened Subtrees
  import opened CopyTrees

  /** Commands on one disk, with directories already found. */
  datatype Command =
    | MakeDir(parent: nat, path: string)
    | Write(parent: nat, path: string, offset: nat, buff: seq<Byte>, create: bool, truncate: bool)
    | Remove(parent: nat, name: string)
    | MoveTo(srcParent: nat, srcName: string, parent: nat, path: string)
    | Copy(srcParent: nat, srcName: string, parent: nat, path: string)

  ghost predicate IsDir(fs: FS, h: nat) { h in fs && fs[h].kind.Dir? }

  ghost predicate HasRoom(fs: FS, h: nat) { IsDir(fs, h) && |fs[h].refs| < REFS }

  /** What the methods ask for: directories that are there, and not the root as the item to delete or move. A copy
      goes to a directory with room that is not under what is copied. */
  ghost predicate Callable(fs: FS, c: Command) {
    match c
    case MakeDir(parent, path) => IsDir(fs, parent)
    case Write(parent, path, offset, buff, create, truncate) => IsDir(fs, parent)
    case Remove(parent, name) => IsDir(fs, parent) && (parent != 0 || name != ROOT_NAME)
    case MoveTo(srcParent, srcName, parent, path) =>
      IsDir(fs, srcParent) && IsDir(fs, parent) && (srcParent != 0 || srcName != ROOT_NAME)
    case Copy(srcParent, srcName, parent, path) =>
      IsDir(fs, srcParent) && HasRoom(fs, parent) && Outside(fs, parent, srcParent, srcName)
  }

  /** The conditions that nothing in the code checks: room in the directory, a name that is not taken in its
      stored form, a safe resize, and a place outside the item that is moved. */
  ghost predicate Harmless(fs: FS, c: Command) {
    match c
    case MakeDir(parent, path) => HasRoom(fs, parent)
    case Write(parent, path, offset, buff, create, truncate) =>
      && (forall h :: IsItem(fs, h, parent, path) ==> SafeResize(fs[h].size, offset + |buff|, truncate))
      && (create && (forall h :: !IsItem(fs, h, parent, path)) ==>
           && SafeResize(0, offset + |buff|, truncate)
           && HasRoom(fs, parent) && forall h :: !IsItem(fs, h, parent, Normal(path)))
    case MoveTo(srcParent, srcName, parent, path) =>
      && (HasRoom(fs, parent) || parent == srcParent)
      && forall h :: IsItem(fs, h, srcParent, srcName) ==> !Under(fs, parent, h)
    case _ => true
  }

  /** The command succeeds: what it names is there, what it makes is not, and the disk has room. */
  ghost predicate Succeeds(s: State, c: Command, lo: nat, hi: nat) {
    match c
    case MakeDir(parent, path) =>
      |FreeSet(s.tab)| > Extra(s.fs, parent) && forall h :: !IsItem(s.fs, h, parent, Normal(path))
    case Write(parent, path, offset, buff, create, truncate) =>
      && !NoFile(s.fs, parent, path, create)
      && WriteRoom(s.tab, s.fs, parent, path, offset + |buff|, truncate, lo, hi)
      && (buff == [] || !WriteStops(s.fs, parent, path, offset + |buff|, truncate))
    case Remove(parent, name) => exists h :: IsItem(s.fs, h, parent, name)
    case MoveTo(srcParent, srcName, parent, path) =>
      && (exists h :: IsItem(s.fs, h, srcParent, srcName))
      && (forall h :: !IsItem(s.fs, h, parent, Normal(path)))
      && (HasSlot(s.fs, srcParent, parent) || FreeSet(s.tab) != {})
    case Copy(srcParent, srcName, parent, path) =>
      && NameFree(s.fs, parent, Normal(path))
      && exists n, t :: CopySource(s, n, t, srcParent, srcName) && Fits(t) && HasSpace(s, t, lo, hi)
  }

  /** Item `n` is the one to copy, and holds `t`. */
  ghost predicate CopySource(s: State, n: nat, t: Tree, srcParent: nat, srcName: string) {
    IsItem(s.fs, n, srcParent, srcName) && Shows(s.fs, s.blocks, n, t)
  }

  /** What a command that succeeds does. */
  ghost predicate Done(s: State, c: Command, s': State, lo: nat, hi: nat) {
    |s'.blocks| == |s.blocks| &&
    match c
    case MakeDir(parent, path) => exists n :: MakeDone(s, s', n, parent, Normal(path))
    case Write(parent, path, offset, buff, create, truncate) => exists n, f :: WriteDone(s, c, s', lo, hi, n, f)
    case Remove(parent, name) => exists n ::
      && IsItem(s.fs, n, parent, name) && Represents(s'.tab, s'.fs) && s'.fs == Removed(s.fs, n)
      && s'.blocks == s.blocks
    case MoveTo(srcParent, srcName, parent, path) => exists n ::
      IsItem(s.fs, n, srcParent, srcName) && MoveDone(s, s', n, srcParent, parent, Normal(path))
    case Copy(srcParent, srcName, parent, path) => exists n, t, m :: CopyDone(s, c, s', lo, hi, n, t, m)
  }

  /** A new directory is in its parent, or, when that is full, in the wrong place. */
  ghost predicate MakeDone(s: State, s': State, n: nat, parent: nat, name: string) {
    && IsFree(s.tab, n) && (forall h :: !IsItem(s.fs, h, parent, name)) && parent in s.fs && s'.blocks == s.blocks
    && if |s.fs[parent].refs| < REFS then
         Represents(s'.tab, s'.fs) && s'.fs == Placed(s.fs, n, NewNode(Dir, name, parent, n))
       else Misplaced(s'.tab, s.fs[n := NewNode(Dir, name, parent, n)], parent, n)
  }

  /** The item is in its new directory, or, when that is full, in the wrong place. */
  ghost predicate MoveDone(s: State, s': State, n: nat, srcParent: nat, parent: nat, name: string) {
    && (forall h :: !IsItem(s.fs, h, parent, name)) && s'.blocks == s.blocks
    && n in s.fs && s.fs[n].parent in s.fs && parent in s.fs
    && if HasSlot(s.fs, srcParent, parent) then
         Represents(s'.tab, s'.fs) && s'.fs == Moved(s.fs, n, MovedNode(s.fs[n], name, parent))
       else Misplaced(s'.tab, Between(s.fs, n, MovedNode(s.fs[n], name, parent)), parent, n)
  }

  ghost predicate WriteDone(s: State, c: Command, s': State, lo: nat, hi: nat, n: nat, f: nat)
    requires c.Write?
  {
    && c.parent in s.fs && Represents(s'.tab, s'.fs) && Target(s.tab, s.fs, n, c.parent, c.path, c.create)
    && Outcome(Prepared(s.fs, n, f, c.parent, c.path), s.blocks, s'.fs, s'.blocks, n, lo, hi, c.offset, c.buff,
         c.truncate)
  }

  ghost predicate CopyDone(s: State, c: Command, s': State, lo: nat, hi: nat, n: nat, t: Tree, m: nat)
    requires c.Copy?
  {
    && CopySource(s, n, t, c.srcParent, c.srcName) && Represents(s'.tab, s'.fs) && WellFormed(s'.fs, lo, hi)
    && TreeCopied(s, s', m, c.parent, Normal(c.path), t, lo, hi)
  }

  /** The command is turned away before it changes anything. */
  ghost predicate Refused(s: State, c: Command) {
    match c
    case MakeDir(parent, path) => FreeSet(s.tab) == {} || exists h :: IsItem(s.fs, h, parent, Normal(path))
    case Write(parent, path, offset, buff, create, truncate) => NoFile(s.fs, parent, path, create)
    case Remove(parent, name) => forall h :: !IsItem(s.fs, h, parent, name)
    case MoveTo(srcParent, srcName, parent, path) => NotBetween(s.fs, srcParent, srcName, parent, Normal(path))
    case Copy(srcParent, srcName, parent, path) => NotBetween(s.fs, srcParent, srcName, parent, Normal(path))
  }

  /** The source is missing, or the name at the destination is taken. */
  ghost predicate NotBetween(fs: FS, srcParent: nat, srcName: string, parent: nat, name: string) {
    (forall h :: !IsItem(fs, h, srcParent, srcName)) || exists h :: IsItem(fs, h, parent, name)
  }

  /** A command that succeeds does what it should; one that is refused changes nothing. */
  ghost predicate Step(s: State, c: Command, s': State, lo: nat, hi: nat) {
    if Succeeds(s, c, lo, hi) then Done(s, c, s', lo, hi)
    else Refused(s, c) && s' == s
  }

  /** What a command leaves that fails once it has begun. */
  ghost predicate HalfDone(s: State, c: Command, tab': Table, blocks': seq<Block>) {
    match c
    case MakeDir(parent, path) =>
      blocks' == s.blocks && exists fs' :: LeftLoose(s.tab, s.fs, tab', fs', parent, Normal(path))
    case Write(parent, path, offset, buff, create, truncate) =>
      exists n, f :: Halfway(s.tab, s.fs, s.blocks, tab', blocks', n, f, parent, path)
    case Remove(_, _) => false
    case MoveTo(srcParent, srcName, parent, path) =>
      blocks' == s.blocks && exists n ::
        IsItem(s.fs, n, srcParent, srcName) && LeftBetween(s.fs, tab', n, MovedNode(s.fs[n], Normal(path), parent))
    case Copy(srcParent, srcName, parent, path) => FilesSpared(s, State(tab', s.fs, blocks'))
  }

  /** What is true of a command that has been carried out. */
  ghost predicate Carried(s: State, c: Command, s': State, ok: bool, refused: bool, lo: nat, hi: nat) {
    && (ok <==> Succeeds(s, c, lo, hi))
    && (refused <==> Refused(s, c))
    && if ok || refused then Step(s, c, s', lo, hi) else HalfDone(s, c, s'.tab, s'.blocks)
  }

  // ----- every method is a step -----

  /** Carries out a command. A write or a copy can fail once it has begun: when the disk fills up, or when a
      harmful write runs into the reference it has lost. So can a command that adds to a full directory, when
      there is no entry to extend it. */
  method Execute(d: Disk, c: Command, now: nat) returns (ok: bool, ghost refused: bool)
    requires d.Valid() && Callable(d.fs, c)
    modifies d, d.table, d.blocks
    ensures Carried(State(old(d.table[..]), old(d.fs), old(d.blocks[..])), c, State(d.table[..], d.fs, d.blocks[..]),
      ok, refused, d.FirstData(), d.blocks.Length)
  {
    hide Represents, WellFormed, Removed, Wiped, Normal, Created, Relocated, Saved, Answered, Halfway, TreeAnswered,
      Carried, HasSlot, Under, Outside, Shows;
    ghost var s, lo, hi := State(d.table[..], d.fs, d.blocks[..]), d.FirstData(), d.blocks.Length;
    match c
    case MakeDir(parent, path) =>
      var r := CreateDirectory(d, parent, path, now);
      MakeDirCarried(s, c, State(d.table[..], d.fs, d.blocks[..]), r, lo, hi);
      return r.Ok?, r.Err? && (r.error.Exists? || FreeSet(s.tab) == {});
    case Write(parent, path, offset, buff, create, truncate) =>
      ghost var n, f;
      var r;
      r, n, f := WriteFile(d, parent, path, offset, buff, create, truncate, now);
      WriteCarried(s, c, State(d.table[..], d.fs, d.blocks[..]), r, n, f, lo, hi, now);
      return r.Ok?, r.Err? && r.error.NotFound?;
    case Remove(parent, name) =>
      var r := Delete(d, parent, name);
      RemoveCarried(s, c, State(d.table[..], d.fs, d.blocks[..]), r, lo, hi);
      return r.Ok?, r.Err?;
    case MoveTo(srcParent, srcName, parent, path) =>
      var r := Move(d, srcParent, srcName, parent, path);
      MoveCarried(s, c, State(d.table[..], d.fs, d.blocks[..]), r, lo, hi);
      return r.Ok?, r.Err? && !r.error.NoSpace?;
    case Copy(srcParent, srcName, parent, path) =>
      ghost var t := SourceTree(s, c, lo, hi);
      var r, m := CopyItem(d, d, srcParent, srcName, parent, path, now, t);
      CopyCarried(s, c, State(d.table[..], d.fs, d.blocks[..]), r, t, m, lo, hi);
      return r.Ok?, NotBetween(s.fs, srcParent, srcName, parent, Normal(path));
  }

  lemma MakeDirCarried(s: State, c: Command, s': State, r: Result<nat>, lo: nat, hi: nat)
    requires c.MakeDir? && Callable(s.fs, c) && s'.blocks == s.blocks && WellFormed(s.fs, lo, hi)
    requires Created(s.tab, s.fs, s'.tab, s'.fs, r, c.parent, Normal(c.path))
    ensures Carried(s, c, s', r.Ok?, r.Err? && (r.error.Exists? || FreeSet(s.tab) == {}), lo, hi)
  {
    hide WellFormed, Represents, Placed, Misplaced, LeftLoose, FreeSet, IsFree, Normal, IsItem, Extra, TreeOk;
    FullDir(s.fs, c.parent, lo, hi);
    match r
    case Ok(n) => assert MakeDone(s, s', n, c.parent, Normal(c.path));
    case Err(_) =>
  }

  lemma WriteCarried(s: State, c: Command, s': State, r: Result<nat>, n: nat, f: nat, lo: nat, hi: nat, now: nat)
    requires c.Write? && |s'.blocks| == |s.blocks| == hi
    requires r.Ok? ==> Saved(s.tab, s.fs, s.blocks, s'.tab, s'.fs, s'.blocks, n, f, c.parent, c.path, c.offset, c.buff,
      c.create, c.truncate, lo, now)
    requires Answered(r, s.tab, s.fs, n, c.parent, c.path, c.offset + |c.buff|, c.buff != [], c.create, c.truncate, lo,
      hi)
    requires r.Err? && !r.error.NotFound? ==>
      Halfway(s.tab, s.fs, s.blocks, s'.tab, s'.blocks, n, f, c.parent, c.path)
    requires r.Err? && r.error.NotFound? ==> s' == s
    ensures Carried(s, c, s', r.Ok?, r.Err? && r.error.NotFound?, lo, hi)
  {
    hide Represents, WellFormed, Target, Outcome, Prepared, Halfway, NoFile, WriteRoom, WriteStops, KeepsOrder,
      ChainKept, FreshChain, SafeResize;
    if r.Ok? { assert WriteDone(s, c, s', lo, hi, n, f); }
  }

  lemma RemoveCarried(s: State, c: Command, s': State, r: Result<nat>, lo: nat, hi: nat)
    requires c.Remove? && s'.blocks == s.blocks && Represents(s'.tab, s'.fs)
    requires r.Err? ==> s' == s && forall h :: !IsItem(s.fs, h, c.parent, c.name)
    requires r.Ok? ==> exists n :: IsItem(s.fs, n, c.parent, c.name) && s'.fs == Removed(s.fs, n)
    ensures Carried(s, c, s', r.Ok?, r.Err?, lo, hi)
  {
    hide Represents, Removed;
  }

  lemma MoveCarried(s: State, c: Command, s': State, r: Result<nat>, lo: nat, hi: nat)
    requires c.MoveTo? && Callable(s.fs, c) && s'.blocks == s.blocks && WellFormed(s.fs, lo, hi)
    requires Relocated(s.tab, s.fs, s'.tab, s'.fs, r, c.srcParent, c.srcName, c.parent, Normal(c.path))
    ensures Carried(s, c, s', r.Ok?, r.Err? && !r.error.NoSpace?, lo, hi)
  {
    hide WellFormed, Represents, Moved, Misplaced, FreeSet, Normal, Between, HasSlot, LeftBetween;
    if r.Ok? { assert MoveDone(s, s', r.value, c.srcParent, c.parent, Normal(c.path)); }
  }

  lemma CopyCarried(s: State, c: Command, s': State, r: Result<()>, t: Tree, m: nat, lo: nat, hi: nat)
    requires c.Copy? && |s'.blocks| == |s.blocks| && Source(s.fs, s.blocks, c.srcParent, c.srcName, t)
    requires TreeAnswered(r, exists h :: IsItem(s.fs, h, c.srcParent, c.srcName), s, s', m, c.parent, Normal(c.path), t,
      lo, hi)
    requires r.Ok? ==> Represents(s'.tab, s'.fs) && WellFormed(s'.fs, lo, hi)
    ensures Carried(s, c, s', r.Ok?, NotBetween(s.fs, c.srcParent, c.srcName, c.parent, Normal(c.path)), lo, hi)
  {
    hide Represents, WellFormed, Normal, Shows, TreeCopied, FilesSpared, Fits, HasSpace;
    if h :| IsItem(s.fs, h, c.srcParent, c.srcName) {
      assert CopySource(s, h, t, c.srcParent, c.srcName);
      if r.Ok? { assert CopyDone(s, c, s', lo, hi, h, t, m); }
    }
    forall n, u | CopySource(s, n, u, c.srcParent, c.srcName) ensures u == t { ShowsOnce(s.fs, s.blocks, n, u, t); }
    SparedAlike(s, s', State(s'.tab, s.fs, s'.blocks));
  }

  lemma SparedAlike(s: State, s1: State, s2: State)
    requires s1.tab == s2.tab && s1.blocks == s2.blocks
    ensures FilesSpared(s, s1) <==> FilesSpared(s, s2)
  {
    hide Stored, Readable, Contents;
    if FilesSpared(s, s1) {
      forall h | h in s.fs && s.fs[h].kind.File? ensures FileSpared(s, s2, h) { assert FileSpared(s, s1, h); }
    }
    if FilesSpared(s, s2) {
      forall h | h in s.fs && s.fs[h].kind.File? ensures FileSpared(s, s1, h) { assert FileSpared(s, s2, h); }
    }
  }

  /** What is to be copied. */
  lemma SourceTree(s: State, c: Command, lo: nat, hi: nat) returns (t: Tree)
    requires c.Copy? && Callable(s.fs, c) && Good(s, lo, hi)
    ensures Source(s.fs, s.blocks, c.srcParent, c.srcName, t)
  {
    hide Represents, WellFormed, Shows, Under, Tall;
    t := Leaf([]);
    if n :| IsItem(s.fs, n, c.srcParent, c.srcName) {
      OnlyOne(s.fs, lo, hi, n, c.srcParent, c.srcName);
      NodesAreOk(s.tab, s.fs);
      NotTheRoot(s.fs, n, c.parent, lo, hi);
      var height := Height(s.fs, n, lo, hi);
      t := HoldsTree(s.fs, s.blocks, n, height, lo);
    }
  }

  lemma NotTheRoot(fs: FS, n: nat, p: nat, lo: nat, hi: nat)
    requires p in fs && !Under(fs, p, n) && WellFormed(fs, lo, hi)
    ensures n != 0
  {
    hide Under, DirsOk, BlocksOk, NamesOk, ParentsExist, Listed;
  }

  lemma Height(fs: FS, n: nat, lo: nat, hi: nat) returns (height: nat)
    requires n in fs && n != 0 && WellFormed(fs, lo, hi)
    ensures Tall(fs, n, height)
  {
    hide Deletable, BlocksAbove, WellFormed;
    height := CanDelete(fs, n, lo, hi);
  }

  // ----- one step -----

  lemma CanMake(fs: FS, n: nat, parent: nat, name: string)
    requires HasRoom(fs, parent) && n !in fs && n != 0 && forall h :: !IsItem(fs, h, parent, name)
    ensures CanPlace(fs, n, NewNode(Dir, name, parent, n))
  {
    forall h | h in fs && fs[h].parent == parent ensures fs[h].name != name { assert !IsItem(fs, h, parent, name); }
  }

  lemma DirMade(tab: Table, fs: FS, n: nat, parent: nat, name: string, lo: nat, hi: nat)
    requires Represents(tab, fs) && WellFormed(fs, lo, hi) && IsFree(tab, n) && HasRoom(fs, parent)
    requires forall h :: !IsItem(fs, h, parent, name)
    ensures WellFormed(Placed(fs, n, NewNode(Dir, name, parent, n)), lo, hi)
  {
    hide Represents, WellFormed, Placed, DirsOk, ParentsExist, NamesOk, BlocksOk, TreeOk, CanPlace, IsItem;
    FreshItem(tab, fs, n);
    RootKept(fs, lo, hi);
    RootInUse(tab, fs);
    CanMake(fs, n, parent, name);
    CreatedOk(fs, n, NewNode(Dir, name, parent, n), lo, hi);
  }

  /** A new directory leaves a well-formed file system exactly when its parent has room. */
  lemma MakeDirKeeps(s: State, c: Command, s': State, lo: nat, hi: nat)
    requires Good(s, lo, hi) && Callable(s.fs, c) && c.MakeDir? && Done(s, c, s', lo, hi)
    ensures Good(s', lo, hi) <==> Harmless(s.fs, c)
  {
    hide Represents, WellFormed, Placed, IsItem, IsFree, Normal, Misplaced;
    var n :| MakeDone(s, s', n, c.parent, Normal(c.path));
    if HasRoom(s.fs, c.parent) {
      DirMade(s.tab, s.fs, n, c.parent, Normal(c.path), lo, hi);
    } else if Represents(s'.tab, s'.fs) {
      FreshItem(s.tab, s.fs, n);
      FullDir(s.fs, c.parent, lo, hi);
      CreatedInFull(s'.tab, s.fs, n, NewNode(Dir, Normal(c.path), c.parent, n), s'.fs, lo, hi);
    }
  }

  lemma FullDir(fs: FS, p: nat, lo: nat, hi: nat)
    requires WellFormed(fs, lo, hi) && IsDir(fs, p)
    ensures |fs[p].refs| <= REFS && TreeOk(fs, {})
  {
    hide NamesOk, Acyclic, BlocksOk, ParentsExist;
    assert ItemsOk(fs, p);
  }

  lemma RootKept(fs: FS, lo: nat, hi: nat)
    requires WellFormed(fs, lo, hi)
    ensures RootOk(fs) && ParentsExist(fs) && NamesOk(fs) && DirsOk(fs) && BlocksOk(fs, lo, hi) && TreeOk(fs, {})
  {}

  lemma OneItem(fs: FS, lo: nat, hi: nat, g: nat, h: nat, parent: nat, name: string)
    requires WellFormed(fs, lo, hi) && IsItem(fs, g, parent, name) && IsItem(fs, h, parent, name)
    ensures g == h
  {
    hide WellFormed, DirsOk, ParentsExist, BlocksOk, TreeOk;
    RootKept(fs, lo, hi);
    assert fs[g].name == fs[h].name;
  }

  /** A write leaves a well-formed file system exactly when it is harmless. */
  lemma WriteKeeps(s: State, c: Command, s': State, lo: nat, hi: nat)
    requires Good(s, lo, hi) && c.Write? && Callable(s.fs, c) && Done(s, c, s', lo, hi)
    ensures Good(s', lo, hi) <==> Harmless(s.fs, c)
  {
    hide Represents, WellFormed, Outcome, SafeResize, Listing, FirstFreeEntry, Normal, TreeOk;
    var n, f :| WriteDone(s, c, s', lo, hi, n, f);
    FullDir(s.fs, c.parent, lo, hi);
    RootParts(s.fs);
    OutcomeValid(Prepared(s.fs, n, f, c.parent, c.path), s'.fs, n, lo, hi, c.offset, c.buff, c.truncate, s.blocks,
      s'.blocks);
    if n in s.fs {
      OnlyOne(s.fs, lo, hi, n, c.parent, c.path);
    } else {
      var m := NewNode(File, Normal(c.path), c.parent, n);
      ListingOk(s.fs, n, m, f, lo, hi);
      ListingAt(s.fs, n, m, f, n);
    }
  }

  lemma RemoveKeeps(s: State, c: Command, s': State, lo: nat, hi: nat)
    requires Good(s, lo, hi) && Callable(s.fs, c) && c.Remove? && Done(s, c, s', lo, hi)
    ensures Good(s', lo, hi)
  {
    hide Represents, WellFormed, Removed, TreeOk;
    var n :| IsItem(s.fs, n, c.parent, c.name) && s'.fs == Removed(s.fs, n);
    RootKept(s.fs, lo, hi);
    RemovedOk(s.fs, n);
    RemovedBlocksOk(s.fs, n, lo, hi);
    Together(s'.fs, lo, hi);
  }

  lemma Together(fs: FS, lo: nat, hi: nat)
    requires TreeOk(fs, {}) && BlocksOk(fs, lo, hi)
    ensures WellFormed(fs, lo, hi)
  {}

  lemma CanRename(fs: FS, n: nat, parent: nat, name: string)
    requires n in fs && n != 0 && !fs[n].kind.Free?
    requires IsDir(fs, parent) && (HasRoom(fs, parent) || parent == fs[n].parent)
    requires forall h :: !IsItem(fs, h, parent, name)
    ensures CanMove(fs, n, MovedNode(fs[n], name, parent))
  {
    forall h | h in fs && fs[h].parent == parent ensures fs[h].name != name { assert !IsItem(fs, h, parent, name); }
  }

  lemma ItemMoved(tab: Table, fs: FS, n: nat, parent: nat, name: string, lo: nat, hi: nat)
    requires Represents(tab, fs) && WellFormed(fs, lo, hi) && n in fs && n != 0
    requires IsDir(fs, parent) && (HasRoom(fs, parent) || parent == fs[n].parent)
    requires forall h :: !IsItem(fs, h, parent, name)
    ensures fs[n].parent in fs
    ensures WellFormed(Moved(fs, n, MovedNode(fs[n], name, parent)), lo, hi) <==> !Under(fs, parent, n)
  {
    hide Represents, WellFormed, Moved, Under, CanMove, IsItem;
    HeadStored(tab, fs, n);
    CanRename(fs, n, parent, name);
    MovedOk(fs, n, MovedNode(fs[n], name, parent), lo, hi);
  }

  /** A move leaves a well-formed file system exactly when it is harmless. */
  lemma MoveKeeps(s: State, c: Command, s': State, lo: nat, hi: nat)
    requires Good(s, lo, hi) && Callable(s.fs, c) && c.MoveTo? && Done(s, c, s', lo, hi)
    ensures Good(s', lo, hi) <==> Harmless(s.fs, c)
  {
    hide Represents, WellFormed, Moved, Under, Normal, DirsOk, ParentsExist, NamesOk, BlocksOk, TreeOk, Misplaced,
      Between;
    RootKept(s.fs, lo, hi);
    var n :| IsItem(s.fs, n, c.srcParent, c.srcName) && MoveDone(s, s', n, c.srcParent, c.parent, Normal(c.path));
    NotRoot(s.fs, n, c.srcParent, c.srcName);
    OnlyOne(s.fs, lo, hi, n, c.srcParent, c.srcName);
    if HasSlot(s.fs, c.srcParent, c.parent) {
      ItemMoved(s.tab, s.fs, n, c.parent, Normal(c.path), lo, hi);
    } else if Represents(s'.tab, s'.fs) {
      FullDir(s.fs, c.parent, lo, hi);
      MovedIntoFull(s'.tab, s.fs, n, MovedNode(s.fs[n], Normal(c.path), c.parent), s'.fs, lo, hi);
    }
  }

  lemma OnlyOne(fs: FS, lo: nat, hi: nat, n: nat, parent: nat, name: string)
    requires WellFormed(fs, lo, hi) && IsItem(fs, n, parent, name)
    ensures forall h :: IsItem(fs, h, parent, name) ==> h == n
  {
    forall h | IsItem(fs, h, parent, name) ensures h == n { OneItem(fs, lo, hi, h, n, parent, name); }
  }

  /** From a good state, a command that succeeds leads to a good state exactly when it is harmless. */
  lemma StepKeeps(s: State, c: Command, s': State, lo: nat, hi: nat)
    requires Good(s, lo, hi) && Callable(s.fs, c) && Done(s, c, s', lo, hi)
    ensures Good(s', lo, hi) <==> Harmless(s.fs, c)
  {
    hide Represents, WellFormed, Moved, Removed, Placed, Outcome, Target, Copied, Under, Misplaced, Between, Prepared;
    match c
    case MakeDir(_, _) => MakeDirKeeps(s, c, s', lo, hi);
    case Write(_, _, _, _, _, _) => WriteKeeps(s, c, s', lo, hi);
    case Remove(_, _) => RemoveKeeps(s, c, s', lo, hi);
    case MoveTo(_, _, _, _) => MoveKeeps(s, c, s', lo, hi);
    case Copy(_, _, _, _) =>
  }

  // ----- whole runs -----

  /** States of a run, one more than commands. Every command can be called, and is harmless if it succeeds. */
  ghost predicate Run(states: seq<State>, commands: seq<Command>, lo: nat, hi: nat) {
    && |states| == |commands| + 1
    && forall i {:trigger commands[i]} :: 0 <= i < |commands| ==>
         && Callable(states[i].fs, commands[i])
         && (Succeeds(states[i], commands[i], lo, hi) ==> Harmless(states[i].fs, commands[i]))
         && Step(states[i], commands[i], states[i+1], lo, hi)
  }

  lemma RunAt(states: seq<State>, commands: seq<Command>, lo: nat, hi: nat, i: nat)
    requires Run(states, commands, lo, hi) && i < |commands|
    ensures |states| == |commands| + 1
    ensures Callable(states[i].fs, commands[i]) && Step(states[i], commands[i], states[i+1], lo, hi)
    ensures Succeeds(states[i], commands[i], lo, hi) ==> Harmless(states[i].fs, commands[i])
  {
    var c := commands[i];
  }

  /** Every state of every run is good. */
  lemma {:induction false} RunKeeps(states: seq<State>, commands: seq<Command>, lo: nat, hi: nat, i: nat)
    requires Run(states, commands, lo, hi) && Good(states[0], lo, hi) && i < |states|
    ensures Good(states[i], lo, hi)
  {
    hide Good, Callable, Harmless, Done, Succeeds;
    if i > 0 {
      RunKeeps(states, commands, lo, hi, i - 1);
      RunAt(states, commands, lo, hi, i - 1);
      hide Run;
      if states[i] != states[i-1] { StepKeeps(states[i-1], commands[i-1], states[i], lo, hi); }
    }
  }

  // ----- a file nobody names -----

  /** The command writes, renames or deletes file `h`. */
  ghost predicate Touches(fs: FS, c: Command, h: nat) {
    match c
    case Write(parent, path, _, _, _, _) => IsItem(fs, h, parent, path)
    case Remove(parent, name) => exists n :: IsItem(fs, n, parent, name) && Under(fs, h, n)
    case MoveTo(srcParent, srcName, _, _) => IsItem(fs, h, srcParent, srcName)
    case _ => false
  }

  /** File `h` of `s` is in `s'` as it was, with the same name, directory and bytes. */
  ghost predicate SameFile(s: State, s': State, h: nat) {
    && h in s.fs && h in s'.fs && s.fs[h].kind.File?
    && s'.fs[h].kind.File? && s'.fs[h].name == s.fs[h].name && s'.fs[h].parent == s.fs[h].parent
    && FileHas(s.fs, s.blocks, h, BytesOf(s, h)) && FileHas(s'.fs, s'.blocks, h, BytesOf(s, h))
  }

  ghost function BytesOf(s: State, h: nat): seq<Byte> {
    if h in s.fs && Readable(s.fs[h], |s.blocks|) then Contents(s.fs[h], s.blocks) else []
  }

  lemma GoodFile(s: State, h: nat, lo: nat, hi: nat)
    requires Good(s, lo, hi) && h in s.fs && s.fs[h].kind.File?
    ensures FileHas(s.fs, s.blocks, h, BytesOf(s, h)) && Readable(s.fs[h], |s.blocks|)
  {
    hide TreeOk, Represents, Stored, Linked, Contents;
    HeadStored(s.tab, s.fs, h);
    BlocksReadable(s.fs, h, lo, hi);
  }

  lemma SameNodeFile(s: State, s': State, h: nat, lo: nat, hi: nat)
    requires Good(s, lo, hi) && h in s.fs && s.fs[h].kind.File?
    requires h in s'.fs && s'.fs[h] == s.fs[h] && s'.blocks == s.blocks
    ensures SameFile(s, s', h)
  {
    hide Good, Contents, Readable;
    GoodFile(s, h, lo, hi);
  }

  lemma StepSpares(s: State, c: Command, s': State, lo: nat, hi: nat, h: nat)
    requires Good(s, lo, hi) && Callable(s.fs, c) && Step(s, c, s', lo, hi)
    requires Succeeds(s, c, lo, hi) ==> Harmless(s.fs, c)
    requires h in s.fs && s.fs[h].kind.File? && !Touches(s.fs, c, h)
    ensures SameFile(s, s', h)
  {
    hide Good, SameFile, Represents, WellFormed, Moved, Removed, Placed, Outcome, Target, Copied, Under, Prepared,
      Readable, Contents, SafeResize, Misplaced, Between, Succeeds;
    if s' == s {
      SameNodeFile(s, s', h, lo, hi);
    } else {
      match c
      case MakeDir(parent, path) =>
        var n :| MakeDone(s, s', n, c.parent, Normal(c.path));
        assert n !in s.fs by { GoodFresh(s, lo, hi, n); }
        PlacedAt(s.fs, n, NewNode(Dir, Normal(c.path), c.parent, n), h);
        SameNodeFile(s, s', h, lo, hi);
      case Write(_, _, _, _, _, _) => WriteSpares(s, c, s', lo, hi, h);
      case Remove(parent, name) =>
        var n :| IsItem(s.fs, n, parent, name) && s'.fs == Removed(s.fs, n);
        RemovedAt(s.fs, n, h);
        SameNodeFile(s, s', h, lo, hi);
      case MoveTo(_, _, _, _) => MoveSpares(s, c, s', lo, hi, h);
      case Copy(_, _, _, _) => CopySpares(s, c, s', lo, hi, h);
    }
  }

  lemma GoodFresh(s: State, lo: nat, hi: nat, n: nat)
    requires Good(s, lo, hi) && IsFree(s.tab, n)
    ensures n !in s.fs
  {
    FreshItem(s.tab, s.fs, n);
  }

  lemma KeptFile(s: State, s': State, fs: FS, n: nat, h: nat, lo: nat, hi: nat)
    requires Good(s, lo, hi) && h in s.fs && s.fs[h].kind.File? && h != n
    requires h in fs && fs[h] == s.fs[h] && OthersKept(fs, s.blocks, s'.fs, s'.blocks, n)
    ensures SameFile(s, s', h)
  {
    hide Good, Contents, Readable;
    GoodFile(s, h, lo, hi);
  }

  lemma OutcomeKept(fs: FS, blocks: seq<Block>, fs': FS, blocks': seq<Block>, n: nat, lo: nat, hi: nat,
                    offset: nat, buff: seq<Byte>, truncate: bool)
    requires Outcome(fs, blocks, fs', blocks', n, lo, hi, offset, buff, truncate) && WellFormed(fs', lo, hi)
    ensures OthersKept(fs, blocks, fs', blocks', n)
  {}

  lemma WriteSpares(s: State, c: Command, s': State, lo: nat, hi: nat, h: nat)
    requires Good(s, lo, hi) && c.Write? && Callable(s.fs, c) && Harmless(s.fs, c) && Done(s, c, s', lo, hi)
    requires h in s.fs && s.fs[h].kind.File? && !Touches(s.fs, c, h)
    ensures SameFile(s, s', h)
  {
    hide SameFile, Represents, WellFormed, Outcome, OthersKept, SafeResize, FirstFreeEntry, Listing, Normal, TreeOk;
    WriteKeeps(s, c, s', lo, hi);
    var n, f :| WriteDone(s, c, s', lo, hi, n, f);
    var fs := Prepared(s.fs, n, f, c.parent, c.path);
    OutcomeKept(fs, s.blocks, s'.fs, s'.blocks, n, lo, hi, c.offset, c.buff, c.truncate);
    FullDir(s.fs, c.parent, lo, hi);
    RootParts(s.fs);
    if n !in s.fs { ListingAt(s.fs, n, NewNode(File, Normal(c.path), c.parent, n), f, h); }
    KeptFile(s, s', fs, n, h, lo, hi);
  }

  lemma MoveSpares(s: State, c: Command, s': State, lo: nat, hi: nat, h: nat)
    requires Good(s, lo, hi) && c.MoveTo? && Callable(s.fs, c) && Harmless(s.fs, c) && Done(s, c, s', lo, hi)
    requires h in s.fs && s.fs[h].kind.File? && !Touches(s.fs, c, h)
    ensures SameFile(s, s', h)
  {
    hide SameFile, Represents, TreeOk, BlocksOk, Moved, Under, Misplaced, Between;
    var n :| IsItem(s.fs, n, c.srcParent, c.srcName) && MoveDone(s, s', n, c.srcParent, c.parent, Normal(c.path));
    RootKept(s.fs, lo, hi);
    NotRoot(s.fs, n, c.srcParent, c.srcName);
    assert Acyclic(s.fs) by { AcyclicOf(s.fs); }
    ParentDiffers(s.fs, n);
    MovedAt(s.fs, n, MovedNode(s.fs[n], Normal(c.path), c.parent), h);
    SameNodeFile(s, s', h, lo, hi);
  }

  lemma NotRoot(fs: FS, n: nat, parent: nat, name: string)
    requires RootOk(fs) && IsItem(fs, n, parent, name) && (parent != 0 || name != ROOT_NAME)
    ensures n != 0
  {}

  lemma AcyclicOf(fs: FS)
    requires TreeOk(fs, {})
    ensures Acyclic(fs)
  {}

  lemma CopySpares(s: State, c: Command, s': State, lo: nat, hi: nat, h: nat)
    requires Good(s, lo, hi) && c.Copy? && Callable(s.fs, c) && Done(s, c, s', lo, hi)
    requires h in s.fs && s.fs[h].kind.File?
    ensures SameFile(s, s', h)
  {
    hide Good, SameFile, Represents, WellFormed, OthersKept, FileHas, Readable, Contents, Shows, Taken;
    var n, t, m :| CopyDone(s, c, s', lo, hi, n, t, m);
    if Nothing(t) {
      SameNodeFile(s, s', h, lo, hi);
    } else {
      KeptFile(s, s', s.fs, c.parent, h, lo, hi);
    }
  }

  /** File `h` is stored in `tab'` under the name and in the directory it has in `s`, with the bytes it has there. */
  ghost predicate StillThere(s: State, m: Node, tab': Table, blocks': seq<Block>, h: nat) {
    && h in s.fs && m.kind.File? && m.name == s.fs[h].name && m.parent == s.fs[h].parent
    && Stored(tab', m) && Readable(m, |blocks'|) && Contents(m, blocks') == BytesOf(s, h)
  }

  /** A command that fails halfway spares every file it does not name. */
  lemma HalfSpares(s: State, c: Command, tab': Table, blocks': seq<Block>, lo: nat, hi: nat, h: nat)
    requires Good(s, lo, hi) && Callable(s.fs, c) && HalfDone(s, c, tab', blocks')
    requires h in s.fs && s.fs[h].kind.File? && !Touches(s.fs, c, h)
    ensures StillThere(s, s.fs[h], tab', blocks', h)
  {
    hide Good, Contents, Readable, Stored, Normal, Represents, Between, Halfway;
    GoodFile(s, h, lo, hi);
    match c
    case MakeDir(parent, path) =>
      var n, fs' :| IsFree(s.tab, n) && fs' == s.fs[n := NewNode(Dir, Normal(path), parent, n)]
        && Represents(tab', fs');
      GoodFresh(s, lo, hi, n);
      HeadStored(tab', fs', h);
    case Write(parent, path, _, _, _, _) =>
      var n, f :| Halfway(s.tab, s.fs, s.blocks, tab', blocks', n, f, parent, path);
      WriteHalfSpares(s, parent, path, tab', blocks', n, f, lo, hi, h);
    case MoveTo(srcParent, srcName, parent, path) =>
      var n :| IsItem(s.fs, n, srcParent, srcName)
        && LeftBetween(s.fs, tab', n, MovedNode(s.fs[n], Normal(path), parent));
      BetweenSame(s.fs, n, MovedNode(s.fs[n], Normal(path), parent), h);
      HeadStored(tab', Between(s.fs, n, MovedNode(s.fs[n], Normal(path), parent)), h);
    case Copy(_, _, _, _) => assert FileSpared(s, State(tab', s.fs, blocks'), h);
  }

  lemma BetweenSame(fs: FS, n: nat, m: Node, h: nat)
    requires n in fs && fs[n].parent in fs && fs[fs[n].parent].kind.Dir? && h != n && h in fs && fs[h].kind.File?
    ensures h in Between(fs, n, m) && Between(fs, n, m)[h] == fs[h]
  {
    UnlistedAt(fs, n, h);
  }

  lemma WriteHalfSpares(s: State, parent: nat, path: string, tab': Table, blocks': seq<Block>, n: nat, f: nat,
                        lo: nat, hi: nat, h: nat)
    requires Good(s, lo, hi) && IsDir(s.fs, parent) && Halfway(s.tab, s.fs, s.blocks, tab', blocks', n, f, parent, path)
    requires h in s.fs && s.fs[h].kind.File? && (n in s.fs ==> !IsItem(s.fs, h, parent, path))
    ensures StillThere(s, s.fs[h], tab', blocks', h)
  {
    hide Good, Contents, Readable, Stored, Listing, Normal;
    GoodFile(s, h, lo, hi);
    GoodStored(s, h, lo, hi);
    GoodRoot(s, lo, hi);
    if n !in s.fs { ListingAt(s.fs, n, NewNode(File, Normal(path), parent, n), f, h); }
  }

  lemma GoodRoot(s: State, lo: nat, hi: nat)
    requires Good(s, lo, hi)
    ensures 0 in s.fs && s.fs[0].kind.Dir?
  {}

  lemma GoodStored(s: State, h: nat, lo: nat, hi: nat)
    requires Good(s, lo, hi) && h in s.fs
    ensures Stored(s.tab, s.fs[h])
  {
    HeadStored(s.tab, s.fs, h);
  }

  lemma SameFileTwice(s: State, s1: State, s2: State, h: nat)
    requires SameFile(s, s1, h) && SameFile(s1, s2, h)
    ensures SameFile(s, s2, h)
  {
    hide Contents, Readable;
  }

  /** Through every run, a file keeps its name, its directory and its bytes until a command names it
      or deletes a directory above it. */
  lemma {:induction false} RunSpares(states: seq<State>, commands: seq<Command>, lo: nat, hi: nat, i: nat, h: nat)
    requires Run(states, commands, lo, hi) && Good(states[0], lo, hi) && i < |states|
    requires h in states[0].fs && states[0].fs[h].kind.File?
    requires forall j {:trigger commands[j]} :: 0 <= j < i ==> !Touches(states[j].fs, commands[j], h)
    ensures SameFile(states[0], states[i], h)
  {
    hide Good, Callable, Harmless, Done, Touches, Succeeds;
    if i == 0 {
      SameNodeFile(states[0], states[0], h, lo, hi);
    } else {
      RunSpares(states, commands, lo, hi, i - 1, h);
      RunKeeps(states, commands, lo, hi, i - 1);
      RunAt(states, commands, lo, hi, i - 1);
      hide Run;
      StepSpares(states[i-1], commands[i-1], states[i], lo, hi, h);
      hide SameFile;
      SameFileTwice(states[0], states[i-1], states[i], h);
    }
  }

  /** So does a whole run that ends with a command that fails halfway. */
  lemma FailureSpares(states: seq<State>, commands: seq<Command>, c: Command, tab': Table, blocks': seq<Block>,
                      lo: nat, hi: nat, h: nat)
    requires Run(states, commands, lo, hi) && Good(states[0], lo, hi)
    requires h in states[0].fs && states[0].fs[h].kind.File?
    requires forall j {:trigger commands[j]} :: 0 <= j < |commands| ==> !Touches(states[j].fs, commands[j], h)
    requires var s := states[|commands|]; Callable(s.fs, c) && HalfDone(s, c, tab', blocks') && !Touches(s.fs, c, h)
    ensures h in states[|commands|].fs && StillThere(states[0], states[|commands|].fs[h], tab', blocks', h)
  {
    hide Good, Callable, HalfDone, Touches, Run, Contents, Stored, Readable;
    assert |states| == |commands| + 1 by { RunLength(states, commands, lo, hi); }
    var s := states[|commands|];
    RunSpares(states, commands, lo, hi, |commands|, h);
    RunKeeps(states, commands, lo, hi, |commands|);
    HalfSpares(s, c, tab', blocks', lo, hi, h);
  }

  lemma RunLength(states: seq<State>, commands: seq<Command>, lo: nat, hi: nat)
    requires Run(states, commands, lo, hi)
    ensures |states| == |commands| + 1
  {}
}
