/** Names, lookup, and the operations that change the directory tree. */
module Directories {
  import opened Entries
  import opened Layout
  import opened Trees
  import opened Tables

  // ----- names -----

  predicate Allowed(c: char) {
    '0' <= c <= '9' || 'A' <= c <= 'Z' || 'a' <= c <= 'z' || c in ".-_()[]"
  }

  /** The name the file system stores for a name typed by the user. */
  function Normal(name: string): (r: string)
    ensures |r| == if |name| < 14 then |name| else 14
    ensures forall i :: 0 <= i < |r| ==> Allowed(r[i]) && r[i] == if Allowed(name[i]) then name[i] else '_'
  {
    seq(Min(|name|, NAME_MAX), i requires 0 <= i < |name| => if Allowed(name[i]) then name[i] else '_')
  }

  lemma NormalTwice(name: string)
    ensures Normal(Normal(name)) == Normal(name)
  {}

  /** Replaces bad symbols one by one and cuts at the longest length. */
  method StringToName(str: string) returns (s: string)
    ensures s == Normal(str)
  {
    s := str;
    var i := 0;
    while i < |s|
      invariant 0 <= i <= |s| == |str| && i <= NAME_MAX
      invariant forall j :: 0 <= j < i ==> s[j] == Normal(str)[j]
      invariant forall j :: i <= j < |s| ==> s[j] == str[j]
    {
      if !Allowed(s[i]) {
        s := s[i := '_'];
      }
      if i == NAME_MAX {
        s := s[..i];
        break;
      }
      i := i + 1;
    }
  }

  // ----- lookup -----

  predicate Matches(e: Entry, parent: nat, name: string) {
    !e.kind.Free? && e.parent == parent && e.name == name
  }

  /** First used entry with this parent and name. */
  method GetEntry(d: Disk, parent: nat, name: string) returns (r: Result<nat>)
    ensures r.Ok? ==> r.value < d.table.Length && Matches(d.table[r.value], parent, name)
    ensures r.Ok? ==> forall e :: 0 <= e < r.value ==> !Matches(d.table[e], parent, name)
    ensures r.Err? ==> r.error.NotFound? && forall e :: 0 <= e < d.table.Length ==> !Matches(d.table[e], parent, name)
  {
    var n := 0;
    while n < d.table.Length
      invariant 0 <= n <= d.table.Length
      invariant forall e :: 0 <= e < n ==> !Matches(d.table[e], parent, name)
    {
      if Matches(d.table[n], parent, name) { return Ok(n); }
      n := n + 1;
    }
    return Err(NotFound);
  }

  ghost predicate IsItem(fs: FS, h: nat, parent: nat, name: string) {
    h in fs && fs[h].parent == parent && fs[h].name == name
  }

  /** Chained entries never match: below a directory, the entries that match are its items. */
  lemma MatchesItem(tab: Table, fs: FS, e: nat, parent: nat, name: string)
    requires Represents(tab, fs) && ParentsExist(fs) && DirsOk(fs)
    requires parent in fs && fs[parent].kind.Dir?
    ensures e < |tab| && Matches(tab[e], parent, name) <==> IsItem(fs, e, parent, name)
  {
    hide DirsOk, ParentsExist;
    if e < |tab| && Matches(tab[e], parent, name) {
      var h :| Owns(fs, h, e);
      var k :| 0 <= k < |fs[h].chain| && fs[h].chain[k] == e;
      LinkAt(tab, fs[h], k);
      if k > 0 {
        assert fs[h].chain[k-1] in fs[h].chain;
        assert Owns(fs, h, parent);
        assert fs[parent].chain[0] == parent;
        assert Owns(fs, parent, parent);
        SingleDir(fs, parent);
        assert false;
      }
    }
    if IsItem(fs, e, parent, name) {
      LinkAt(tab, fs[e], 0);
    }
  }

  /** A directory with at most 120 items has no chained entries. */
  lemma SingleDir(fs: FS, h: nat)
    requires h in fs && fs[h].kind.Dir? && DirsOk(fs)
    ensures |fs[h].refs| <= REFS
    ensures WellSized(fs[h]) ==> |fs[h].chain| == 1
  {
    assert ItemsOk(fs, h);
  }

  /** Looks an item up in a directory. */
  method Lookup(d: Disk, parent: nat, name: string) returns (r: Result<nat>)
    requires d.Valid() && parent in d.fs && d.fs[parent].kind.Dir?
    ensures r.Ok? ==> IsItem(d.fs, r.value, parent, name) && r.value < d.table.Length
    ensures r.Err? ==> r.error.NotFound? && forall h :: !IsItem(d.fs, h, parent, name)
  {
    r := GetEntry(d, parent, name);
    hide Represents, RootOk, DirsOk, ParentsExist, Listed, NamesOk, Acyclic, BlocksOk;
    forall e: nat ensures e < |d.table[..]| && Matches(d.table[..][e], parent, name)
      <==> IsItem(d.fs, e, parent, name) {
      MatchesItem(d.table[..], d.fs, e, parent, name);
    }
    if r.Ok? { assert Matches(d.table[..][r.value], parent, name); }
  }

  // ----- creation -----

  lemma NewStored(tab: Table, n: nat, kind: Kind, name: string, time: nat, parent: nat)
    requires n < |tab| && !kind.Free?
    ensures Stored(tab[n := Entry(kind, name, time, 0, parent, 0, NoRefs())], NewNode(kind, name, parent, n))
  {}

  lemma FreshItem(tab: Table, fs: FS, n: nat)
    requires Represents(tab, fs) && IsFree(tab, n)
    ensures n !in fs
  {
    if n in fs { HeadStored(tab, fs, n); }
  }

  /** The head entry of a file or directory, and what it takes to change it. */
  lemma HeadStored(tab: Table, fs: FS, h: nat)
    requires Represents(tab, fs) && h in fs
    ensures Stored(tab, fs[h]) && Linked(tab, fs[h]) && WellSized(fs[h])
    ensures fs[h].chain != [] && fs[h].chain[0] == h && h < |tab| && !IsFree(tab, h)
    ensures !fs[h].kind.Free? && tab[h].parent == fs[h].parent && tab[h].kind == fs[h].kind
  {
    LinkAt(tab, fs[h], 0);
  }

  lemma DirStored(tab: Table, fs: FS, h: nat)
    requires Represents(tab, fs) && h in fs && fs[h].kind.Dir? && DirsOk(fs)
    ensures Stored(tab, fs[h]) && fs[h].chain == [h] && h < |tab| && !IsFree(tab, h)
    ensures fs[h].size == |fs[h].refs| <= REFS
  {
    HeadStored(tab, fs, h);
    SingleDir(fs, h);
  }

  lemma CreatedOk(fs: FS, n: nat, m: Node, lo: nat, hi: nat)
    requires WellFormed(fs, lo, hi) && n !in fs && CanPlace(fs, n, m)
    ensures WellFormed(Placed(fs, n, m), lo, hi)
  {
    hide DirsOk, NamesOk, Acyclic, BlocksOk, Placed;
    assert TreeOk(fs, {} + {n});
    if Under(fs, m.parent, n) {
      var k: nat :| Anc(fs, m.parent, k) == n;
      AncExists(fs, m.parent, k);
    }
    PlacedOk(fs, n, m, {});
    PlacedBlocks(fs, n, m, lo, hi);
  }

  /** The table once item `n` of `fs` has been added to a directory that was full: it is stored, but not listed
      where it should be. */
  ghost predicate Misplaced(tab: Table, fs: FS, parent: nat, n: nat) {
    exists tab1: Table, f: nat ::
      && Represents(tab1, fs) && IsFree(tab1, f) && n < |tab1| && parent < |tab1| && f < |tab1|
      && tab == Misfiled(tab1, parent, f, n)
  }

  /** What a table stores once item `n` has been added to the full directory `p`: the directory has an entry
      more, `f`, and a reference to nothing; the root lists the item first. */
  ghost function Overfull(fs: FS, p: nat, f: nat, n: nat): FS
    requires p in fs
  {
    var x := fs[p];
    var fs1 := fs[p := Node(x.kind, x.name, x.parent, x.chain + [f], x.size + 1, x.refs + [0])];
    if 0 in fs1 then fs1[0 := WithFirst(fs1[0], n)] else fs1
  }

  ghost function WithFirst(m: Node, n: nat): Node {
    Node(m.kind, m.name, m.parent, m.chain, m.size, if m.refs == [] then [] else m.refs[0 := n])
  }

  /** A full directory with another entry linked to it. */
  lemma LongerStored(tab: Table, m: Node, p: nat, f: nat)
    requires Stored(tab, m) && m.kind.Dir? && m.chain == [p] && m.size == REFS && IsFree(tab, f) && f != 0
    ensures p < |tab| && f < |tab| && f != p
    ensures var t := tab[f := Chained(tab[p], p).(size := 1)][p := tab[p].(next := f, size := tab[p].size + 1)];
      Stored(t, Node(m.kind, m.name, m.parent, [p, f], m.size + 1, m.refs + [0]))
  {
    HeadOf(tab, m);
    LinkAt(tab, m, 0);
    RefsFrom(tab, m, 0);
  }

  /** The table with another reference in the first slot of an entry. */
  ghost function FirstSet(tab: Table, e: nat, n: nat): Table {
    if e < |tab| then tab[e := tab[e].(refs := tab[e].refs[0 := n])] else tab
  }

  lemma FirstStored(tab: Table, m: Node, n: nat)
    requires Stored(tab, m) && m.refs != [] && m.chain[0] < |tab|
    ensures Stored(FirstSet(tab, m.chain[0], n), WithFirst(m, n))
  {
    var e := m.chain[0];
    var tab' := FirstSet(tab, e, n);
    LinkedRefs(tab, m, e, tab'[e].refs);
    LinkedToo(tab', m, WithFirst(m, n));
    FirstSlots(tab, m, n);
    FirstSized(tab, tab', m, n);
    FirstHolds(tab, tab', m, n);
    hide Linked, Holds, Sized, Padded;
  }

  /** Of the entries of a chain only the first reference of the first one has changed. */
  ghost predicate FirstChanged(tab: Table, tab': Table, chain: seq<nat>, n: nat) {
    && |tab'| == |tab|
    && forall k :: 0 <= k < |chain| ==> chain[k] < |tab| && SlotChanged(tab[chain[k]], tab'[chain[k]], k, n)
  }

  ghost predicate SlotChanged(e: Entry, e': Entry, k: nat, n: nat) {
    e'.size == e.size && e'.refs == if k == 0 then e.refs[0 := n] else e.refs
  }

  lemma FirstSlots(tab: Table, m: Node, n: nat)
    requires Linked(tab, m)
    ensures FirstChanged(tab, FirstSet(tab, m.chain[0], n), m.chain, n)
  {
    var tab' := FirstSet(tab, m.chain[0], n);
    forall k | 0 <= k < |m.chain| ensures m.chain[k] < |tab| && SlotChanged(tab[m.chain[k]], tab'[m.chain[k]], k, n) {
      LinkAt(tab, m, k);
      LinkDistinct(tab, m, 0, k);
    }
    hide Linked;
  }

  lemma FirstSized(tab: Table, tab': Table, m: Node, n: nat)
    requires FirstChanged(tab, tab', m.chain, n) && Sized(tab, m)
    ensures Sized(tab', WithFirst(m, n))
  {
    hide Linked;
    forall k | 0 <= k < |m.chain| ensures tab'[m.chain[k]].size == SizeFrom(m.kind, m.size, k) {
      assert SlotChanged(tab[m.chain[k]], tab'[m.chain[k]], k, n);
    }
  }

  lemma FirstHolds(tab: Table, tab': Table, m: Node, n: nat)
    requires FirstChanged(tab, tab', m.chain, n) && Holds(tab, m.chain, m.refs) && m.refs != []
    ensures Holds(tab', m.chain, WithFirst(m, n).refs) && (Padded(tab, m) ==> Padded(tab', WithFirst(m, n)))
  {
    forall k: nat, i: nat | k < |m.chain| && i < REFS
      ensures tab'[m.chain[k]].refs[i] == if REFS * k + i == 0 then n else tab[m.chain[k]].refs[i]
    {
      assert SlotChanged(tab[m.chain[k]], tab'[m.chain[k]], k, n);
      assert REFS * k + i == 0 <==> k == 0 && i == 0;
    }
    hide FirstChanged;
  }

  lemma FirstRepresented(tab: Table, fs: FS, n: nat)
    requires 0 < |tab| && 0 in fs && fs[0].refs != [] && Represents(tab, fs)
    ensures Represents(FirstSet(tab, 0, n), fs[0 := WithFirst(fs[0], n)])
  {
    hide Stored, Represents;
    HeadStored(tab, fs, 0);
    FirstStored(tab, fs[0], n);
    Replaced(tab, FirstSet(tab, 0, n), fs, 0, WithFirst(fs[0], n));
  }

  /** The misfiled table does store something, though nothing well formed. */
  lemma OverfullRepresented(tab: Table, fs: FS, p: nat, f: nat, n: nat)
    requires p in fs && fs[p].kind.Dir? && fs[p].chain == [p] && fs[p].size == REFS && 0 in fs && fs[0].refs != []
    requires IsFree(tab, f) && n < |tab| && Represents(tab, fs)
    ensures p < |tab| && f < |tab| && Represents(Misfiled(tab, p, f, n), Overfull(fs, p, f, n))
  {
    hide Stored, Represents;
    HeadStored(tab, fs, p);
    RootInUse(tab, fs);
    LongerStored(tab, fs[p], p, f);
    var x := fs[p];
    var x' := Node(x.kind, x.name, x.parent, x.chain + [f], x.size + 1, x.refs + [0]);
    var t := tab[f := Chained(tab[p], p).(size := 1)][p := tab[p].(next := f, size := tab[p].size + 1)];
    assert x.chain + [f] == [p, f];
    Replaced(tab, t, fs, p, x');
    FirstRepresented(t, fs[p := x'], n);
  }

  /** A new directory is stored but not listed anywhere. */
  ghost predicate LeftLoose(tab: Table, fs: FS, tab': Table, fs': FS, parent: nat, name: string) {
    exists n :: IsFree(tab, n) && fs' == fs[n := NewNode(Dir, name, parent, n)] && Represents(tab', fs')
  }

  lemma MisplacedIn(tab1: Table, tab: Table, fs: FS, parent: nat, n: nat)
    requires Represents(tab1, fs) && n < |tab1| && parent < |tab1|
    requires exists f :: IsFree(tab1, f) && tab == Misfiled(tab1, parent, f, n)
    ensures Misplaced(tab, fs, parent, n)
  {
    hide Represents, Misfiled;
  }

  /** Entries that a new item takes beside its own: another one for a directory that is full. */
  ghost function Extra(fs: FS, parent: nat): nat {
    if parent in fs && |fs[parent].refs| < REFS then 0 else 1
  }

  /** What becomes of a new directory, and when it can be made. */
  ghost predicate Created(tab: Table, fs: FS, tab': Table, fs': FS, r: Result<nat>, parent: nat, name: string) {
    && parent in fs
    && (r.Ok? <==> (forall h :: !IsItem(fs, h, parent, name)) && |FreeSet(tab)| > Extra(fs, parent))
    && match r
       case Ok(n) => IsFree(tab, n) && n < |tab'| &&
         var m := NewNode(Dir, name, parent, n);
         if |fs[parent].refs| < REFS then Represents(tab', fs') && fs' == Placed(fs, n, m)
         else Misplaced(tab', fs[n := m], parent, n)
       case Err(Exists) => (exists h :: IsItem(fs, h, parent, name)) && fs' == fs && tab' == tab
       case Err(NoSpace) => (forall h :: !IsItem(fs, h, parent, name)) &&
         if FreeSet(tab) == {} then fs' == fs && tab' == tab
         else |fs[parent].refs| == REFS && LeftLoose(tab, fs, tab', fs', parent, name)
       case Err(_) => false
  }

  /** Creates an empty directory. In a directory that is full it ends up in the wrong place, or, when there is
      no entry to extend the directory, nowhere. */
  method CreateDirectory(d: Disk, parent: nat, path: string, now: nat) returns (r: Result<nat>)
    requires d.Valid() && parent in d.fs && d.fs[parent].kind.Dir?
    modifies d`fs, d.table
    ensures |old(d.fs)[parent].refs| < REFS ==> d.Valid()
    ensures Created(old(d.table[..]), old(d.fs), d.table[..], d.fs, r, parent, Normal(path))
    ensures r.Ok? && |old(d.fs)[parent].refs| < REFS ==> d.table[r.value].time == now
  {
    hide Represents, DirsOk, NamesOk, Acyclic, BlocksOk, ParentsExist, Listed, Stored, Placed, SameOutside, Timed,
      Linked, Misfiled, FreeSet, Misplaced;
    ghost var tab, fs := d.table[..], d.fs;
    var name := StringToName(path);
    var found := Lookup(d, parent, name);
    if found.Ok? { return Err(Exists); }
    forall h | h in fs && fs[h].parent == parent ensures fs[h].name != name {
      assert !IsItem(fs, h, parent, name);
    }
    var free := FindFreeEntry(d);
    SomeFree(tab);
    if free.Err? { return Err(NoSpace); }
    var n := free.value;
    FreshItem(tab, fs, n);
    DirStored(tab, fs, parent);
    RootInUse(tab, fs);

    ghost var m := NewNode(Dir, name, parent, n);
    d.table[n] := Entry(Dir, name, 0, 0, parent, 0, NoRefs());
    ghost var tab1 := d.table[..];
    NewStored(tab, n, Dir, name, 0, parent);
    NewRepresented(tab, tab1, fs, n, m);
    ghost var fs1 := fs[n := m];

    // The time of creation
    var ok := SetEntryTime(d, n, now, m);
    ghost var tab2 := d.table[..];
    RepresentsTimed(tab1, tab2, m.chain, now, fs1);
    TimeAt(tab1, tab2, m.chain, now, n);
    OneEntry(tab, tab2, fs, n, m);
    HeadStored(tab2, fs1, parent);
    RootInUse(tab2, fs1);

    // The parent lists it
    if n != parent {
      ok := AddRefInEntry(d, parent, n, fs[parent]);
      if ok.Err? {
        d.fs := fs1;
        return Err(NoSpace);
      }
    }
    if |fs[parent].refs| < REFS {
      PlacedRepresented(tab2, d.table[..], fs, n, m);
      d.fs := Placed(fs, n, m);
      CreatedOk(fs, n, m, d.FirstData(), d.blocks.Length);
    } else {
      MisplacedIn(tab2, d.table[..], fs1, parent, n);
    }
    return Ok(n);
  }

  lemma TimeAt(tab: Table, tab': Table, c: seq<nat>, now: nat, e: nat)
    requires Timed(tab, tab', c, now) && e in c && e < |tab|
    ensures |tab'| == |tab| && tab'[e].time == now
  {}

  lemma NewRepresented(tab: Table, tab1: Table, fs: FS, n: nat, m: Node)
    requires Represents(tab, fs) && IsFree(tab, n) && m.chain == [n] && Stored(tab1, m)
    requires |tab1| == |tab| && forall e :: 0 <= e < |tab| && e != n ==> tab1[e] == tab[e]
    ensures Represents(tab1, fs[n := m]) && Linked(tab1, m)
  {
    FreshItem(tab, fs, n);
    Inserted(tab, tab1, fs, n, m);
    HeadOf(tab1, m);
  }

  lemma OneEntry(tab: Table, tab1: Table, fs: FS, n: nat, m: Node)
    requires n !in fs && m.chain == [n] && |tab| == |tab1|
    requires Represents(tab, fs) && Represents(tab1, fs[n := m])
    ensures |FreeSet(tab)| == |FreeSet(tab1)| + 1
  {
    hide Represents, FreeSet;
    assert SameChains(fs, fs[n := m], n);
    EntriesConserved(tab, fs, tab1, fs[n := m], n);
  }

  lemma RootInUse(tab: Table, fs: FS)
    requires Represents(tab, fs) && 0 in fs
    ensures |tab| > 0 && !IsFree(tab, 0)
  {
    HeadStored(tab, fs, 0);
  }

  // ----- moving on one disk -----

  /** Name and parent of an entry do not matter for what it refers to and for its size. */
  lemma RenamedRest(tab: Table, tab': Table, m: Node, m': Node)
    requires Stored(tab, m) && m' == Node(m.kind, m'.name, m'.parent, m.chain, m.size, m.refs) && |tab'| == |tab|
    requires forall e :: 0 <= e < |tab| ==> tab'[e].refs == tab[e].refs && tab'[e].size == tab[e].size
    ensures WellSized(m') && Holds(tab', m'.chain, m'.refs) && Sized(tab', m') && (m'.kind.Dir? ==> Padded(tab', m'))
  {}

  lemma RenamedLinked(tab: Table, n: nat, m: Node, m': Node)
    requires Linked(tab, m) && n == m.chain[0] && n < |tab|
    requires m' == Node(m.kind, m'.name, m'.parent, m.chain, m.size, m.refs)
    ensures Linked(tab[n := tab[n].(name := m'.name, parent := m'.parent)], m')
  {
    forall k | 0 < k < |m.chain| ensures m.chain[k] != n { assert m.chain[0] != m.chain[k]; }
  }

  lemma RenamedStored(tab: Table, n: nat, m: Node, m': Node)
    requires Stored(tab, m) && n == m.chain[0] && n < |tab|
    requires m' == Node(m.kind, m'.name, m'.parent, m.chain, m.size, m.refs)
    ensures Stored(tab[n := tab[n].(name := m'.name, parent := m'.parent)], m')
  {
    hide Linked, Holds, Sized, Padded, WellSized;
    var tab' := tab[n := tab[n].(name := m'.name, parent := m'.parent)];
    RenamedRest(tab, tab', m, m');
    RenamedLinked(tab, n, m, m');
  }

  lemma RenamedRepresented(tab: Table, tab': Table, fs: FS, n: nat, m': Node)
    requires Represents(tab, fs) && n in fs && n < |tab|
    requires var m := fs[n]; m' == Node(m.kind, m'.name, m'.parent, m.chain, m.size, m.refs)
    requires tab' == tab[n := tab[n].(name := m'.name, parent := m'.parent)]
    ensures Represents(tab', fs[n := m']) && Stored(tab', m')
  {
    hide Stored, Linked, WellSized;
    HeadStored(tab, fs, n);
    RenamedStored(tab, n, fs[n], m');
    Replaced(tab, tab', fs, n, m');
  }

  lemma UnlistedRepresented(tab: Table, tab': Table, fs: FS, n: nat)
    requires Represents(tab, fs) && n in fs && fs[n].parent in fs
    requires Stored(tab', WithoutItem(fs[fs[n].parent], n))
    requires SameOutside(tab, tab', fs[fs[n].parent].chain, fs[fs[n].parent].chain)
    ensures Represents(tab', Unlisted(fs, n))
  {
    hide Stored;
    HeadStored(tab, fs, fs[n].parent);
    Replaced(tab, tab', fs, fs[n].parent, WithoutItem(fs[fs[n].parent], n));
  }

  /** The node of item `n` after a move. */
  function MovedNode(m: Node, name: string, parent: nat): Node {
    Node(m.kind, name, parent, m.chain, m.size, m.refs)
  }

  /** The directory an item moves to has a free slot, or gets one because the item leaves it. */
  ghost predicate HasSlot(fs: FS, srcParent: nat, dstParent: nat) {
    dstParent in fs && (|fs[dstParent].refs| < REFS || dstParent == srcParent)
  }

  /** Files and directories while item `n`, now described by `m`, is listed nowhere. */
  ghost function Between(fs: FS, n: nat, m: Node): FS
    requires n in fs && fs[n].parent in fs
  {
    Unlisted(fs, n)[n := m]
  }

  /** What becomes of an item that is moved, and when it can be. */
  ghost predicate Relocated(tab: Table, fs: FS, tab': Table, fs': FS, r: Result<nat>, srcParent: nat, srcName: string,
                            dstParent: nat, name: string) {
    match r
    case Ok(n) =>
      && IsItem(fs, n, srcParent, srcName) && (forall h :: !IsItem(fs, h, dstParent, name)) && srcParent in fs
      && var m := MovedNode(fs[n], name, dstParent);
         if HasSlot(fs, srcParent, dstParent) then Represents(tab', fs') && fs' == Moved(fs, n, m)
         else FreeSet(tab) != {} && Misplaced(tab', Between(fs, n, m), dstParent, n)
    case Err(Exists) => (exists h :: IsItem(fs, h, dstParent, name)) && fs' == fs && tab' == tab
    case Err(NotFound) => (forall h :: !IsItem(fs, h, srcParent, srcName)) && fs' == fs && tab' == tab
    case Err(NoSpace) =>
      && !HasSlot(fs, srcParent, dstParent) && FreeSet(tab) == {} && (forall h :: !IsItem(fs, h, dstParent, name))
      && exists n :: IsItem(fs, n, srcParent, srcName) && LeftBetween(fs, tab', n, MovedNode(fs[n], name, dstParent))
    case Err(Io) => false
  }

  /** The item has left its directory and is listed nowhere. */
  ghost predicate LeftBetween(fs: FS, tab': Table, n: nat, m: Node) {
    n in fs && fs[n].parent in fs && Represents(tab', Between(fs, n, m))
  }

  /** The table after a move, entry by entry: the head entry of the item has the new name and parent, the two
      directories count and list other items, and that is all. */
  ghost predicate MovedTable(tab: Table, tab': Table, n: nat, srcParent: nat, dstParent: nat, name: string) {
    && |tab'| == |tab|
    && forall e :: 0 <= e < |tab| ==> MovedEntry(tab[e], tab'[e], e, n, srcParent, dstParent, name)
  }

  predicate MovedEntry(x: Entry, x': Entry, e: nat, n: nat, srcParent: nat, dstParent: nat, name: string) {
    && x'.time == x.time && x'.kind == x.kind && x'.next == x.next
    && x'.name == (if e == n then name else x.name)
    && x'.parent == (if e == n then dstParent else x.parent)
    && (e != srcParent && e != dstParent ==> x'.size == x.size && x'.refs == x.refs)
  }

  /** The old directory is stored without the item, in the entry it has. */
  lemma OffTable(tab: Table, tab1: Table, p: nat, m: Node, n: nat)
    requires Stored(tab, m) && Stored(tab1, WithoutItem(m, n)) && m.chain == [p]
    requires SameOutside(tab, tab1, m.chain, m.chain) && p < |tab1| && tab1[p].time == tab[p].time
    ensures Relisted(tab, tab1, p)
  {
    LinkAt(tab, m, 0);
    LinkAt(tab1, WithoutItem(m, n), 0);
    hide Stored, Linked;
  }

  /** Only size and references of entry `p` have changed. */
  ghost predicate Relisted(tab: Table, tab1: Table, p: nat) {
    && |tab1| == |tab|
    && forall e :: 0 <= e < |tab| ==>
         tab1[e] == if e == p then tab[e].(size := tab1[e].size, refs := tab1[e].refs) else tab[e]
  }

  lemma TableMoved(tab: Table, tab1: Table, tab': Table, n: nat, srcParent: nat, dstParent: nat, name: string)
    requires Relisted(tab, tab1, srcParent) && n < |tab| && tab1[n] == tab[n]
    requires Relisted(tab1[n := tab[n].(name := name, parent := dstParent)], tab', dstParent)
    ensures MovedTable(tab, tab', n, srcParent, dstParent, name)
  {}

  lemma ListedMore(tab: Table, tab': Table, p: nat, refs: Refs, size: nat)
    requires p < |tab| && tab' == tab[p := tab[p].(refs := refs, size := size)]
    ensures Relisted(tab, tab', p)
  {}

  /** Moves an item to another name or directory of the same disk. Nothing in the code looks whether
      the directory lies under the item; the result is well formed exactly when it does not. Nor does it look
      whether the directory is full: then the item leaves its old place and ends up in a wrong one, or nowhere. */
  method Move(d: Disk, srcParent: nat, srcName: string, dstParent: nat, dstPath: string) returns (r: Result<nat>)
    requires d.Valid()
    requires srcParent in d.fs && d.fs[srcParent].kind.Dir? && dstParent in d.fs && d.fs[dstParent].kind.Dir?
    requires srcParent != 0 || srcName != ROOT_NAME
    modifies d`fs, d.table
    ensures Relocated(old(d.table[..]), old(d.fs), d.table[..], d.fs, r, srcParent, srcName, dstParent, Normal(dstPath))
    ensures r.Ok? && HasSlot(old(d.fs), srcParent, dstParent) ==>
      (d.Valid() <==> !Under(old(d.fs), dstParent, r.value))
    ensures r.Ok? && HasSlot(old(d.fs), srcParent, dstParent) ==>
      MovedTable(old(d.table[..]), d.table[..], r.value, srcParent, dstParent, Normal(dstPath))
  {
    hide Represents, DirsOk, NamesOk, Acyclic, BlocksOk, ParentsExist, Listed, Stored, Placed, Unlisted,
      SameOutside, Timed, Linked, Under, ItemsOk, Misfiled, Misplaced, FreeSet, MovedTable, Relisted;
    ghost var tab, fs := d.table[..], d.fs;
    var name := StringToName(dstPath);
    var found := Lookup(d, dstParent, name);
    if found.Ok? { return Err(Exists); }
    var src := Lookup(d, srcParent, srcName);
    if src.Err? { return src; }
    var n := src.value;
    var entry := d.table[n];
    ghost var m := MovedNode(fs[n], name, dstParent);
    HeadStored(tab, fs, n);
    forall h | h in fs && fs[h].parent == dstParent ensures fs[h].name != name {
      assert !IsItem(fs, h, dstParent, name);
    }
    ListedAt(fs, n);
    DirStored(tab, fs, srcParent);
    DirStored(tab, fs, dstParent);
    RootInUse(tab, fs);

    // The old parent no longer lists it
    var ok := RemoveRefInEntry(d, entry.parent, n, fs[srcParent], 0);
    ghost var tab1, fs2 := d.table[..], Between(fs, n, m);
    TakenOff(tab, tab1, fs, n, m, dstParent);
    OffTable(tab, tab1, srcParent, fs[srcParent], n);

    // Its own entry takes the new name and parent
    d.table[n] := entry.(name := name, parent := dstParent);
    ghost var tab2 := d.table[..];

    // The new parent lists it
    ok := AddRefInEntry(d, dstParent, n, fs2[dstParent]);
    if ok.Err? {
      d.fs := fs2;
      return Err(NoSpace);
    }
    if HasSlot(fs, srcParent, dstParent) {
      ListedMore(tab2, d.table[..], dstParent, d.table[dstParent].refs, d.table[dstParent].size);
      TableMoved(tab, tab1, d.table[..], n, srcParent, dstParent, name);
      MovedCanPlace(fs, n, m);
      PlacedRepresented(tab2, d.table[..], Unlisted(fs, n), n, m);
      d.fs := Moved(fs, n, m);
      MovedOk(fs, n, m, d.FirstData(), d.blocks.Length);
    } else {
      MisplacedIn(tab2, d.table[..], fs2, dstParent, n);
    }
    return Ok(n);
  }

  /** The item has left its old directory and is described anew: the table stores that, and the new directory as
      it was, but for the item if that is where it came from. */
  lemma TakenOff(tab: Table, tab1: Table, fs: FS, n: nat, m: Node, dst: nat)
    requires n in fs && n != 0 && fs[n].parent in fs && fs[fs[n].parent].kind.Dir? && Acyclic(fs) && 0 in fs
    requires dst in fs && fs[dst].kind.Dir? && fs[dst].chain == [dst] && fs[dst].size == |fs[dst].refs| <= REFS
    requires fs[fs[n].parent].chain == [fs[n].parent] && n in fs[fs[n].parent].refs
    requires m == MovedNode(fs[n], m.name, m.parent)
    requires Stored(tab1, WithoutItem(fs[fs[n].parent], n)) && Represents(tab, fs)
    requires SameOutside(tab, tab1, fs[fs[n].parent].chain, fs[fs[n].parent].chain)
    ensures n < |tab| == |tab1| && tab1[n] == tab[n]
    ensures var tab2, fs2 := tab1[n := tab1[n].(name := m.name, parent := m.parent)], Between(fs, n, m);
      && Represents(tab2, fs2) && dst in fs2 && Stored(tab2, fs2[dst]) && fs2[dst].chain == [dst] && fs2[dst].kind.Dir?
      && fs2[dst].size <= REFS && (fs2[dst].size < REFS <==> HasSlot(fs, fs[n].parent, dst))
      && !IsFree(tab2, 0) && (FreeSet(tab2) == {} <==> FreeSet(tab) == {})
  {
    hide Represents, Acyclic, Stored, Linked, Unlisted, SameOutside, FreeSet, IsFree;
    ParentDiffers(fs, n);
    HeadStored(tab, fs, n);
    var fs1 := Unlisted(fs, n);
    UnlistedRepresented(tab, tab1, fs, n);
    UnlistedAt(fs, n, n);
    UnlistedAt(fs, n, 0);
    UnlistedAt(fs, n, dst);
    OutsideAt(tab, tab1, fs[fs[n].parent].chain, n);
    var tab2, fs2 := tab1[n := tab1[n].(name := m.name, parent := m.parent)], fs1[n := m];
    RenamedRepresented(tab1, tab2, fs1, n, m);
    HeadStored(tab2, fs2, dst);
    RootInUse(tab2, fs2);
    StillNoneFree(tab, fs, tab2, n, m);
  }

  /** Moving an item takes no entry and gives none back. */
  lemma StillNoneFree(tab: Table, fs: FS, tab2: Table, n: nat, m: Node)
    requires n in fs && fs[n].parent in fs && m.chain == fs[n].chain && |tab2| == |tab|
    requires Represents(tab, fs) && Represents(tab2, Between(fs, n, m))
    ensures FreeSet(tab2) == {} <==> FreeSet(tab) == {}
  {
    hide Represents, Unlisted, FreeSet;
    var fs2 := Between(fs, n, m);
    forall g: nat, e: nat ensures Owns(fs, g, e) <==> Owns(fs2, g, e) { UnlistedAt(fs, n, g); }
    UnlistedAt(fs, n, n);
    EntriesConserved(tab, fs, tab2, fs2, n);
  }

  lemma OutsideAt(tab: Table, tab': Table, c: seq<nat>, e: nat)
    requires SameOutside(tab, tab', c, c) && e !in c && e < |tab|
    ensures |tab'| == |tab| && tab'[e] == tab[e]
  {}

  lemma PlacedRepresented(tab2: Table, tab3: Table, fs: FS, n: nat, m: Node)
    requires m.parent in fs
    requires var x := fs[n := m][m.parent]; x.chain == [m.parent] && Stored(tab3, WithItem(x, n))
    requires Represents(tab2, fs[n := m])
    requires |tab3| == |tab2| && forall e :: 0 <= e < |tab2| && e != m.parent ==> tab3[e] == tab2[e]
    ensures Represents(tab3, Placed(fs, n, m))
  {
    hide Represents, Stored;
    Replaced(tab2, tab3, fs[n := m], m.parent, WithItem(fs[n := m][m.parent], n));
  }
}
