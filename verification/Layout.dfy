/** How a set of files and directories is laid out in the table of entries. */
module Layout {
  import opened Entries

  /** A file or directory. `chain` lists its entries, head first. `refs` are the blocks of a
      file in order, or the head entries of the items of a directory. */
  datatype Node = Node(kind: Kind, name: string, parent: nat, chain: seq<nat>, size: nat, refs: seq<nat>)

  /** A directory with one more item at the end. */
  function WithItem(m: Node, n: nat): Node {
    Node(m.kind, m.name, m.parent, m.chain, m.size + 1, m.refs + [n])
  }

  /** A directory without the first item equal to `n`. */
  function WithoutItem(m: Node, n: nat): Node {
    Node(m.kind, m.name, m.parent, m.chain, if m.size > 0 then m.size - 1 else 0, Without(m.refs, n))
  }

  /** A new file or directory at entry `n`. */
  function NewNode(kind: Kind, name: string, parent: nat, n: nat): Node {
    Node(kind, name, parent, [n], 0, [])
  }

  /** Files and directories by the index of their head entry. */
  type FS = map<nat, Node>

  type Table = seq<Entry>

  /** The entries of `m` are linked in both directions and carry its kind. */
  ghost predicate Linked(tab: Table, m: Node) {
    && m.chain != []
    && NoDup(m.chain)
    && (forall k :: 0 <= k < |m.chain| ==> m.chain[k] < |tab|)
    && (forall k :: 1 <= k < |m.chain| ==> m.chain[k] != 0)
    && !m.kind.Free?
    && tab[m.chain[0]].name == m.name
    && tab[m.chain[0]].parent == m.parent
    && (forall k {:trigger tab[m.chain[k]]} :: 0 <= k < |m.chain| ==> tab[m.chain[k]].kind == m.kind)
    && (forall k {:trigger tab[m.chain[k]]} :: 1 <= k < |m.chain| ==> tab[m.chain[k]].parent == m.chain[k-1])
    && (forall k {:trigger tab[m.chain[k]]} :: 0 <= k < |m.chain| ==>
         tab[m.chain[k]].next == if k + 1 < |m.chain| then m.chain[k+1] else 0)
  }

  /** The references of the chain, put one entry after another, start with `refs`. */
  ghost predicate Holds(tab: Table, chain: seq<nat>, refs: seq<nat>) {
    && |refs| <= REFS * |chain|
    && (forall k :: 0 <= k < |chain| ==> chain[k] < |tab|)
    && (forall k, i :: 0 <= k < |chain| && 0 <= i < REFS && REFS * k + i < |refs| ==>
         tab[chain[k]].refs[i] == refs[REFS * k + i])
  }

  /** Every entry of the chain records the size that remains from it on. */
  ghost predicate Sized(tab: Table, m: Node) {
    && (forall k :: 0 <= k < |m.chain| ==> m.chain[k] < |tab|)
    && (forall k {:trigger tab[m.chain[k]]} :: 0 <= k < |m.chain| ==>
         tab[m.chain[k]].size == SizeFrom(m.kind, m.size, k))
  }

  /** The number of references fits the size, and the chain is as long as they need. */
  predicate WellSized(m: Node) {
    && |m.refs| == RefCount(m.kind, m.size)
    && |m.chain| == ChainLen(|m.refs|)
  }

  /** Slots behind the last reference are zero. */
  ghost predicate Padded(tab: Table, m: Node) {
    && (forall k :: 0 <= k < |m.chain| ==> m.chain[k] < |tab|)
    && (forall k, i :: 0 <= k < |m.chain| && 0 <= i < REFS && |m.refs| <= REFS * k + i ==>
         tab[m.chain[k]].refs[i] == 0)
  }

  ghost predicate Stored(tab: Table, m: Node) {
    && WellSized(m)
    && Linked(tab, m)
    && Holds(tab, m.chain, m.refs)
    && Sized(tab, m)
    && (m.kind.Dir? ==> Padded(tab, m))
  }

  ghost predicate Owns(fs: FS, h: nat, e: nat) {
    h in fs && e in fs[h].chain
  }

  /** The table stores exactly the files and directories of `fs`. */
  ghost predicate Represents(tab: Table, fs: FS) {
    && (forall h :: h in fs ==> Stored(tab, fs[h]) && fs[h].chain[0] == h)
    && (forall h1, h2, e :: Owns(fs, h1, e) && Owns(fs, h2, e) ==> h1 == h2)
    && (forall e :: 0 <= e < |tab| && !tab[e].kind.Free? ==> exists h :: Owns(fs, h, e))
  }

  /** Tables that agree outside the entries of two chains. */
  ghost predicate SameOutside(tab: Table, tab': Table, c: seq<nat>, c': seq<nat>) {
    && |tab'| == |tab|
    && forall e :: 0 <= e < |tab| && e !in c && e !in c' ==> tab'[e] == tab[e]
  }

  lemma StoredElsewhere(tab: Table, tab': Table, m: Node)
    requires Stored(tab, m)
    requires |tab'| == |tab|
    requires forall e :: e in m.chain ==> tab'[e] == tab[e]
    ensures Stored(tab', m)
  {
    assert forall k :: 0 <= k < |m.chain| ==> m.chain[k] in m.chain;
  }

  /** Entries in use outside chain `c` are as they were. */
  ghost predicate KeepsOthers(tab: Table, tab': Table, c: seq<nat>) {
    && |tab'| == |tab|
    && forall e :: 0 <= e < |tab| && e !in c && !tab[e].kind.Free? ==> tab'[e] == tab[e]
  }

  /** Everything but `n` is stored. */
  ghost predicate OthersStored(tab: Table, fs: FS, n: nat) {
    forall h :: h in fs && h != n ==> Stored(tab, fs[h])
  }

  /** Owned entries exist and are in use. */
  lemma OwnedIsUsed(tab: Table, fs: FS, h: nat, e: nat)
    requires Represents(tab, fs) && Owns(fs, h, e)
    ensures e < |tab| && !tab[e].kind.Free?
  {
    var k :| 0 <= k < |fs[h].chain| && fs[h].chain[k] == e;
    assert tab[fs[h].chain[k]].kind == fs[h].kind;
  }

  /** One file or directory is rewritten; the rest of the table is left alone. */
  lemma Replaced(tab: Table, tab': Table, fs: FS, h: nat, m': Node)
    requires Represents(tab, fs) && h in fs
    requires SameOutside(tab, tab', fs[h].chain, m'.chain)
    requires Stored(tab', m') && m'.chain[0] == h
    requires forall e :: e in m'.chain && e !in fs[h].chain ==> e < |tab| && tab[e].kind.Free?
    requires forall e :: e in fs[h].chain && e !in m'.chain ==> e < |tab'| && tab'[e].kind.Free?
    ensures Represents(tab', fs[h := m'])
  {
    hide Stored;
    var fs' := fs[h := m'];
    forall g: nat, e: nat | g != h && Owns(fs, g, e)
      ensures e < |tab| && tab'[e] == tab[e] && !Owns(fs', h, e)
    {
      assert !Owns(fs, h, e);
      OwnedIsUsed(tab, fs, g, e);
    }
    forall g | g in fs && g != h ensures Stored(tab', fs[g]) {
      assert forall e :: e in fs[g].chain ==> Owns(fs, g, e);
      StoredElsewhere(tab, tab', fs[g]);
    }
    forall h1, h2, e | Owns(fs', h1, e) && Owns(fs', h2, e) ensures h1 == h2 {
      assert (h1 != h ==> Owns(fs, h1, e)) && (h2 != h ==> Owns(fs, h2, e));
    }
    forall e | 0 <= e < |tab'| && !tab'[e].kind.Free? ensures exists g :: Owns(fs', g, e) {
      if e in m'.chain {
        assert Owns(fs', h, e);
      } else {
        assert e !in fs[h].chain;
        var g :| Owns(fs, g, e);
        assert Owns(fs', g, e);
      }
    }
  }

  /** As long as entries in use elsewhere are kept, so is everything but one item. */
  lemma OthersStay(tab: Table, tab': Table, fs: FS, n: nat)
    requires n in fs && KeepsOthers(tab, tab', fs[n].chain) && Represents(tab, fs)
    ensures OthersStored(tab', fs, n)
  {
    hide Stored;
    forall h | h in fs && h != n ensures Stored(tab', fs[h]) {
      forall e | e in fs[h].chain ensures e < |tab| && tab'[e] == tab[e] {
        assert Owns(fs, h, e) && !Owns(fs, n, e);
        OwnedIsUsed(tab, fs, h, e);
      }
      StoredElsewhere(tab, tab', fs[h]);
    }
  }

  /** A new file or directory takes free entries. */
  lemma Inserted(tab: Table, tab': Table, fs: FS, h: nat, m: Node)
    requires Represents(tab, fs) && h !in fs
    requires SameOutside(tab, tab', m.chain, [])
    requires Stored(tab', m) && m.chain[0] == h
    requires forall e :: e in m.chain ==> e < |tab| && tab[e].kind.Free?
    ensures Represents(tab', fs[h := m])
  {
    hide Stored;
    var fs' := fs[h := m];
    forall g: nat, e: nat | Owns(fs, g, e)
      ensures e < |tab| && tab'[e] == tab[e] && !Owns(fs', h, e)
    {
      OwnedIsUsed(tab, fs, g, e);
    }
    forall g | g in fs ensures Stored(tab', fs[g]) {
      assert forall e :: e in fs[g].chain ==> Owns(fs, g, e);
      StoredElsewhere(tab, tab', fs[g]);
    }
    forall h1, h2, e | Owns(fs', h1, e) && Owns(fs', h2, e) ensures h1 == h2 {
      assert (h1 != h ==> Owns(fs, h1, e)) && (h2 != h ==> Owns(fs, h2, e));
    }
    forall e | 0 <= e < |tab'| && !tab'[e].kind.Free? ensures exists g :: Owns(fs', g, e) {
      if e in m.chain {
        assert Owns(fs', h, e);
      } else {
        var g :| Owns(fs, g, e);
        assert Owns(fs', g, e);
      }
    }
  }

  /** The whole chain of a file or directory becomes free. */
  lemma Dropped(tab: Table, tab': Table, fs: FS, h: nat)
    requires Represents(tab, fs) && h in fs
    requires SameOutside(tab, tab', fs[h].chain, [])
    requires forall e :: e in fs[h].chain ==> e < |tab'| && tab'[e].kind.Free?
    ensures Represents(tab', fs - {h})
  {
    hide Stored;
    var fs' := fs - {h};
    forall g | g in fs' ensures Stored(tab', fs[g]) {
      forall e | e in fs[g].chain ensures e < |tab| && tab'[e] == tab[e] {
        assert Owns(fs, g, e) && !Owns(fs, h, e);
        OwnedIsUsed(tab, fs, g, e);
      }
      StoredElsewhere(tab, tab', fs[g]);
    }
    forall h1, h2, e | Owns(fs', h1, e) && Owns(fs', h2, e) ensures h1 == h2 {
      assert Owns(fs, h1, e) && Owns(fs, h2, e);
    }
    forall e | 0 <= e < |tab'| && !tab'[e].kind.Free? ensures exists g :: Owns(fs', g, e) {
      var g :| Owns(fs, g, e);
      assert Owns(fs', g, e);
    }
  }
}
