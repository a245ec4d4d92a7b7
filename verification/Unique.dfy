/** A table stores at most one well-formed file system. */
module Unique {
  import opened Entries
  import opened Layout
  import opened Trees
  import opened Tables
  import opened Directories
  import opened Files

  /** A chained entry of one reading of the table is not the head of an item in another: the entry
      before it would be a directory with a second entry. */
  lemma HeadStays(tab: Table, fs: FS, fs': FS, e: nat)
    requires Represents(tab, fs) && Represents(tab, fs') && ParentsExist(fs) && DirsOk(fs) && e in fs
    ensures e in fs'
  {
    hide DirsOk, ParentsExist, Stored;
    HeadStored(tab, fs, e);
    var h :| Owns(fs', h, e);
    HeadStored(tab, fs', h);
    var k :| 0 <= k < |fs'[h].chain| && fs'[h].chain[k] == e;
    LinkAt(tab, fs'[h], k);
    if k > 0 {
      hide Represents, Linked;
      LinkAt(tab, fs'[h], k - 1);
      var p := fs[e].parent;
      assert p == fs'[h].chain[k-1];
      assert p in fs && fs[p].kind.Dir? by { ParentOf(fs, e); }
      DirStored(tab, fs, p);
      HeadStored(tab, fs, p);
      assert false;
    }
  }

  lemma ParentOf(fs: FS, h: nat)
    requires ParentsExist(fs) && h in fs
    ensures fs[h].parent in fs && fs[fs[h].parent].kind.Dir?
  {}

  lemma {:induction false} SameChain(tab: Table, m: Node, m': Node, k: nat)
    requires Stored(tab, m) && Stored(tab, m') && m.chain[0] == m'.chain[0]
    requires k < |m.chain| && k < |m'.chain|
    ensures m.chain[k] == m'.chain[k]
  {
    hide Stored;
    HeadOf(tab, m);
    HeadOf(tab, m');
    if k > 0 {
      SameChain(tab, m, m', k - 1);
      LinkAt(tab, m, k - 1);
      LinkAt(tab, m', k - 1);
    }
  }

  /** The entries determine everything about the item whose head they contain. */
  lemma SameNode(tab: Table, m: Node, m': Node)
    requires Stored(tab, m) && Stored(tab, m') && m.chain[0] == m'.chain[0]
    ensures m == m'
  {
    HeadOf(tab, m);
    HeadOf(tab, m');
    hide Stored, Linked;
    forall k | 0 <= k < |m.chain| ensures m.chain[k] == m'.chain[k] { SameChain(tab, m, m', k); }
    assert m.chain == m'.chain;
    forall j | 0 <= j < |m.refs| ensures m.refs[j] == m'.refs[j] {
      RefAt(tab, m, j);
      RefAt(tab, m', j);
    }
    assert m.refs == m'.refs;
  }

  /** What a table stores is a matter of the table alone. */
  lemma OneReading(tab: Table, fs: FS, fs': FS)
    requires Represents(tab, fs) && Represents(tab, fs') && TreeOk(fs, {}) && TreeOk(fs', {})
    ensures fs == fs'
  {
    hide DirsOk, ParentsExist, Listed, NamesOk, Acyclic, Stored, Represents;
    forall h: nat ensures h in fs <==> h in fs' {
      if h in fs { HeadStays(tab, fs, fs', h); }
      if h in fs' { HeadStays(tab, fs', fs, h); }
    }
    forall h | h in fs ensures fs[h] == fs'[h] {
      HeadStored(tab, fs, h);
      HeadStored(tab, fs', h);
      SameNode(tab, fs[h], fs'[h]);
    }
  }
}
