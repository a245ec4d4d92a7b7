/** On-disk entries of the NSFS file system and the sizes derived from them. */
module Entries {

  const REFS := 120          // references held by one entry
  const BLOCK := 512         // bytes in a block; an entry fills exactly one block
  const CAPACITY := 61440    // bytes addressed by one entry: REFS * BLOCK
  const NAME_MAX := 14       // longest name, without its final zero

  type Byte = x: int | 0 <= x < 256
  type Block = s: seq<Byte> | |s| == BLOCK witness seq(BLOCK, _ => 0)

  /** The type bits of an entry's flags; an entry with neither bit is free. */
  datatype Kind = Free | File | Dir

  type Refs = s: seq<nat> | |s| == REFS witness seq(REFS, _ => 0)

  datatype Entry = Entry(kind: Kind, name: string, time: nat, size: nat, parent: nat, next: nat, refs: Refs)

  function NoRefs(): Refs { seq(REFS, _ => 0) }

  function ZeroEntry(): Entry { Entry(Free, "", 0, 0, 0, 0, NoRefs()) }

  datatype Error = NotFound | Exists | NoSpace | Io

  datatype Result<+T> = Ok(value: T) | Err(error: Error)

  function Min(a: int, b: int): int { if a <= b then a else b }

  /** Blocks that hold `size` bytes. */
  function NeededBlocks(size: nat): nat {
    size / BLOCK + if size % BLOCK != 0 then 1 else 0
  }

  /** References used by a file or directory of the given size. */
  function RefCount(kind: Kind, size: nat): nat {
    match kind
    case File => NeededBlocks(size)
    case Dir => size
    case Free => 0
  }

  /** How much of a size one entry of a chain accounts for. */
  function EntryShare(kind: Kind): nat {
    if kind.File? then CAPACITY else REFS
  }

  /** Entries a chain needs for `count` references: an empty one still has its head. */
  function ChainLen(count: nat): (len: nat)
    ensures 1 <= len
    ensures count <= REFS * len
    ensures len > 1 ==> REFS * (len - 1) < count
  {
    if count <= REFS then 1 else (count + 119) / REFS
  }

  /** The size recorded in the k-th entry of a chain: what is left from there on. */
  function SizeFrom(kind: Kind, size: nat, k: nat): nat {
    if size <= k * EntryShare(kind) then 0 else size - k * EntryShare(kind)
  }

  predicate NoDup<T(==)>(s: seq<T>) {
    forall i, j :: 0 <= i < j < |s| ==> s[i] != s[j]
  }

  function Elems(s: seq<nat>): set<nat> { set x | x in s }

  lemma {:induction false} ElemsCount(s: seq<nat>)
    requires NoDup(s)
    ensures |Elems(s)| == |s|
  {
    if s != [] {
      ElemsCount(s[1..]);
      assert s == [s[0]] + s[1..];
      assert Elems(s) == {s[0]} + Elems(s[1..]);
    }
  }

  lemma ElemsMore(s: seq<nat>, x: nat)
    ensures |Elems(s + [x])| == |Elems(s)| + if x in s then 0 else 1
  {
    assert Elems(s + [x]) == Elems(s) + {x};
  }

  /** Reference number `n` is the i-th one of the k-th entry of its chain. */
  lemma InEntry(n: nat, k: nat, i: nat)
    requires n == REFS * k + i && i < REFS
    ensures n / REFS == k && n % REFS == i
  {}

  /** `s` without the first occurrence of `x`. */
  function Without(s: seq<nat>, x: nat): seq<nat> {
    if s == [] then [] else if s[0] == x then s[1..] else [s[0]] + Without(s[1..], x)
  }

  lemma {:induction false} WithoutAt(s: seq<nat>, x: nat, q: nat)
    requires q < |s| && s[q] == x && x !in s[..q]
    ensures Without(s, x) == s[..q] + s[q+1..]
  {
    if q > 0 {
      assert s[0] in s[..q];
      assert s[1..][..q-1] == s[..q][1..];
      WithoutAt(s[1..], x, q - 1);
      assert [s[0]] + s[1..][..q-1] == s[..q];
    }
  }

  lemma {:induction false} WithoutNone(s: seq<nat>, x: nat)
    requires x !in s
    ensures Without(s, x) == s
  {
    if s != [] { WithoutNone(s[1..], x); }
  }

  lemma WithoutKeeps(s: seq<nat>, x: nat, y: nat)
    requires y in s && y != x
    ensures y in Without(s, x)
  {}

  lemma {:induction false} WithoutMembers(s: seq<nat>, x: nat)
    requires NoDup(s) && x in s
    ensures NoDup(Without(s, x)) && |Without(s, x)| == |s| - 1
    ensures forall y :: y in Without(s, x) <==> y in s && y != x
  {
    var q :| 0 <= q < |s| && s[q] == x;
    WithoutAt(s, x, q);
  }

  lemma {:induction false} WithoutCount(s: seq<nat>, x: nat)
    requires x in s
    ensures multiset(s) == multiset(Without(s, x)) + multiset{x}
  {
    assert s == [s[0]] + s[1..];
    if s[0] != x { WithoutCount(s[1..], x); }
  }

  lemma {:induction false} NoDupCount(s: seq<nat>, x: nat)
    requires NoDup(s) && x in s
    ensures multiset(s)[x] == 1
  {
    var q :| 0 <= q < |s| && s[q] == x;
    assert s == s[..q] + [x] + s[q+1..];
    assert x !in s[..q] && x !in s[q+1..];
  }
}
