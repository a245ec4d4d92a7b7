/** The first-fit heap of the kernel. */
module Heap {
  const BASE := 0x30000        // address of the first block
  const BLOCKS := 0x20         // blocks of the heap
  const BLOCK_SIZE := 0x2000   // bytes of a block

  /** Allocations by their address, with their length in blocks. */
  type Live = map<nat, nat>

  function Address(start: nat): nat { BASE + start * BLOCK_SIZE }

  ghost predicate Covers(live: Live, addr: nat, i: nat) {
    addr in live && exists start: nat :: addr == Address(start) && start <= i < start + live[addr]
  }

  /** The marks of the blocks describe exactly these allocations. */
  ghost predicate Agrees(used: seq<bool>, ptr: seq<nat>, live: Live) {
    && |used| == |ptr|
    && (forall addr :: addr in live ==> live[addr] > 0 && Placed(live, addr, |used|))
    && (forall i :: 0 <= i < |used| ==> if used[i] then Covers(live, ptr[i], i) else ptr[i] == 0)
    && (forall addr: nat, i: nat :: Covers(live, addr, i) ==> i < |used| && used[i] && ptr[i] == addr)
  }

  ghost predicate Placed(live: Live, addr: nat, count: nat) {
    addr in live && exists start: nat :: addr == Address(start) && start + live[addr] <= count
  }

  /** Blocks from `start` on, `n` of them, that are all free. */
  predicate FreeRun(used: seq<bool>, start: nat, n: nat) {
    start + n <= |used| && forall i :: start <= i < start + n ==> !used[i]
  }

  ghost predicate LowestRun(used: seq<bool>, start: nat, n: nat) {
    FreeRun(used, start, n) && forall t: nat :: t < start ==> !FreeRun(used, t, n)
  }

  function Needed(size: nat): nat { size / BLOCK_SIZE + if size % BLOCK_SIZE != 0 then 1 else 0 }

  lemma AddressOnce(s: nat, t: nat)
    ensures Address(s) == Address(t) <==> s == t
  {}

  /** No two allocations share a byte, and all lie within the heap. */
  lemma Disjoint(used: seq<bool>, ptr: seq<nat>, live: Live, p: nat, q: nat)
    requires Agrees(used, ptr, live) && p in live && q in live && p != q
    ensures p + live[p] * BLOCK_SIZE <= q || q + live[q] * BLOCK_SIZE <= p
    ensures BASE <= p && p + live[p] * BLOCK_SIZE <= BASE + |used| * BLOCK_SIZE
  {
    assert Placed(live, p, |used|) && Placed(live, q, |used|);
    var s: nat :| p == Address(s) && s + live[p] <= |used|;
    var t: nat :| q == Address(t) && t + live[q] <= |used|;
    var i := if s <= t then t else s;
    if i < s + live[p] && i < t + live[q] {
      assert Covers(live, p, i) && Covers(live, q, i);
    }
  }

  /** Whether a run is free is a matter of the allocations alone. */
  lemma FreeBlocks(used: seq<bool>, ptr: seq<nat>, live: Live, start: nat, n: nat)
    requires Agrees(used, ptr, live) && start + n <= |used|
    ensures FreeRun(used, start, n) <==> forall addr: nat, i: nat :: start <= i < start + n ==> !Covers(live, addr, i)
  {
    forall i: nat | i < |used| ensures used[i] <==> exists addr: nat :: Covers(live, addr, i) {
      if used[i] { assert Covers(live, ptr[i], i); }
    }
  }

  /** Some run of free blocks has room for this many bytes. */
  ghost predicate HasRun(used: seq<bool>, size: nat) {
    exists s: nat, n: nat :: size <= n * BLOCK_SIZE && FreeRun(used, s, n)
  }

  /** What was released can be taken again: an allocation no larger cannot fail next. */
  lemma Reusable(used: seq<bool>, ptr: seq<nat>, live: Live, used': seq<bool>, addr: nat, size: nat)
    requires Agrees(used, ptr, live) && addr in live && size <= live[addr] * BLOCK_SIZE && |used'| == |used|
    requires forall i :: 0 <= i < |used| ==> used'[i] == (used[i] && !Covers(live, addr, i))
    ensures HasRun(used', size)
  {
    assert Placed(live, addr, |used|);
    var s: nat :| addr == Address(s) && s + live[addr] <= |used|;
    forall i | s <= i < s + live[addr] ensures !used'[i] { assert Covers(live, addr, i); }
    assert FreeRun(used', s, live[addr]);
  }

  /** No fewer blocks hold that many bytes, so a run is long enough exactly when it has these. */
  lemma NeededLeast(used: seq<bool>, size: nat)
    ensures size <= Needed(size) * BLOCK_SIZE && (size > 0 ==> (Needed(size) - 1) * BLOCK_SIZE < size)
    ensures HasRun(used, size) <==> exists s: nat :: FreeRun(used, s, Needed(size))
  {
    if s: nat, n: nat :| size <= n * BLOCK_SIZE && FreeRun(used, s, n) {
      assert Needed(size) <= n;
      assert FreeRun(used, s, Needed(size));
    }
  }

  /** As long as nothing is allocated there is room for up to 256 kilobytes. */
  lemma EmptyHeap(used: seq<bool>, size: nat)
    requires |used| == BLOCKS && forall i :: 0 <= i < BLOCKS ==> !used[i]
    ensures HasRun(used, size) <==> size <= 0x40000
  {
    if size <= 0x40000 { assert FreeRun(used, 0, BLOCKS); }
  }

  class KernelHeap {
    const used: array<bool>
    const ptr: array<nat>
    ghost var live: Live

    ghost predicate Valid()
      reads this, used, ptr
    {
      used.Length == ptr.Length == BLOCKS && Agrees(used[..], ptr[..], live)
    }

    /** All blocks are unused. */
    constructor ()
      ensures Valid() && live == map[] && fresh(used) && fresh(ptr)
    {
      used := new bool[BLOCKS];
      ptr := new nat[BLOCKS];
      live := map[];
      new;
      var i := 0;
      while i < BLOCKS
        invariant 0 <= i <= BLOCKS && live == map[]
        invariant forall j :: 0 <= j < i ==> !used[j] && ptr[j] == 0
      {
        used[i] := false;
        ptr[i] := 0;
        i := i + 1;
      }
    }

    /** Takes the lowest run of free blocks that is long enough. */
    method Alloc(size: nat) returns (addr: nat)
      requires Valid()
      modifies this`live, used, ptr
      ensures Valid()
      ensures addr == 0 ==> live == old(live) && used[..] == old(used[..]) && ptr[..] == old(ptr[..])
      ensures addr == 0 <==> size == 0 || !HasRun(old(used[..]), size)
      ensures addr != 0 ==> addr in live && addr !in old(live) && live == old(live)[addr := live[addr]]
      ensures addr != 0 ==> (live[addr] - 1) * BLOCK_SIZE < size <= live[addr] * BLOCK_SIZE
      ensures addr != 0 ==> exists s: nat :: addr == Address(s) && LowestRun(old(used[..]), s, live[addr])
    {
      NeededLeast(used[..], size);
      if size == 0 { return 0; }
      var n := Needed(size);
      ghost var before, marks := used[..], ptr[..];
      var found, i := 0, 0;
      while i < BLOCKS
        invariant 0 <= i <= BLOCKS && 0 <= found <= i && found < n
        invariant used[..] == before && ptr[..] == marks && live == old(live)
        invariant forall j :: i - found <= j < i ==> !before[j]
        invariant i > found ==> before[i - found - 1]
        invariant forall t: nat :: t + n <= i ==> !FreeRun(before, t, n)
      {
        if used[i] {
          found := 0;
          assert forall t: nat :: t <= i < t + n ==> !FreeRun(before, t, n);
        } else {
          found := found + 1;
          if found >= n {
            var start := i + 1 - n;
            addr := Address(start);
            assert LowestRun(before, start, n);
            var j := start;
            while j <= i
              invariant start <= j <= i + 1 && live == old(live)
              invariant forall k :: 0 <= k < BLOCKS ==> used[k] == (before[k] || start <= k < j)
              invariant forall k :: 0 <= k < BLOCKS ==> ptr[k] == if start <= k < j then addr else marks[k]
            {
              ptr[j] := addr;
              used[j] := true;
              j := j + 1;
            }
            Allocated(before, marks, used[..], ptr[..], live, start, n);
            live := live[addr := n];
            return;
          }
        }
        i := i + 1;
      }
      return 0;
    }

    /** Releases one allocation; any other address is ignored. */
    method Free(addr: nat)
      requires Valid()
      modifies this`live, used, ptr
      ensures Valid() && live == old(live) - {addr}
      ensures forall i :: 0 <= i < BLOCKS ==> used[i] == (old(used[i]) && !Covers(old(live), addr, i))
    {
      ghost var before, marks := used[..], ptr[..];
      if addr != 0 {
        var i := 0;
        while i < BLOCKS
          invariant 0 <= i <= BLOCKS && live == old(live)
          invariant forall k :: 0 <= k < BLOCKS ==> used[k] == (before[k] && !(k < i && marks[k] == addr))
          invariant forall k :: 0 <= k < BLOCKS ==> ptr[k] == if k < i && marks[k] == addr then 0 else marks[k]
        {
          if ptr[i] == addr && used[i] {
            used[i] := false;
            ptr[i] := 0;
          }
          i := i + 1;
        }
      }
      Freed(before, marks, used[..], ptr[..], live, addr);
      live := live - {addr};
    }
  }

  lemma Allocated(used: seq<bool>, ptr: seq<nat>, used': seq<bool>, ptr': seq<nat>, live: Live, start: nat, n: nat)
    requires Agrees(used, ptr, live) && FreeRun(used, start, n) && n > 0 && |used'| == |ptr'| == |used|
    requires forall k :: 0 <= k < |used| ==> used'[k] == (used[k] || start <= k < start + n)
    requires forall k :: 0 <= k < |used| ==> ptr'[k] == if start <= k < start + n then Address(start) else ptr[k]
    ensures Address(start) !in live && Agrees(used', ptr', live[Address(start) := n])
  {
    var addr, live' := Address(start), live[Address(start) := n];
    assert addr in live ==> Covers(live, addr, start);
    forall a | a in live' ensures live'[a] > 0 && Placed(live', a, |used|) {
      if a != addr { assert Placed(live, a, |used|); }
    }
    forall i | 0 <= i < |used'| ensures if used'[i] then Covers(live', ptr'[i], i) else ptr'[i] == 0 {
      if !(start <= i < start + n) && used[i] { assert Covers(live, ptr[i], i); }
    }
    forall a: nat, i: nat | Covers(live', a, i) ensures i < |used'| && used'[i] && ptr'[i] == a {
      if a == addr {
        var s: nat :| a == Address(s) && s <= i < s + live'[a];
        AddressOnce(s, start);
      } else {
        assert Covers(live, a, i);
      }
    }
  }

  lemma Freed(used: seq<bool>, ptr: seq<nat>, used': seq<bool>, ptr': seq<nat>, live: Live, addr: nat)
    requires Agrees(used, ptr, live) && |used'| == |ptr'| == |used|
    requires forall k :: 0 <= k < |used| ==> used'[k] == (used[k] && (addr == 0 || ptr[k] != addr))
    requires forall k :: 0 <= k < |used| ==> ptr'[k] == if addr != 0 && ptr[k] == addr then 0 else ptr[k]
    ensures Agrees(used', ptr', live - {addr})
    ensures forall k :: 0 <= k < |used| ==> used'[k] == (used[k] && !Covers(live, addr, k))
  {
    var live' := live - {addr};
    forall a: nat, i: nat | a != addr ensures Covers(live', a, i) <==> Covers(live, a, i) {}
    forall i: nat ensures !Covers(live, 0, i) {}
    forall a | a in live' ensures live'[a] > 0 && Placed(live', a, |used|) { assert Placed(live, a, |used|); }
    forall i | 0 <= i < |used| ensures if used'[i] then Covers(live', ptr'[i], i) else ptr'[i] == 0 {
      if used[i] { assert Covers(live, ptr[i], i); }
    }
  }
}
