/** Copying bytes within memory. */
module Memory {
  import opened Entries
  import opened Writing

  /** Copies `n` bytes, from the end when they move up, so that the ranges may overlap. */
  method Memcpy(mem: array<Byte>, dst: nat, src: nat, n: nat)
    requires dst + n <= mem.Length && src + n <= mem.Length
    modifies mem
    ensures mem[..] == Overwritten(old(mem[..]), dst, old(mem[src..src + n]))
    ensures forall k :: 0 <= k < mem.Length ==>
      mem[k] == if dst <= k < dst + n then old(mem[src + (k - dst)]) else old(mem[k])
  {
    hide Overwritten;
    ghost var before := mem[..];
    var backwards := src <= dst;
    var i := 0;
    while i < n
      invariant 0 <= i <= n && |before| == mem.Length
      invariant forall k :: 0 <= k < mem.Length && !Copied(k, dst, n, i, backwards) ==> mem[k] == before[k]
      invariant forall k :: 0 <= k < mem.Length && Copied(k, dst, n, i, backwards) ==> mem[k] == before[src + (k - dst)]
    {
      var c := if backwards then n - (i + 1) else i;
      assert !Copied(src + c, dst, n, i, backwards);
      mem[dst + c] := mem[src + c];
      i := i + 1;
    }
    assert old(mem[src..src + n]) == before[src..src + n];
    AllCopied(before, mem[..], dst, src, n, backwards);
    OverwrittenIs(before, dst, before[src..src + n]);
  }

  lemma AllCopied(before: seq<Byte>, after: seq<Byte>, dst: nat, src: nat, n: nat, backwards: bool)
    requires dst + n <= |before| == |after| && src + n <= |before|
    requires forall k :: 0 <= k < |before| && !Copied(k, dst, n, n, backwards) ==> after[k] == before[k]
    requires forall k :: 0 <= k < |before| && Copied(k, dst, n, n, backwards) ==> after[k] == before[src + (k - dst)]
    ensures after == Overwritten(before, dst, before[src..src + n])
  {
    forall k | 0 <= k < |before| ensures after[k] == Overwritten(before, dst, before[src..src + n])[k] {
      assert Copied(k, dst, n, n, backwards) <==> dst <= k < dst + n;
    }
  }

  /** Place `k` has been written after `i` bytes. */
  predicate Copied(k: int, dst: nat, n: nat, i: nat, backwards: bool) {
    dst <= k < dst + n && if backwards then k - dst >= n - i else k - dst < i
  }
}
