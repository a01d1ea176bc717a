/** The fixed-size block pool of src/core/pool_alloc.h. A free block holds the address of the
    next free block in its own bytes; a live block holds whatever its owner wrote there. */
module Pools {

  /** A block address, or the null pointer. */
  datatype Ptr = Null | Ref(block: nat)

  /** What the bytes of a block were last written as. */
  datatype Block<T> = Link(next: Ptr) | Data(value: T)

  /** The address in position i of a list of blocks; null past its end. */
  ghost function At(s: seq<nat>, i: int): Ptr {
    if 0 <= i < |s| then Ref(s[i]) else Null
  }

  ghost predicate NoDuplicates(s: seq<nat>) {
    forall i, j | 0 <= i < j < |s| :: s[i] != s[j]
  }

  /** `free` is the chain of free blocks that starts at `head`. */
  ghost predicate Chain<T>(mem: seq<Block<T>>, head: Ptr, free: seq<nat>) {
    && head == At(free, 0)
    && forall i | 0 <= i < |free| :: free[i] < |mem| && mem[free[i]] == Link(At(free, i + 1))
  }

  /** With every block below n either in a duplicate-free list or in a set, the sizes add up. */
  lemma {:induction false} PartitionSizes(free: seq<nat>, live: set<nat>, n: nat)
    requires NoDuplicates(free)
    requires forall b: nat :: (b in live || b in free) <==> b < n
    requires forall b: nat :: !(b in live && b in free)
    ensures |free| + |live| == n
    decreases |free| + |live|
  {
    if n == 0 {
      assert forall i | 0 <= i < |free| :: free[i] in free;
      assert forall b | b in live :: b in live || b in free;
    } else if n - 1 in live {
      PartitionSizes(free, live - {n - 1}, n - 1);
    } else {
      assert n - 1 in free;
      var k :| 0 <= k < |free| && free[k] == n - 1;
      var rest := free[..k] + free[k + 1..];
      forall b: nat
        ensures b in rest <==> b in free && b != n - 1
      {
        if b in free && b != n - 1 {
          var i :| 0 <= i < |free| && free[i] == b;
          assert rest[if i < k then i else i - 1] == b;
        }
        if b in rest {
          var i :| 0 <= i < |rest| && rest[i] == b;
          assert free[if i < k then i else i + 1] == b;
        }
      }
      PartitionSizes(rest, live, n - 1);
    }
  }

  class Pool<T> {
    const capacity: nat
    const blocks: array<Block<T>>
    var freeHead: Ptr
    ghost var free: seq<nat>
    ghost var live: set<nat>

    /** The free list is acyclic, and free and live blocks partition the capacity. */
    ghost predicate Valid()
      reads this, blocks
    {
      && capacity > 0 && blocks.Length == capacity
      && Chain(blocks[..], freeHead, free) && NoDuplicates(free)
      && (forall b: nat :: b in live <==> b < capacity && b !in free)
    }

    lemma Partition()
      requires Valid()
      ensures |free| + |live| == capacity
      ensures freeHead == Null <==> |live| == capacity
    {
      forall b: nat
        ensures (b in live || b in free) <==> b < capacity
      {
        if b in free {
          var i :| 0 <= i < |free| && free[i] == b;
        }
      }
      PartitionSizes(free, live, capacity);
    }

    constructor (capacity: nat)
      requires capacity > 0
      ensures Valid() && fresh(blocks) && live == {} && this.capacity == capacity
    {
      this.capacity := capacity;
      this.blocks := new Block<T>[capacity](_ => Link(Null));
      this.freeHead := Ref(0);
      this.free := seq(capacity, i => i);
      this.live := {};
      new;
      for i := 0 to capacity - 1
        invariant fresh(blocks) && blocks.Length == capacity && freeHead == Ref(0) && live == {}
        invariant free == seq(capacity, i => i)
        invariant forall j | 0 <= j < i :: blocks[j] == Link(Ref(j + 1))
      {
        blocks[i] := Link(Ref(i + 1));
      }
      blocks[capacity - 1] := Link(Null);
      forall b: nat | b < capacity
        ensures b in free
      {
        assert free[b] == b;
      }
    }

    /** Hands out a block that is not live; null exactly when all blocks are live. */
    method Allocate() returns (p: Ptr)
      requires Valid()
      modifies this
      ensures Valid()
      ensures p == Null <==> |old(live)| == capacity
      ensures p == Null ==> live == old(live)
      ensures p.Ref? ==> p.block < capacity && p.block !in old(live) && live == old(live) + {p.block}
    {
      Partition();
      if freeHead == Null {
        return Null;
      }
      p := freeHead;
      freeHead := blocks[freeHead.block].next;
      assert free == [p.block] + free[1..];
      free := free[1..];
      live := live + {p.block};
    }

    /** The owner of a live block writes into it. */
    method Write(b: nat, value: T)
      requires Valid() && b in live
      modifies blocks
      ensures Valid() && b < capacity && blocks[..] == old(blocks[..])[b := Data(value)]
    {
      blocks[b] := Data(value);
      assert blocks[..] == old(blocks[..])[b := Data(value)];
    }

    /** Takes a live block back. */
    method Deallocate(b: nat)
      requires Valid() && b in live
      modifies this, blocks
      ensures Valid() && live == old(live) - {b}
      ensures b < capacity && blocks[..] == old(blocks[..])[b := Link(old(freeHead))]
    {
      blocks[b] := Link(freeHead);
      assert blocks[..] == old(blocks[..])[b := Link(old(freeHead))];
      freeHead := Ref(b);
      free := [b] + free;
      live := live - {b};
    }

    /** Reports full exactly when every block is live. */
    method Full() returns (r: bool)
      requires Valid()
      ensures r <==> |live| == capacity
    {
      Partition();
      r := freeHead == Null;
    }
  }
}
