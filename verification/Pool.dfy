/** The object pool of src/core/pool.h.  Objects are addressed by natural numbers; the system allocator hands
    out consecutive unused addresses. */
module Pool {

  type Address = nat

  const BLOCK_SIZE: nat := 64

  /** Address 0 is not part of any block. */
  function BlockBase(b: nat): (a: Address)
    ensures a >= 1
  {
    1 + BLOCK_SIZE * b
  }

  /** An address inside the first `n` blocks. */
  ghost predicate IsSlot(n: nat, a: Address) { 1 <= a < BlockBase(n) }

  ghost predicate Distinct(s: seq<Address>) {
    forall i, j | 0 <= i < j < |s| :: s[i] != s[j]
  }

  class Pool {
    var blocks: seq<Address>
    var available: seq<Address>
    /** The slots handed out by `Create` and not yet recycled. */
    ghost var live: set<Address>

    /** Every slot of every block is either available, once, or live. */
    ghost predicate Valid()
      reads this
    {
      && (forall b | 0 <= b < |blocks| :: blocks[b] == BlockBase(b))
      && Distinct(available)
      && (forall a | a in available :: a !in live && IsSlot(|blocks|, a))
      && (forall a | a in live :: IsSlot(|blocks|, a))
      && (forall a: Address | IsSlot(|blocks|, a) :: a in available || a in live)
      && |available| + |live| == BLOCK_SIZE * |blocks|
    }

    constructor ()
      ensures Valid() && live == {} && available == []
    {
      blocks, available, live := [], [], {};
    }

    /** Adds one block of slots, so that the first slot of the block is handed out first. */
    method Enlarge()
      requires Valid() && available == []
      modifies this
      ensures Valid() && live == old(live)
      ensures blocks == old(blocks) + [BlockBase(|old(blocks)|)]
      ensures |available| == BLOCK_SIZE
      ensures forall i | 0 <= i < BLOCK_SIZE :: available[i] == BlockBase(|old(blocks)|) + BLOCK_SIZE - 1 - i
    {
      var base := BlockBase(|blocks|);
      blocks := blocks + [base];
      var p := base + BLOCK_SIZE;
      for i := 0 to BLOCK_SIZE
        invariant p == base + BLOCK_SIZE - i && |available| == i
        invariant live == old(live) && blocks == old(blocks) + [base]
        invariant forall j | 0 <= j < i :: available[j] == base + BLOCK_SIZE - 1 - j
      {
        p := p - 1;
        available := available + [p];
      }
      forall a: Address | IsSlot(|blocks|, a) ensures a in available || a in live {
        if a >= base {
          assert available[base + BLOCK_SIZE - 1 - a] == a;
        } else {
          assert IsSlot(|old(blocks)|, a);
        }
      }
      assert forall a | a in live :: IsSlot(|old(blocks)|, a);
    }

    method Create() returns (a: Address)
      requires Valid()
      modifies this
      ensures Valid() && a !in old(live) && live == old(live) + {a} && a >= 1
      ensures old(available) != [] ==> old(available) == available + [a]
      ensures old(available) == [] ==> a == BlockBase(|old(blocks)|) && |available| == BLOCK_SIZE - 1
    {
      if |available| == 0 {
        Enlarge();
      }
      ghost var before := available;
      a := available[|available| - 1];
      assert a in available && IsSlot(|blocks|, a);
      available := available[..|available| - 1];
      assert before == available + [a];
      live := live + {a};
      assert forall x: Address | IsSlot(|blocks|, x) :: x in before || x in live;
    }

    method Recycle(a: Address)
      requires Valid() && a in live
      modifies this
      ensures Valid() && live == old(live) - {a} && available == old(available) + [a] && blocks == old(blocks)
    {
      available := available + [a];
      live := live - {a};
    }

    /** The leak test of the destructor: objects are missing exactly when some are still live. */
    method Leaks() returns (leak: bool)
      requires Valid()
      ensures leak <==> live != {}
    {
      leak := |blocks| != 0 && |available| != |blocks| * BLOCK_SIZE;
      assert forall a | a in live :: IsSlot(|blocks|, a);
    }
  }
}
