/** The first-fit allocator of src/core/first_fit.cpp: a sorted, coalescing linked free list whose nodes come
    from an object pool.  Pointers are addresses into a store of nodes. */
module FirstFit {
  import opened Integers
  import opened Words
  import opened Blocks
  import opened Pool

  datatype Link = Null | To(to: Address)

  datatype Node = Node(next: Link, offset: nat, size: nat) {
    function Extent(): Block { Block(offset, offset + size) }
  }

  type Store = map<Address, Node>

  /** The address of the list head embedded in the allocator. */
  const HEAD: Address := 0

  function LinkAt(ns: seq<Address>, k: nat): Link { if k < |ns| then To(ns[k]) else Null }

  /** The node whose link leads to position `i`. */
  function Before(ns: seq<Address>, i: nat): Address
    requires i <= |ns|
  {
    if i == 0 then HEAD else ns[i - 1]
  }

  predicate OnChain(ns: seq<Address>, a: Address) { a == HEAD || a in ns }

  /** From the head the links visit exactly the nodes `ns`, in order. */
  ghost predicate Chain(st: Store, ns: seq<Address>) {
    && Distinct(ns) && HEAD !in ns && HEAD in st
    && (forall i | 0 <= i < |ns| :: ns[i] in st)
    && (forall i | 0 <= i <= |ns| :: st[Before(ns, i)].next == LinkAt(ns, i))
  }

  function BlocksOf(st: Store, ns: seq<Address>): (bs: seq<Block>)
    requires forall a | a in ns :: a in st
    ensures |bs| == |ns| && forall i | 0 <= i < |ns| :: bs[i] == st[ns[i]].Extent()
  {
    seq(|ns|, i requires 0 <= i < |ns| => st[ns[i]].Extent())
  }

  ghost predicate SameExtents(st: Store, st': Store) {
    forall a | a in st :: a in st' && st'[a].Extent() == st[a].Extent()
  }

  lemma BlocksInserted(st: Store, ns: seq<Address>, i: nat, a: Address, st': Store)
    requires (forall x | x in ns :: x in st) && a in st && i <= |ns| && SameExtents(st, st')
    ensures forall x | x in ns[..i] + [a] + ns[i..] :: x in st'
    ensures BlocksOf(st', ns[..i] + [a] + ns[i..]) == Splice(BlocksOf(st, ns), i, i, st[a].Extent())
  {
  }

  lemma BlocksRemoved(st: Store, ns: seq<Address>, i: nat, st': Store)
    requires (forall x | x in ns :: x in st) && i < |ns| && SameExtents(st, st')
    ensures forall x | x in ns[..i] + ns[i + 1..] :: x in st'
    ensures BlocksOf(st', ns[..i] + ns[i + 1..]) == BlocksOf(st, ns)[..i] + BlocksOf(st, ns)[i + 1..]
  {
  }

  ghost function Addresses(ns: seq<Address>): set<Address> { set a | a in ns }

  /** List nodes and outstanding nodes are disjoint and live; outstanding nodes stand for their blocks. */
  ghost predicate Members(st: Store, ns: seq<Address>, out: map<Address, Block>, live: set<Address>) {
    && (forall a | a in ns :: a in live && a !in out)
    && (forall a | a in out :: a in live && a in st && a != HEAD && out[a] == st[a].Extent())
  }

  lemma MembersInserted(
      st: Store, ns: seq<Address>, i: nat, a: Address, out: map<Address, Block>, live: set<Address>, st': Store)
    requires Members(st, ns, out, live) && a in out && i <= |ns| && SameExtents(st, st')
    ensures Members(st', ns[..i] + [a] + ns[i..], out - {a}, live)
    ensures Addresses(ns[..i] + [a] + ns[i..]) + (out - {a}).Keys == Addresses(ns) + out.Keys
  {
    var r := ns[..i] + [a] + ns[i..];
    assert forall x :: x in r <==> x in ns || x == a;
  }

  lemma MembersRemoved(st: Store, ns: seq<Address>, i: nat, out: map<Address, Block>, live: set<Address>, st': Store)
    requires Members(st, ns, out, live) && Distinct(ns) && i < |ns| && SameExtents(st, st')
    ensures Members(st', ns[..i] + ns[i + 1..], out, live)
    ensures ns[i] !in ns[..i] + ns[i + 1..] && ns[i] !in out
    ensures Addresses(ns[..i] + ns[i + 1..]) == Addresses(ns) - {ns[i]}
  {
    var r := ns[..i] + ns[i + 1..];
    forall x ensures x in r <==> x in ns && x != ns[i] {
      if x in ns && x != ns[i] {
        var j :| 0 <= j < |ns| && ns[j] == x;
        assert x == r[if j < i then j else j - 1];
      }
    }
  }

  lemma EmptyAddresses(ns: seq<Address>, i: nat)
    requires i <= |ns|
    ensures Addresses(ns[i..i]) == {}
  {
  }

  lemma NextOnChain(st: Store, ns: seq<Address>, i: nat, j: nat)
    requires Chain(st, ns) && i <= j < |ns|
    ensures ns[j] in st && st[ns[j]].next == LinkAt(ns, j + 1)
    ensures ns[j] !in Addresses(ns[i..j]) && Addresses(ns[i..j + 1]) == Addresses(ns[i..j]) + {ns[j]}
  {
    assert Before(ns, j + 1) == ns[j];
    assert ns[i..j + 1] == ns[i..j] + [ns[j]];
  }

  lemma UnlinkedOwned(ns: seq<Address>, i: nat, out: map<Address, Block>)
    requires i < |ns| && Distinct(ns)
    ensures Addresses(ns[..i] + ns[i + 1..]) + (out.Keys + {ns[i]}) == Addresses(ns) + out.Keys
  {
    var r := ns[..i] + ns[i + 1..];
    forall x | x in ns && x != ns[i] ensures x in r {
      var j :| 0 <= j < |ns| && ns[j] == x;
      assert x == r[if j < i then j else j - 1];
    }
  }

  /** The store after `a` has been linked in at position `i`. */
  function LinkedIn(st: Store, p: Address, a: Address): Store
    requires p in st && a in st && p != a
  {
    st[a := st[a].(next := st[p].next)][p := st[p].(next := To(a))]
  }

  lemma LinkedInFacts(st: Store, ns: seq<Address>, i: nat, a: Address, out: map<Address, Block>, live: set<Address>)
    requires Chain(st, ns) && Members(st, ns, out, live) && i <= |ns| && a in out
    ensures Before(ns, i) in st && Before(ns, i) != a && a !in ns
    ensures var st' := LinkedIn(st, Before(ns, i), a);
            && Chain(st', ns[..i] + [a] + ns[i..])
            && Members(st', ns[..i] + [a] + ns[i..], out - {a}, live)
            && SameExtents(st, st') && st'[HEAD].size == st[HEAD].size
  {
    assert i > 0 ==> ns[i - 1] in ns;
    assert st[Before(ns, i)].next == LinkAt(ns, i);
    var st' := LinkedIn(st, Before(ns, i), a);
    ChainInsert(st, ns, i, a, st');
    MembersInserted(st, ns, i, a, out, live, st');
  }

  /** Setting the link into position `i` and the link of `a` puts `a` there. */
  lemma ChainInsert(st: Store, ns: seq<Address>, i: nat, a: Address, st': Store)
    requires Chain(st, ns) && i <= |ns| && a !in ns && a != HEAD && a in st'
    requires forall x | OnChain(ns, x) :: x in st' && (x != Before(ns, i) ==> st'[x].next == st[x].next)
    requires Before(ns, i) in st' && st'[Before(ns, i)].next == To(a) && st'[a].next == LinkAt(ns, i)
    ensures Chain(st', ns[..i] + [a] + ns[i..])
  {
    var r := ns[..i] + [a] + ns[i..];
    forall j | 0 <= j <= |r| ensures st'[Before(r, j)].next == LinkAt(r, j) {
      if j <= i {
        assert Before(r, j) == Before(ns, j);
      } else if j > i + 1 {
        assert Before(r, j) == Before(ns, j - 1);
      }
    }
  }

  lemma ChainRemove(st: Store, ns: seq<Address>, i: nat, st': Store)
    requires Chain(st, ns) && i < |ns|
    requires forall x | OnChain(ns, x) :: x in st' && (x != Before(ns, i) ==> st'[x].next == st[x].next)
    requires Before(ns, i) in st' && st'[Before(ns, i)].next == LinkAt(ns, i + 1)
    ensures Chain(st', ns[..i] + ns[i + 1..])
  {
    var r := ns[..i] + ns[i + 1..];
    forall j | 0 <= j <= |r| ensures st'[Before(r, j)].next == LinkAt(r, j) {
      if j <= i {
        assert Before(r, j) == Before(ns, j);
      } else {
        assert Before(r, j) == Before(ns, j + 1);
      }
    }
  }

  /** Changing extents but no link leaves the chain alone. */
  lemma ChainKept(st: Store, ns: seq<Address>, st': Store)
    requires Chain(st, ns) && forall x | OnChain(ns, x) :: x in st' && st'[x].next == st[x].next
    ensures Chain(st', ns)
  {
  }

  // ---------------------------------------------------------------- alignment of blocks

  /** Block starts are multiples of the alignment; so are block ends, except the end of the whole range. */
  ghost predicate AlignedBlock(b: Block, alignment: nat, total: nat) {
    IsMultiple(b.lo, alignment) && (IsMultiple(b.hi, alignment) || b.hi == total)
  }

  ghost predicate AllAligned(bs: seq<Block>, out: map<Address, Block>, alignment: nat, total: nat) {
    && (forall i | 0 <= i < |bs| :: AlignedBlock(bs[i], alignment, total))
    && (forall n | n in out :: AlignedBlock(out[n], alignment, total))
  }

  ghost predicate SoundBlocks(bs: seq<Block>, out: map<Address, Block>, alignment: nat, total: nat) {
    Partition(bs, out, total) && AllAligned(bs, out, alignment, total)
  }

  /** What a request of `aligned` bytes receives from a block: itself, or the whole block if nothing would remain. */
  function Grant(b: Block, aligned: nat): (g: nat)
    requires b.lo <= b.hi
    ensures g <= b.hi - b.lo && g <= aligned
  {
    if b.hi - b.lo > aligned then aligned else b.hi - b.lo
  }

  lemma TakenAligned(
      bs: seq<Block>, out: map<Address, Block>, n: Address, k: nat, request: nat, alignment: nat, total: nat)
    requires AllAligned(bs, out, alignment, total) && k < |bs| && IsMultiple(request, alignment)
    requires bs[k].lo <= bs[k].hi
    ensures var grant := Grant(bs[k], request);
            AllAligned(Taken(bs, k, grant), out[n := Block(bs[k].lo, bs[k].lo + grant)], alignment, total)
  {
    assert AlignedBlock(bs[k], alignment, total);
    MultipleSum(bs[k].lo, request, alignment);
    var t := Taken(bs, k, Grant(bs[k], request));
    forall i | 0 <= i < |t| ensures AlignedBlock(t[i], alignment, total) {
      assert AlignedBlock(bs[i], alignment, total);
      assert i + 1 < |bs| ==> AlignedBlock(bs[i + 1], alignment, total);
    }
  }

  lemma GrantIsSound(
      bs: seq<Block>, out: map<Address, Block>, k: nat, size: nat, n: Address, alignment: nat, total: nat)
    requires SoundBlocks(bs, out, alignment, total) && n !in out && k < |bs|
    requires 1 <= alignment < WORD && IsPow2(alignment) && 0 < size <= WORD - alignment
    ensures bs[k].lo < bs[k].hi
    ensures var grant := Grant(bs[k], AlignedSize(size, alignment));
            SoundBlocks(Taken(bs, k, grant), out[n := Block(bs[k].lo, bs[k].lo + grant)], alignment, total)
  {
    AlignedSizeCovers(size, alignment);
    hide AlignedSize, IsPow2, AllAligned;
    var request := AlignedSize(size, alignment);
    assert bs[k].lo < bs[k].hi && Grant(bs[k], request) > 0;
    hide Partition, Taken, Grant;
    TakenAligned(bs, out, n, k, request, alignment, total);
    GrantKeepsPartition(bs, out, total, k, Grant(bs[k], request), n);
  }

  /** Any other grant is empty, and no empty block is part of a partition. */
  lemma GrantIsSoundIff(
      bs: seq<Block>, out: map<Address, Block>, k: nat, size: nat, n: Address, alignment: nat, total: nat)
    requires SoundBlocks(bs, out, alignment, total) && n !in out && k < |bs|
    requires 1 <= alignment < WORD && IsPow2(alignment) && size < WORD && bs[k].hi - bs[k].lo > size
    ensures bs[k].lo < bs[k].hi
    ensures var grant := Grant(bs[k], AlignedSize(size, alignment));
            SoundBlocks(Taken(bs, k, grant), out[n := Block(bs[k].lo, bs[k].lo + grant)], alignment, total)
            <==> 0 < size <= WORD - alignment
  {
    GrantCoversRequest(bs[k], size, alignment);
    hide AlignedSize, IsPow2, AllAligned, Taken;
    if 0 < size <= WORD - alignment {
      GrantIsSound(bs, out, k, size, n, alignment, total);
    } else {
      var out' := out[n := Block(bs[k].lo, bs[k].lo + Grant(bs[k], AlignedSize(size, alignment)))];
      assert n in out' && !(out'[n].lo < out'[n].hi);
    }
  }

  /** `after` is `bs` with `b` given back: alone, or merged with the neighbours it touches. */
  ghost predicate Released(bs: seq<Block>, b: Block, after: seq<Block>) {
    exists k, m, blk :: 0 <= k <= m <= |bs| && ReleasedAs(bs, b, after, k, m, blk)
  }

  ghost predicate ReleasedAs(bs: seq<Block>, b: Block, after: seq<Block>, k: nat, m: nat, blk: Block)
    requires k <= m <= |bs|
  {
    && after == Splice(bs, k, m, blk) && Merges(bs, b, k, m, blk)
    && (blk.lo == b.lo || (k < m && blk.lo == bs[k].lo))
    && (blk.hi == b.hi || (k < m && blk.hi == bs[m - 1].hi))
  }

  lemma ReleaseIsSound(
      bs: seq<Block>, out: map<Address, Block>, n: Address, after: seq<Block>, alignment: nat, total: nat)
    requires SoundBlocks(bs, out, alignment, total) && n in out && Released(bs, out[n], after)
    ensures SoundBlocks(after, out - {n}, alignment, total)
  {
    var b := out[n];
    var k, m, blk :| 0 <= k <= m <= |bs| && ReleasedAs(bs, b, after, k, m, blk);
    assert blk.Has(b.lo) by { assert b.Has(b.lo); }
    SpliceCanonical(bs, k, m, blk);
    SpliceCovers(bs, b, k, m, blk);
    hide AllAligned;
    ReleaseKeepsPartition(bs, after, out, total, n);
    hide Partition, Merges;
    ReleasedAligned(bs, out, n, after, k, m, blk, alignment, total);
  }

  lemma ReleasedAligned(
      bs: seq<Block>, out: map<Address, Block>, n: Address, after: seq<Block>, k: nat, m: nat, blk: Block,
      alignment: nat, total: nat)
    requires n in out && AllAligned(bs, out, alignment, total)
    requires k <= m <= |bs| && ReleasedAs(bs, out[n], after, k, m, blk)
    ensures AllAligned(after, out - {n}, alignment, total)
  {
    assert AlignedBlock(out[n], alignment, total);
    assert k < m ==> AlignedBlock(bs[k], alignment, total) && AlignedBlock(bs[m - 1], alignment, total);
    assert AlignedBlock(blk, alignment, total);
  }

  lemma WholeIsSound(total: nat, alignment: nat)
    requires total > 0
    ensures SoundBlocks([Block(0, total)], map[], alignment, total)
  {
    var bs := [Block(0, total)];
    forall x: nat ensures x < total <==> Covers(bs, x) {
      if x < total {
        assert bs[0].Has(x);
      }
    }
    assert 0 == 0 * alignment;
  }

  /** Everything before position `s` ends at or below `b`; everything from there on starts at or above it. */
  ghost predicate BelongsAt(bs: seq<Block>, b: Block, s: nat) {
    && s <= |bs|
    && (s > 0 ==> bs[s - 1].hi <= b.lo)
    && (s < |bs| ==> b.hi <= bs[s].lo)
  }

  predicate TouchesPrevious(bs: seq<Block>, b: Block, s: nat)
    requires s <= |bs|
  {
    s > 0 && bs[s - 1].hi == b.lo
  }

  predicate TouchesNext(bs: seq<Block>, b: Block, s: nat)
    requires s <= |bs|
  {
    s < |bs| && b.hi == bs[s].lo
  }

  /** The list after `b` is put at position `s`. */
  function Placed(bs: seq<Block>, b: Block, s: nat): seq<Block>
    requires s <= |bs|
  {
    var k := if TouchesPrevious(bs, b, s) then s - 1 else s;
    var m := if TouchesNext(bs, b, s) then s + 1 else s;
    Splice(bs, k, m, Block(if k < s then bs[k].lo else b.lo, if m > s then bs[s].hi else b.hi))
  }

  /** The four ways of placing a block. */
  lemma PlacedForms(bs: seq<Block>, b: Block, s: nat)
    requires s <= |bs|
    ensures !TouchesPrevious(bs, b, s) && !TouchesNext(bs, b, s) ==> Placed(bs, b, s) == Splice(bs, s, s, b)
    ensures !TouchesPrevious(bs, b, s) && TouchesNext(bs, b, s) ==> Placed(bs, b, s) == bs[s := Block(b.lo, bs[s].hi)]
    ensures TouchesPrevious(bs, b, s) && !TouchesNext(bs, b, s) ==>
              Placed(bs, b, s) == bs[s - 1 := Block(bs[s - 1].lo, b.hi)]
    ensures TouchesPrevious(bs, b, s) && TouchesNext(bs, b, s) ==>
              var joined := bs[s - 1 := Block(bs[s - 1].lo, bs[s].hi)];
              Placed(bs, b, s) == joined[..s] + joined[s + 1..]
  {
  }

  lemma PlacedIsReleased(bs: seq<Block>, b: Block, s: nat)
    requires Canonical(bs) && BelongsAt(bs, b, s) && b.lo <= b.hi
    ensures Released(bs, b, Placed(bs, b, s))
  {
    var k := if TouchesPrevious(bs, b, s) then s - 1 else s;
    var m := if TouchesNext(bs, b, s) then s + 1 else s;
    var blk := Block(if k < s then bs[k].lo else b.lo, if m > s then bs[s].hi else b.hi);
    MergedBlock(bs, b, s, k, m, blk);
    assert ReleasedAs(bs, b, Placed(bs, b, s), k, m, blk);
  }

  lemma MergedBlock(bs: seq<Block>, b: Block, s: nat, k: nat, m: nat, blk: Block)
    requires Canonical(bs) && BelongsAt(bs, b, s) && b.lo <= b.hi
    requires k == if TouchesPrevious(bs, b, s) then s - 1 else s
    requires m == if TouchesNext(bs, b, s) then s + 1 else s
    requires blk == Block(if k < s then bs[k].lo else b.lo, if m > s then bs[s].hi else b.hi)
    ensures Merges(bs, b, k, m, blk)
  {
    forall x: nat ensures blk.Has(x) <==> b.Has(x) || exists i :: k <= i < m && bs[i].Has(x) {
      if k < s {
        assert bs[k].Has(x) <==> blk.lo <= x < b.lo;
      }
      if m > s {
        assert bs[s].Has(x) <==> b.hi <= x < blk.hi;
      }
    }
  }

  lemma SoundFits(bs: seq<Block>, out: map<Address, Block>, n: Address, alignment: nat, total: nat)
    requires n in out
    ensures SoundBlocks(bs, out, alignment, total) ==> Fits(bs, out[n])
  {
  }

  /** A grant covers its request exactly when rounding the request up does not leave 64 bits. */
  lemma GrantCoversRequest(b: Block, size: nat, alignment: nat)
    requires b.lo <= b.hi && b.hi - b.lo > size && size < WORD
    requires 1 <= alignment < WORD && IsPow2(alignment)
    ensures Grant(b, AlignedSize(size, alignment)) >= size <==> size <= WORD - alignment
    ensures Grant(b, AlignedSize(size, alignment)) > 0 <==> 0 < size <= WORD - alignment
  {
    AlignedSizeCovers(size, alignment);
    hide AlignedSize, IsPow2, IsMultiple;
  }

  /** Block k is the lowest one that is larger than the request. */
  predicate FirstLarger(bs: seq<Block>, k: nat, size: nat) {
    && k < |bs| && size < bs[k].hi - bs[k].lo
    && forall i | 0 <= i < k :: bs[i].hi - bs[i].lo <= size
  }

  /** The front of the block, as much as the request needs in multiples of the alignment, or all of it. */
  ghost predicate LeastGrant(b: Block, size: nat, alignment: nat, granted: Block) {
    && granted.lo == b.lo && granted.lo + size <= granted.hi <= b.hi
    && (granted.hi == b.hi || IsMultiple(granted.hi - granted.lo, alignment))
    && forall m: nat | IsMultiple(m, alignment) && size <= m :: granted.hi <= granted.lo + m
  }

  /** Nothing is granted if no block is larger, and else the least grant from the lowest larger block. */
  ghost predicate Serves(bs: seq<Block>, size: nat, alignment: nat, out: map<Address, Block>, result: Link) {
    if result == Null then
      forall i | 0 <= i < |bs| :: bs[i].hi - bs[i].lo <= size
    else
      && result.to in out
      && exists k: nat :: FirstLarger(bs, k, size) && LeastGrant(bs[k], size, alignment, out[result.to])
  }

  lemma GrantIsLeast(b: Block, size: nat, alignment: nat)
    requires b.lo <= b.hi && b.hi - b.lo > size
    requires 1 <= alignment < WORD && IsPow2(alignment) && size <= WORD - alignment
    ensures LeastGrant(b, size, alignment, Block(b.lo, b.lo + Grant(b, AlignedSize(size, alignment))))
  {
    hide AlignedSize, IsPow2, IsMultiple;
    GrantCoversRequest(b, size, alignment);
    AlignedSizeCovers(size, alignment);
    forall m: nat | IsMultiple(m, alignment) && size <= m
      ensures Grant(b, AlignedSize(size, alignment)) <= m
    {
      MultipleBelow(AlignedSize(size, alignment), m, size, alignment);
    }
  }

  lemma FirstIsServed(bs: seq<Block>, size: nat, alignment: nat, out: map<Address, Block>, result: Link)
    requires 1 <= alignment < WORD && IsPow2(alignment) && size < WORD
    requires var k := FirstFitting(bs, size);
             if k == |bs| then result == Null
             else
               && result.To? && result.to in out && bs[k].lo <= bs[k].hi
               && out[result.to] == Block(bs[k].lo, bs[k].lo + Grant(bs[k], AlignedSize(size, alignment)))
    ensures size <= WORD - alignment ==> Serves(bs, size, alignment, out, result)
  {
    hide FirstFitting, AlignedSize, IsPow2, LeastGrant, Grant;
    var k := FirstFitting(bs, size);
    if k < |bs| && size <= WORD - alignment {
      GrantIsLeast(bs[k], size, alignment);
      assert FirstLarger(bs, k, size);
    }
  }

  /** No multiple lies between the request and the first multiple from it on. */
  lemma MultipleBelow(r: nat, m: nat, size: nat, a: nat)
    requires a > 0 && IsMultiple(r, a) && IsMultiple(m, a) && r < size + a && size <= m
    ensures r <= m
  {
    var p: nat :| r == p * a;
    var q: nat :| m == q * a;
    FirstMultiple(p, q, a, size);
    MulMonotone(p, q, a);
  }

  /** Why requests must not be empty: 4 bytes with alignment 1, requests of 1, 0 and 1 bytes, then the two
      non-empty grants are freed.  The empty grant now lies strictly inside a free block and can no longer be
      given back. */
  lemma EmptyGrantGetsStuck()
    ensures var whole := [Block(0, 4)];
            var afterFirst := Taken(whole, FirstFitting(whole, 1), Grant(whole[0], AlignedSize(1, 1)));
            var afterEmpty := Taken(afterFirst, FirstFitting(afterFirst, 0), Grant(afterFirst[0], AlignedSize(0, 1)));
            var afterSecond := Taken(afterEmpty, FirstFitting(afterEmpty, 1), Grant(afterEmpty[0], AlignedSize(1, 1)));
            && afterFirst == afterEmpty == [Block(1, 4)] && afterSecond == [Block(2, 4)]
            && Released(afterSecond, Block(0, 1), [Block(0, 1), Block(2, 4)])
            && Released([Block(0, 1), Block(2, 4)], Block(1, 2), whole)
            && !Fits(whole, Block(1, 1))
  {
    assert And(1, 0) == 0 && And(0, 0) == 0;
    FreeBothNeighbours();
    hide Released;
  }

  /** There is only one list that a release can leave. */
  lemma ReleasedUnique(bs: seq<Block>, b: Block, a: seq<Block>, c: seq<Block>)
    requires Canonical(bs) && b.lo < b.hi && Released(bs, b, a) && Released(bs, b, c)
    ensures Canonical(a) && a == c
  {
    ReleasedCovers(bs, b, a);
    ReleasedCovers(bs, b, c);
    hide Released, Canonical;
    CanonicalUnique(a, c);
  }

  lemma ReleasedCovers(bs: seq<Block>, b: Block, after: seq<Block>)
    requires Canonical(bs) && b.lo < b.hi && Released(bs, b, after)
    ensures Canonical(after) && forall x: nat :: Covers(after, x) <==> Covers(bs, x) || b.Has(x)
  {
    var k, m, blk :| 0 <= k <= m <= |bs| && ReleasedAs(bs, b, after, k, m, blk);
    assert blk.Has(b.lo) by { assert b.Has(b.lo); }
    SpliceCanonical(bs, k, m, blk);
    SpliceCovers(bs, b, k, m, blk);
  }

  lemma FreeBothNeighbours()
    ensures Released([Block(2, 4)], Block(0, 1), [Block(0, 1), Block(2, 4)])
    ensures Released([Block(0, 1), Block(2, 4)], Block(1, 2), [Block(0, 4)])
  {
    hide Released, Placed;
    PlacedForms([Block(2, 4)], Block(0, 1), 0);
    assert Splice([Block(2, 4)], 0, 0, Block(0, 1)) == [Block(0, 1), Block(2, 4)];
    PlacedIsReleased([Block(2, 4)], Block(0, 1), 0);
    PlacedForms([Block(0, 1), Block(2, 4)], Block(1, 2), 1);
    var joined := [Block(0, 1), Block(2, 4)][0 := Block(0, 4)];
    assert joined[..1] + joined[2..] == [Block(0, 4)];
    PlacedIsReleased([Block(0, 1), Block(2, 4)], Block(1, 2), 1);
  }

  lemma {:induction false} FirstFittingIs(bs: seq<Block>, size: nat, i: nat)
    requires i <= |bs|
    requires forall j | 0 <= j < i :: bs[j].hi - bs[j].lo <= size
    requires i < |bs| ==> bs[i].hi - bs[i].lo > size
    ensures FirstFitting(bs, size) == i
  {
    if i > 0 {
      FirstFittingIs(bs[1..], size, i - 1);
    }
  }

  // ---------------------------------------------------------------- the allocator

  class FirstFit {
    const pool: Pool
    var alignment: nat
    var nodes: Store
    /** The nodes on the free list, and those handed out and not yet freed with the blocks they stand for. */
    ghost var list: seq<Address>
    ghost var out: map<Address, Block>

    ghost function Owned(): set<Address>
      reads this
    {
      Addresses(list) + out.Keys
    }

    ghost function Total(): nat
      reads this
      requires HEAD in nodes
    {
      nodes[HEAD].size
    }

    /** The list is well linked; its nodes and the outstanding ones are disjoint and live in the pool. */
    ghost predicate Linked()
      reads this, pool
    {
      && pool.Valid()
      && 1 <= alignment < WORD && IsPow2(alignment)
      && Chain(nodes, list)
      && Members(nodes, list, out, pool.live)
    }

    ghost function FreeList(): seq<Block>
      reads this, pool
      requires Linked()
    {
      BlocksOf(nodes, list)
    }

    /** In addition the blocks partition [0, total) and respect the alignment. */
    ghost predicate Sound()
      reads this, pool
    {
      Linked() && SoundBlocks(FreeList(), out, alignment, Total())
    }

    constructor (pool: Pool, size: nat, align: nat)
      requires pool.Valid() && size < WORD && 1 <= align <= 0x8000_0000_0000_0000
      modifies pool
      ensures this.pool == pool && LeastPow2AtLeast(alignment, align)
      ensures Linked() && Total() == size && out == map[] && FreeList() == [Block(0, size)]
      ensures size > 0 ==> Sound()
      ensures pool.live - Owned() == old(pool.live)
    {
      hide IsPow2, LeastPow2AtLeast, SoundBlocks;
      var a := NextPow2(align);
      LeastPow2InRange(a, align);
      var first := pool.Create();
      this.pool := pool;
      this.alignment := a;
      this.nodes := map[HEAD := Node(To(first), 0, size), first := Node(Null, 0, size)];
      this.list := [first];
      this.out := map[];
      new;
      assert FreeList() == [Block(0, size)];
      if size > 0 {
        WholeIsSound(size, a);
      }
    }

    /** Takes the lowest-offset free block strictly larger than the request; null if there is none.  A sound
        allocator stays sound exactly when nothing is granted, or when the request is neither empty nor so
        large that rounding it up leaves 64 bits. */
    method Allocate(size: nat) returns (result: Link)
      requires Linked() && size < WORD
      modifies this, pool
      ensures Linked() && alignment == old(alignment) && Total() == old(Total())
      ensures pool.live - Owned() == old(pool.live - Owned())
      ensures var k := FirstFitting(old(FreeList()), size);
              if k == |old(FreeList())| then
                result == Null && list == old(list) && out == old(out) && nodes == old(nodes)
              else
                && result.To? && result.to !in old(out)
                && var b := old(FreeList())[k];
                   var grant := Grant(b, AlignedSize(size, alignment));
                   && out == old(out)[result.to := Block(b.lo, b.lo + grant)]
                   && FreeList() == Taken(old(FreeList()), k, grant)
      ensures size <= WORD - alignment ==> Serves(old(FreeList()), size, alignment, out, result)
      ensures old(Sound()) ==> (Sound() <==> result == Null || 0 < size <= WORD - alignment)
    {
      hide *;
      ghost var before := FreeList();
      BlocksAreOrdered();
      result := Take(size);
      FirstIsServed(before, size, alignment, out, result);
    }

    lemma BlocksAreOrdered()
      requires Linked()
      ensures forall b | b in FreeList() :: b.lo <= b.hi
    {
      hide Chain, Pool.Valid, IsPow2, BlocksOf;
      forall i | 0 <= i < |FreeList()| ensures FreeList()[i].lo <= FreeList()[i].hi {
        NextIs(0);
        NextIs(i);
      }
    }

    /** The walk, and the grant from the node found. */
    method Take(size: nat) returns (result: Link)
      requires Linked() && size < WORD
      modifies this, pool
      ensures Linked() && alignment == old(alignment) && Total() == old(Total())
      ensures 1 <= alignment < WORD && IsPow2(alignment)
      ensures pool.live - Owned() == old(pool.live - Owned())
      ensures var k := FirstFitting(old(FreeList()), size);
              if k == |old(FreeList())| then
                result == Null && list == old(list) && out == old(out) && nodes == old(nodes)
              else
                && result.To? && result.to !in old(out)
                && var b := old(FreeList())[k];
                   var grant := Grant(b, AlignedSize(size, alignment));
                   && out == old(out)[result.to := Block(b.lo, b.lo + grant)]
                   && FreeList() == Taken(old(FreeList()), k, grant)
      ensures old(Sound()) ==> (Sound() <==> result == Null || 0 < size <= WORD - alignment)
    {
      hide IsPow2, SoundBlocks, AlignedSize, FirstFitting, Pool.Valid, Chain, BlocksOf;
      hide Taken, Owned;
      NextIs(0);
      ghost var before := FreeList();
      var p, i := WalkToFitting(size);
      NextIs(i);
      if nodes[p].next == Null {
        return Null;
      }
      var granted := TakeFrom(p, nodes[p].next.to, AlignedSize(size, alignment), i);
      NextIs(0);
      if old(Sound()) {
        GrantIsSoundIff(before, old(out), i, size, granted, alignment, Total());
      }
      return To(granted);
    }

    /** Walks the list up to the first node strictly larger than the request; `p` is the node before it. */
    method WalkToFitting(size: nat) returns (p: Address, ghost i: nat)
      requires Linked()
      ensures i == FirstFitting(FreeList(), size) && i <= |list| && p == Before(list, i)
    {
      hide FirstFitting, Pool.Valid, IsPow2;
      p, i := HEAD, 0;
      NextIs(0);
      while nodes[p].next != Null && nodes[nodes[p].next.to].size <= size
        invariant i <= |list| && p == Before(list, i)
        invariant forall j | 0 <= j < i :: FreeList()[j].hi - FreeList()[j].lo <= size
        decreases |list| - i
      {
        NextIs(i);
        p := nodes[p].next.to;
        i := i + 1;
      }
      NextIs(i);
      FirstFittingIs(FreeList(), size, i);
    }

    lemma OwnedApart()
      requires Linked()
      ensures forall a | a in out :: a !in list && a in nodes && nodes[a].Extent() == out[a]
      ensures Distinct(list)
    {
    }

    /** The link into position `i`, and the node there. */
    lemma NextIs(i: nat)
      requires Linked() && i <= |list|
      ensures HEAD in nodes && Before(list, i) in nodes && nodes[Before(list, i)].next == LinkAt(list, i)
      ensures |FreeList()| == |list|
      ensures i < |list| ==> list[i] in nodes && nodes[list[i]].Extent() == FreeList()[i]
    {
    }

    /** Grants `aligned` bytes of `list[i]`, or all of it if nothing would remain. */
    method TakeFrom(p: Address, node: Address, aligned: nat, ghost i: nat) returns (granted: Address)
      requires Linked() && i < |list| && list[i] == node && p == Before(list, i)
      modifies this, pool
      ensures Linked() && alignment == old(alignment) && Total() == old(Total())
      ensures granted !in old(out)
      ensures var b := old(FreeList())[i];
              var grant := Grant(b, aligned);
              out == old(out)[granted := Block(b.lo, b.lo + grant)] && FreeList() == Taken(old(FreeList()), i, grant)
      ensures pool.live - Owned() == old(pool.live - Owned())
    {
      hide Linked, Owned, FreeList, Total, Taken, Chain, BlocksOf, Pool.Valid, IsPow2;
      NextIs(i);
      if nodes[node].size > aligned {
        granted := Split(node, aligned, i);
      } else {
        TakeWhole(p, node, i);
        granted := node;
      }
    }

    /** Carves `aligned` bytes off the front of `list[i]`. */
    method Split(node: Address, aligned: nat, ghost i: nat) returns (granted: Address)
      requires Linked() && i < |list| && list[i] == node && nodes[node].size > aligned
      modifies this, pool
      ensures Linked() && alignment == old(alignment) && list == old(list) && Total() == old(Total())
      ensures granted !in old(out)
      ensures out == old(out)[granted := Block(old(nodes)[node].offset, old(nodes)[node].offset + aligned)]
      ensures FreeList() == Taken(old(FreeList()), i, aligned)
      ensures pool.live - Owned() == old(pool.live - Owned())
    {
      hide IsPow2, Pool.Valid;
      granted := pool.Create();
      nodes := nodes[granted := Node(Null, nodes[node].offset, aligned)];
      nodes := nodes[node := nodes[node].(offset := nodes[node].offset + aligned, size := nodes[node].size - aligned)];
      out := out[granted := nodes[granted].Extent()];
      assert granted !in list;
      ChainKept(old(nodes), list, nodes);
    }

    /** Sets the link into position `i` to skip that node. */
    method Unlink(p: Address, node: Address, ghost i: nat)
      requires Linked() && i < |list| && list[i] == node && p == Before(list, i)
      modifies this
      ensures Linked() && alignment == old(alignment) && Total() == old(Total()) && out == old(out)
      ensures list == old(list)[..i] + old(list)[i + 1..]
      ensures FreeList() == old(FreeList())[..i] + old(FreeList())[i + 1..]
      ensures node in nodes && nodes[node].Extent() == old(FreeList())[i]
    {
      assert nodes[Before(list, i + 1)].next == LinkAt(list, i + 1);
      NextIs(i);
      hide IsPow2, Pool.Valid, BlocksOf;
      nodes := nodes[p := nodes[p].(next := nodes[node].next)];
      ChainRemove(old(nodes), list, i, nodes);
      BlocksRemoved(old(nodes), list, i, nodes);
      MembersRemoved(old(nodes), list, i, out, pool.live, nodes);
      list := list[..i] + list[i + 1..];
      hide Chain;
    }

    /** Hands out the whole of `list[i]`. */
    method TakeWhole(p: Address, node: Address, ghost i: nat)
      requires Linked() && i < |list| && list[i] == node && p == Before(list, i)
      modifies this
      ensures Linked() && alignment == old(alignment) && Total() == old(Total())
      ensures out == old(out)[node := old(FreeList())[i]] && node !in old(out)
      ensures FreeList() == Taken(old(FreeList()), i, old(nodes)[node].size)
      ensures Owned() == old(Owned())
    {
      assert Distinct(list) && node != HEAD && node in list;
      NextIs(i);
      UnlinkedOwned(list, i, out);
      MembersRemoved(nodes, list, i, out, pool.live, nodes);
      hide IsPow2, Pool.Valid, Chain, BlocksOf, Addresses;
      Unlink(p, node, i);
      out := out[node := nodes[node].Extent()];
    }

    // -------------------------------------------------------------- free

    /** Gives an outstanding node back.  The search finds a slot exactly when the block overlaps no free block,
        which is always so in a sound allocator. */
    method Free(node: Link) returns (ok: bool)
      requires Linked() && Canonical(FreeList()) && (node.To? ==> node.to in out)
      modifies this, pool
      ensures Linked() && alignment == old(alignment) && Total() == old(Total())
      ensures pool.live - Owned() == old(pool.live - Owned())
      ensures node.Null? ==> ok
      ensures node.Null? || !ok ==> list == old(list) && out == old(out) && nodes == old(nodes)
      ensures node.To? ==> (ok <==> Fits(old(FreeList()), old(out)[node.to]))
      ensures node.To? && ok ==>
                out == old(out) - {node.to} && Released(old(FreeList()), old(out)[node.to], FreeList())
      ensures old(Sound()) ==> ok && Sound()
    {
      if node == Null {
        return true;
      }
      hide IsPow2, Pool.Valid, Chain, BlocksOf, SoundBlocks, Canonical, Fits, Released, Linked, Owned, Total;
      NextIs(0);
      SoundFits(FreeList(), out, node.to, alignment, Total());
      var p, s := WalkToSlot(node.to);
      ok := p.To?;
      if ok {
        Release(p.to, node.to, s);
      }
    }

    /** Gives `node` back at the position where it belongs. */
    method Release(p: Address, node: Address, ghost s: nat)
      requires Linked() && Canonical(FreeList()) && node in out
      requires BelongsAt(FreeList(), out[node], s) && p == Before(list, s)
      modifies this, pool
      ensures Linked() && alignment == old(alignment) && Total() == old(Total())
      ensures pool.live - Owned() == old(pool.live - Owned())
      ensures out == old(out) - {node} && Released(old(FreeList()), old(out)[node], FreeList())
      ensures old(Sound()) ==> Sound()
    {
      hide IsPow2, Pool.Valid, Chain, BlocksOf, SoundBlocks, Canonical, Released, Placed;
      NextIs(0);
      ghost var before, b := FreeList(), out[node];
      OwnedApart();
      PlacedIsReleased(before, b, s);
      GiveBack(p, node, s);
      NextIs(0);
      if old(Sound()) {
        ReleaseIsSound(before, old(out), node, FreeList(), alignment, Total());
      }
    }

    /** Walks the list for the node behind which `node` belongs; null if there is none. */
    method WalkToSlot(node: Address) returns (p: Link, ghost s: nat)
      requires Linked() && Canonical(FreeList()) && node in out
      ensures p.To? <==> Fits(FreeList(), out[node])
      ensures p.To? ==> BelongsAt(FreeList(), out[node], s) && p.to == Before(list, s)
    {
      hide IsPow2, Pool.Valid, Chain, BlocksOf, FreeList;
      OwnedApart();
      hide Linked;
      ghost var bs := FreeList();
      SlotIffFits(bs, out[node]);
      hide Canonical, Fits;
      var end := nodes[node].offset + nodes[node].size;
      NextIs(0);
      var next := nodes[HEAD].next;
      if next == Null || end <= nodes[next.to].offset {
        return To(HEAD), 0;
      }
      ghost var i := 0;
      while next != Null
        invariant 0 <= i <= |list| && next == LinkAt(list, i)
        invariant !SlotFirst(bs, out[node]) && forall j | 0 <= j < i :: !SlotAfter(bs, out[node], j)
        decreases |list| - i
      {
        p := next;
        NextIs(i);
        NextIs(i + 1);
        next := nodes[p.to].next;
        if nodes[p.to].offset + nodes[p.to].size <= nodes[node].offset
          && (next == Null || end <= nodes[next.to].offset)
        {
          assert SlotAfter(bs, out[node], i);
          return p, i + 1;
        }
        i := i + 1;
      }
      return Null, 0;
    }

    /** Links `node` in at position `s`, merging it with the neighbours it touches. */
    method GiveBack(p: Address, node: Address, ghost s: nat)
      requires Linked() && node in out
      requires s <= |list| && p == Before(list, s)
      modifies this, pool
      ensures Linked() && alignment == old(alignment) && Total() == old(Total())
      ensures pool.live - Owned() == old(pool.live - Owned())
      ensures out == old(out) - {node} && FreeList() == Placed(old(FreeList()), old(out)[node], s)
    {
      Neighbours(p, node, s);
      hide Placed, Linked, Owned, FreeList, TouchesPrevious, TouchesNext, Total;
      var next := nodes[p].next;
      var touchesNext := next != Null && nodes[node].offset + nodes[node].size == nodes[next.to].offset;
      var touchesPrevious := p != HEAD && nodes[p].offset + nodes[p].size == nodes[node].offset;
      if touchesPrevious && touchesNext {
        MergeBoth(p, node, next.to, s);
      } else if touchesPrevious {
        MergeIntoPrevious(p, node, s);
      } else if touchesNext {
        MergeIntoNext(node, next.to, s);
      } else {
        LinkIn(p, node, s);
      }
    }

    /** What the tests on the neighbouring nodes say about the blocks. */
    lemma Neighbours(p: Address, node: Address, s: nat)
      requires Linked() && node in out && s <= |list| && p == Before(list, s)
      ensures HEAD in nodes && p in nodes && node in nodes && nodes[p].next == LinkAt(list, s) && |FreeList()| == |list|
      ensures s < |list| ==> list[s] in nodes
      ensures p != HEAD <==> s > 0
      ensures p != HEAD && nodes[p].offset + nodes[p].size == nodes[node].offset
        <==> TouchesPrevious(FreeList(), out[node], s)
      ensures s < |list| && nodes[node].offset + nodes[node].size == nodes[list[s]].offset
        <==> TouchesNext(FreeList(), out[node], s)
    {
      NextIs(s);
      if s > 0 {
        NextIs(s - 1);
        assert list[s - 1] in list;
      }
    }

    /** Links `node` in without merging. */
    method LinkIn(p: Address, node: Address, ghost s: nat)
      requires Linked() && node in out && s <= |list| && p == Before(list, s)
      requires !TouchesPrevious(FreeList(), out[node], s) && !TouchesNext(FreeList(), out[node], s)
      modifies this
      ensures Linked() && alignment == old(alignment) && Total() == old(Total())
      ensures out == old(out) - {node} && Owned() == old(Owned())
      ensures FreeList() == Placed(old(FreeList()), old(out)[node], s)
    {
      NextIs(s);
      PlacedForms(FreeList(), out[node], s);
      LinkedInFacts(nodes, list, s, node, out, pool.live);
      BlocksInserted(nodes, list, s, node, LinkedIn(nodes, p, node));
      MembersInserted(nodes, list, s, node, out, pool.live, nodes);
      assert out[node] == nodes[node].Extent();
      hide IsPow2, Pool.Valid, BlocksOf, Placed, TouchesPrevious, TouchesNext, Splice;
      hide Members, Addresses, Chain, SameExtents;
      nodes := nodes[node := nodes[node].(next := nodes[p].next)];
      nodes := nodes[p := nodes[p].(next := To(node))];
      list := list[..s] + [node] + list[s..];
      out := out - {node};
      hide Chain;
    }

    /** `next`, the node at position `s`, grows downwards over `node`. */
    method MergeIntoNext(node: Address, next: Address, ghost s: nat)
      requires Linked() && node in out && s < |list| && list[s] == next
      requires !TouchesPrevious(FreeList(), out[node], s) && TouchesNext(FreeList(), out[node], s)
      modifies this, pool
      ensures Linked() && alignment == old(alignment) && Total() == old(Total())
      ensures out == old(out) - {node} && pool.live - Owned() == old(pool.live - Owned())
      ensures FreeList() == Placed(old(FreeList()), old(out)[node], s)
    {
      NextIs(s);
      PlacedForms(FreeList(), out[node], s);
      hide IsPow2, Pool.Valid, Chain, BlocksOf, Placed;
      Resize(next, nodes[node].offset, nodes[next].size + nodes[node].size, s);
      Discard(node);
    }

    /** `p`, the node before position `s`, grows upwards over `node`. */
    method MergeIntoPrevious(p: Address, node: Address, ghost s: nat)
      requires Linked() && node in out && 0 < s <= |list| && list[s - 1] == p
      requires TouchesPrevious(FreeList(), out[node], s) && !TouchesNext(FreeList(), out[node], s)
      modifies this, pool
      ensures Linked() && alignment == old(alignment) && Total() == old(Total())
      ensures out == old(out) - {node} && pool.live - Owned() == old(pool.live - Owned())
      ensures FreeList() == Placed(old(FreeList()), old(out)[node], s)
    {
      NextIs(s - 1);
      PlacedForms(FreeList(), out[node], s);
      hide IsPow2, Pool.Valid, Chain, BlocksOf, Placed;
      Resize(p, nodes[p].offset, nodes[p].size + nodes[node].size, s - 1);
      Discard(node);
    }

    /** `p` grows over `node` and `next`, which leaves the list. */
    method MergeBoth(p: Address, node: Address, next: Address, ghost s: nat)
      requires Linked() && node in out && 0 < s < |list| && list[s - 1] == p && list[s] == next
      requires TouchesPrevious(FreeList(), out[node], s) && TouchesNext(FreeList(), out[node], s)
      modifies this, pool
      ensures Linked() && alignment == old(alignment) && Total() == old(Total())
      ensures out == old(out) - {node} && pool.live - Owned() == old(pool.live - Owned())
      ensures FreeList() == Placed(old(FreeList()), old(out)[node], s)
    {
      ghost var joined := JoinedExtent(p, node, next, s);
      hide Linked, Owned, FreeList, Total, Placed, TouchesPrevious, TouchesNext;
      Join(p, node, next, s, joined);
    }

    /** The two steps of the double merge; `joined` is the list once `p` has grown. */
    method Join(p: Address, node: Address, next: Address, ghost s: nat, ghost joined: seq<Block>)
      requires Linked() && node in out && 0 < s < |list| && list[s - 1] == p && list[s] == next
      requires p in nodes && node in nodes && next in nodes
      requires joined == FreeList()[s - 1 := Block(nodes[p].offset,
        nodes[p].offset + (nodes[p].size + (nodes[node].size + nodes[next].size)))]
      modifies this, pool
      ensures Linked() && alignment == old(alignment) && Total() == old(Total())
      ensures out == old(out) - {node} && pool.live - Owned() == old(pool.live - Owned())
      ensures FreeList() == joined[..s] + joined[s + 1..]
    {
      hide Linked, Owned, FreeList, Total;
      Resize(p, nodes[p].offset, nodes[p].size + (nodes[node].size + nodes[next].size), s - 1);
      Drop(p, node, next, s);
    }

    lemma JoinedExtent(p: Address, node: Address, next: Address, s: nat) returns (joined: seq<Block>)
      requires Linked() && node in out && 0 < s < |list| && list[s - 1] == p && list[s] == next
      requires TouchesPrevious(FreeList(), out[node], s) && TouchesNext(FreeList(), out[node], s)
      ensures HEAD in nodes && p in nodes && node in nodes && next in nodes && |FreeList()| == |list|
      ensures joined == FreeList()[s - 1 := Block(nodes[p].offset,
        nodes[p].offset + (nodes[p].size + (nodes[node].size + nodes[next].size)))]
      ensures Placed(FreeList(), out[node], s) == joined[..s] + joined[s + 1..]
    {
      joined := FreeList()[s - 1 := Block(FreeList()[s - 1].lo, FreeList()[s].hi)];
      NextIs(s - 1);
      NextIs(s);
      PlacedForms(FreeList(), out[node], s);
    }

    /** Unlinks `next` and recycles it together with `node`. */
    method Drop(p: Address, node: Address, next: Address, ghost s: nat)
      requires Linked() && node in out && s < |list| && list[s] == next && p == Before(list, s)
      modifies this, pool
      ensures Linked() && alignment == old(alignment) && Total() == old(Total())
      ensures out == old(out) - {node} && pool.live - Owned() == old(pool.live - Owned())
      ensures FreeList() == old(FreeList())[..s] + old(FreeList())[s + 1..]
    {
      OwnedApart();
      NextIs(s);
      hide IsPow2, Pool.Valid, Chain, BlocksOf, Members, Addresses;
      hide Linked, Owned;
      TakeWhole(p, next, s);
      Discard(node);
      Discard(next);
    }

    /** Rewrites the extent of `list[i]`. */
    method Resize(a: Address, offset: nat, size: nat, ghost i: nat)
      requires Linked() && i < |list| && list[i] == a
      modifies this
      ensures Linked() && alignment == old(alignment) && Total() == old(Total()) && out == old(out) && list == old(list)
      ensures Owned() == old(Owned())
      ensures FreeList() == old(FreeList())[i := Block(offset, offset + size)]
    {
      hide IsPow2, Pool.Valid;
      nodes := nodes[a := nodes[a].(offset := offset, size := size)];
      ChainKept(old(nodes), list, nodes);
    }

    /** Recycles an outstanding node. */
    method Discard(node: Address)
      requires Linked() && node in out
      modifies this, pool
      ensures Linked() && alignment == old(alignment) && Total() == old(Total()) && list == old(list)
      ensures out == old(out) - {node} && FreeList() == old(FreeList())
      ensures pool.live - Owned() == old(pool.live - Owned()) && nodes == old(nodes)
    {
      hide IsPow2, Pool.Valid, Chain;
      out := out - {node};
      pool.Recycle(node);
    }

    /** Recycles the whole free list; reports a leak unless the list is the single block [0, total).  An
        allocator of size zero counts as moved from and recycles nothing. */
    method Destroy() returns (leak: bool)
      requires Linked()
      modifies this, pool
      ensures pool.Valid()
      ensures pool.live == if old(Total()) == 0 then old(pool.live) else old(pool.live) - Addresses(old(list))
      ensures old(Sound()) && old(Total()) > 0 ==> (leak <==> old(out) != map[])
      ensures old(Total()) == 0 ==> !leak
    {
      hide IsPow2, Partition, AllAligned;
      leak := false;
      if nodes[HEAD].size != 0 {
        NextIs(0);
        if |list| > 0 { NextIs(1); }
        var first := nodes[HEAD].next;
        leak := first == Null || nodes[first.to].next != Null || nodes[first.to].offset != 0
                || nodes[first.to].size != nodes[HEAD].size;
        assert leak <==> FreeList() != [Block(0, Total())];
        if old(Sound()) {
          SingleBlockIffNothingOut(FreeList(), out, Total());
        }
        RecycleFrom(first, 0);
      }
    }

    /** Recycles the nodes from position `i` on. */
    method RecycleFrom(first: Link, ghost i: nat)
      requires pool.Valid() && Chain(nodes, list) && i <= |list| && first == LinkAt(list, i)
      requires forall a | a in list :: a in pool.live
      modifies pool
      ensures pool.Valid() && pool.live == old(pool.live) - Addresses(list[i..])
    {
      hide Pool.Valid, Addresses;
      assert Addresses(list[i..i]) == {} by {
        EmptyAddresses(list, i);
      }
      var p := first;
      ghost var j := i;
      while p != Null
        invariant i <= j <= |list| && p == LinkAt(list, j)
        invariant pool.Valid() && pool.live == old(pool.live) - Addresses(list[i..j])
        decreases |list| - j
      {
        var node := p.to;
        NextOnChain(nodes, list, i, j);
        p := nodes[node].next;
        pool.Recycle(node);
        j := j + 1;
      }
      assert list[i..j] == list[i..];
    }
  }

  lemma OneIsLeast(r: nat)
    requires LeastPow2AtLeast(r, 1)
    ensures r == 1
  {
    assert Pow2(0) == 1;
  }

  /** Requests of 1 and 0 bytes from an allocator of 4 bytes with alignment 1 ... */
  method GrantTwo(pool: Pool) returns (a: FirstFit, first: Address, empty: Address)
    requires pool.Valid()
    modifies pool
    ensures a.pool == pool && fresh(a) && a.Linked() && a.FreeList() == [Block(1, 4)] && a.alignment == 1
    ensures first != empty && a.out == map[first := Block(0, 1), empty := Block(1, 1)]
  {
    hide Pool.Valid, Chain, BlocksOf, IsPow2, SoundBlocks, Members, Released;
    EmptyGrantGetsStuck();
    SmallSizes();
    hide FirstFitting, AlignedSize, Taken;
    a := new FirstFit(pool, 4, 1);
    assert a.alignment == 1 by { OneIsLeast(a.alignment); }
    FirstOf([Block(0, 4)], 1);
    var x := a.Allocate(1);
    assert a.FreeList() == [Block(1, 4)] && a.out == map[x.to := Block(0, 1)];
    FirstOf([Block(1, 4)], 0);
    var y := a.Allocate(0);
    first, empty := x.to, y.to;
  }

  /** ... and one more of 1 byte. */
  method GrantThree(pool: Pool) returns (a: FirstFit, first: Address, empty: Address, second: Address)
    requires pool.Valid()
    modifies pool
    ensures a.pool == pool && fresh(a) && a.Linked() && a.FreeList() == [Block(2, 4)]
    ensures first != empty && empty != second && first != second
    ensures a.out == map[first := Block(0, 1), empty := Block(1, 1), second := Block(1, 2)]
  {
    hide Pool.Valid, Chain, BlocksOf, IsPow2, SoundBlocks, Members, Released;
    EmptyGrantGetsStuck();
    SmallSizes();
    hide FirstFitting, AlignedSize, Taken;
    a, first, empty := GrantTwo(pool);
    FirstOf([Block(1, 4)], 1);
    var z := a.Allocate(1);
    second := z.to;
  }

  lemma SmallSizes()
    ensures AlignedSize(1, 1) == 1 && AlignedSize(0, 1) == 0
  {
    assert And(1, 0) == 0 && And(0, 0) == 0;
  }

  lemma FirstOf(bs: seq<Block>, size: nat)
    requires bs != [] && bs[0].hi - bs[0].lo > size
    ensures FirstFitting(bs, size) == 0
  {
  }

  /** Then the two non-empty grants are freed, ... */
  method FreeTwo(pool: Pool) returns (a: FirstFit, empty: Address)
    requires pool.Valid()
    modifies pool
    ensures a.pool == pool && fresh(a) && a.Linked()
    ensures a.FreeList() == [Block(0, 4)] && a.out == map[empty := Block(1, 1)]
  {
    hide Pool.Valid, Chain, BlocksOf, IsPow2, SoundBlocks, Members, Released, Taken;
    var first, second;
    a, first, empty, second := GrantThree(pool);
    FreeBothNeighbours();
    KnownLists();
    hide Canonical, Fits;
    var ok := a.Free(To(first));
    ReleasedUnique([Block(2, 4)], Block(0, 1), a.FreeList(), [Block(0, 1), Block(2, 4)]);
    ok := a.Free(To(second));
    ReleasedUnique([Block(0, 1), Block(2, 4)], Block(1, 2), a.FreeList(), [Block(0, 4)]);
  }

  /** ... and the third `Free` fails, although each block was granted and is freed once. */
  method EmptyGrantFails(pool: Pool) returns (ok: bool)
    requires pool.Valid()
    modifies pool
    ensures !ok
  {
    hide Pool.Valid, Chain, BlocksOf, IsPow2, SoundBlocks, Members, Released;
    var a, empty := FreeTwo(pool);
    KnownLists();
    hide Canonical, Fits;
    ok := a.Free(To(empty));
  }

  lemma KnownLists()
    ensures Canonical([Block(2, 4)]) && Canonical([Block(0, 1), Block(2, 4)]) && Canonical([Block(0, 4)])
    ensures Fits([Block(2, 4)], Block(0, 1)) && Fits([Block(0, 1), Block(2, 4)], Block(1, 2))
    ensures !Fits([Block(0, 4)], Block(1, 1))
  {
    assert [Block(0, 4)][0].hi == 4;
  }
}
