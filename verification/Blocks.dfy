/** Free lists as sequences of blocks: the canonical form, what it covers, and how granting and releasing a
    block change it.  This is the specification of src/core/first_fit.cpp. */
module Blocks {

  /** The half-open range [lo, hi). */
  datatype Block = Block(lo: nat, hi: nat) {
    predicate Has(x: nat) { lo <= x < hi }
  }

  /** Sorted by offset with a strict gap between neighbours, and no empty block. */
  ghost predicate Canonical(bs: seq<Block>) {
    && (forall i | 0 <= i < |bs| :: bs[i].lo < bs[i].hi)
    && (forall i, j | 0 <= i < j < |bs| :: bs[i].hi < bs[j].lo)
  }

  ghost predicate Covers(bs: seq<Block>, x: nat) {
    exists i :: 0 <= i < |bs| && bs[i].Has(x)
  }

  ghost predicate SameCover(a: seq<Block>, b: seq<Block>) {
    forall x: nat :: Covers(a, x) <==> Covers(b, x)
  }

  lemma CoversTail(bs: seq<Block>, x: nat)
    requires Canonical(bs) && bs != []
    ensures Canonical(bs[1..])
    ensures Covers(bs[1..], x) <==> Covers(bs, x) && !bs[0].Has(x)
  {
    if Covers(bs, x) && !bs[0].Has(x) {
      var i :| 0 <= i < |bs| && bs[i].Has(x);
      assert bs[1..][i - 1].Has(x);
    }
    if Covers(bs[1..], x) {
      var i :| 0 <= i < |bs[1..]| && bs[1..][i].Has(x);
      assert bs[i + 1].Has(x);
    }
  }

  lemma FirstBlock(a: seq<Block>, b: seq<Block>)
    requires Canonical(a) && Canonical(b) && SameCover(a, b) && a != []
    ensures b != [] && a[0].lo == b[0].lo && a[0].hi <= b[0].hi
  {
    assert Covers(a, a[0].lo) by { assert a[0].Has(a[0].lo); }
    assert Covers(b, a[0].lo);
    assert Covers(b, b[0].lo) by { assert b[0].Has(b[0].lo); }
    assert Covers(a, b[0].lo);
    assert !Covers(b, b[0].hi);
    assert !a[0].Has(b[0].hi);
  }

  /** The canonical form is determined by the set of free bytes, whatever order led to it. */
  lemma {:induction false} CanonicalUnique(a: seq<Block>, b: seq<Block>)
    requires Canonical(a) && Canonical(b) && SameCover(a, b)
    ensures a == b
    decreases |a|
  {
    if a == [] {
      if b != [] {
        FirstBlock(b, a);
      }
    } else {
      FirstBlock(a, b);
      FirstBlock(b, a);
      assert a[0] == b[0];
      forall x: nat ensures Covers(a[1..], x) <==> Covers(b[1..], x) {
        CoversTail(a, x);
        CoversTail(b, x);
      }
      CoversTail(a, 0);
      CoversTail(b, 0);
      CanonicalUnique(a[1..], b[1..]);
    }
  }

  // ---------------------------------------------------------------- granting

  /** The first block strictly larger than the request, or the length of the list. */
  function FirstFitting(bs: seq<Block>, size: nat): (k: nat)
    ensures k <= |bs|
    ensures forall j | 0 <= j < k :: bs[j].hi - bs[j].lo <= size
    ensures k < |bs| ==> bs[k].hi - bs[k].lo > size
  {
    if bs == [] then 0
    else if bs[0].hi - bs[0].lo > size then 0
    else 1 + FirstFitting(bs[1..], size)
  }

  /** The list after the first `grant` bytes of block `k` are taken. */
  function Taken(bs: seq<Block>, k: nat, grant: nat): seq<Block>
    requires k < |bs|
  {
    if bs[k].hi - bs[k].lo <= grant then bs[..k] + bs[k + 1..]
    else bs[k := Block(bs[k].lo + grant, bs[k].hi)]
  }

  lemma TakenCovers(bs: seq<Block>, k: nat, grant: nat)
    requires Canonical(bs) && k < |bs| && 0 < grant <= bs[k].hi - bs[k].lo
    ensures Canonical(Taken(bs, k, grant))
    ensures forall x: nat :: Covers(Taken(bs, k, grant), x) <==>
              Covers(bs, x) && !Block(bs[k].lo, bs[k].lo + grant).Has(x)
  {
    forall x: nat
      ensures Covers(Taken(bs, k, grant), x) <==> Covers(bs, x) && !Block(bs[k].lo, bs[k].lo + grant).Has(x)
    {
      TakenHas(bs, k, grant, x);
    }
  }

  lemma TakenHas(bs: seq<Block>, k: nat, grant: nat, x: nat)
    requires Canonical(bs) && k < |bs| && 0 < grant <= bs[k].hi - bs[k].lo
    ensures Covers(Taken(bs, k, grant), x) <==> Covers(bs, x) && !Block(bs[k].lo, bs[k].lo + grant).Has(x)
  {
    var t := Taken(bs, k, grant);
    var whole := grant == bs[k].hi - bs[k].lo;
    if i :| 0 <= i < |bs| && bs[i].Has(x) && !Block(bs[k].lo, bs[k].lo + grant).Has(x) {
      assert t[if whole && i > k then i - 1 else i].Has(x);
    }
    if i :| 0 <= i < |t| && t[i].Has(x) {
      assert bs[if whole && i >= k then i + 1 else i].Has(x);
    }
  }

  // ---------------------------------------------------------------- releasing

  /** No byte of `b`, and no point strictly inside a free block, is given back twice. */
  ghost predicate Fits(bs: seq<Block>, b: Block) {
    forall i | 0 <= i < |bs| :: b.hi <= bs[i].lo || bs[i].hi <= b.lo
  }

  /** The test made at list position `p`: block `b` goes right after block `p`, before its successor. */
  predicate SlotAfter(bs: seq<Block>, b: Block, p: nat)
    requires p < |bs|
  {
    bs[p].hi <= b.lo && (p + 1 == |bs| || b.hi <= bs[p + 1].lo)
  }

  predicate SlotFirst(bs: seq<Block>, b: Block) {
    bs == [] || b.hi <= bs[0].lo
  }

  lemma {:induction false} SlotExists(bs: seq<Block>, b: Block, from: nat) returns (p: nat)
    requires Fits(bs, b) && from < |bs| && bs[from].hi <= b.lo
    ensures p < |bs| && SlotAfter(bs, b, p)
    decreases |bs| - from
  {
    if from + 1 == |bs| || b.hi <= bs[from + 1].lo {
      p := from;
    } else {
      p := SlotExists(bs, b, from + 1);
    }
  }

  /** The search succeeds for a block if and only if the block overlaps no free block. */
  lemma SlotIffFits(bs: seq<Block>, b: Block)
    requires Canonical(bs) && b.lo <= b.hi
    ensures SlotFirst(bs, b) || (exists p :: 0 <= p < |bs| && SlotAfter(bs, b, p)) <==> Fits(bs, b)
  {
    if Fits(bs, b) && !SlotFirst(bs, b) {
      var p := SlotExists(bs, b, 0);
    }
    if p :| 0 <= p < |bs| && SlotAfter(bs, b, p) {
      assert forall i | 0 <= i < |bs| :: i <= p ==> bs[i].hi <= b.lo;
    }
  }

  /** Blocks from `k` to `m` are replaced by one. */
  function Splice(bs: seq<Block>, k: nat, m: nat, blk: Block): seq<Block>
    requires k <= m <= |bs|
  {
    bs[..k] + [blk] + bs[m..]
  }

  /** `blk` stands for `b` together with the free blocks k..m that it touches. */
  ghost predicate Merges(bs: seq<Block>, b: Block, k: nat, m: nat, blk: Block) {
    && k <= m <= |bs|
    && (k > 0 ==> bs[k - 1].hi < blk.lo)
    && (m < |bs| ==> blk.hi < bs[m].lo)
    && (forall x: nat :: blk.Has(x) <==> b.Has(x) || exists i :: k <= i < m && bs[i].Has(x))
  }

  lemma SpliceCanonical(bs: seq<Block>, k: nat, m: nat, blk: Block)
    requires Canonical(bs) && k <= m <= |bs| && blk.lo < blk.hi
    requires k > 0 ==> bs[k - 1].hi < blk.lo
    requires m < |bs| ==> blk.hi < bs[m].lo
    ensures Canonical(Splice(bs, k, m, blk))
  {
    if k > 0 && m < |bs| {
      assert bs[k - 1].hi < bs[m].lo;
    }
  }

  lemma SpliceCovers(bs: seq<Block>, b: Block, k: nat, m: nat, blk: Block)
    requires Merges(bs, b, k, m, blk)
    ensures forall x: nat :: Covers(Splice(bs, k, m, blk), x) <==> Covers(bs, x) || b.Has(x)
  {
    var s := Splice(bs, k, m, blk);
    forall x: nat ensures Covers(s, x) <==> Covers(bs, x) || b.Has(x) {
      if Covers(s, x) {
        SpliceToOld(bs, b, k, m, blk, x);
      }
      if i :| 0 <= i < |bs| && bs[i].Has(x) {
        assert s[if i < k then i else if i < m then k else i - m + k + 1].Has(x);
      }
      if b.Has(x) {
        assert s[k].Has(x);
      }
    }
  }

  lemma SpliceToOld(bs: seq<Block>, b: Block, k: nat, m: nat, blk: Block, x: nat)
    requires Merges(bs, b, k, m, blk) && Covers(Splice(bs, k, m, blk), x)
    ensures Covers(bs, x) || b.Has(x)
  {
    var s := Splice(bs, k, m, blk);
    var i :| 0 <= i < |s| && s[i].Has(x);
    if i != k {
      assert bs[if i < k then i else i - k - 1 + m].Has(x);
    }
  }

  // ---------------------------------------------------------------- the partition of [0, total)

  ghost predicate Held<N>(out: map<N, Block>, x: nat) {
    exists n :: n in out && out[n].Has(x)
  }

  /** Free and outstanding blocks are disjoint, non-empty and together cover exactly [0, total). */
  ghost predicate Partition<N>(bs: seq<Block>, out: map<N, Block>, total: nat) {
    && Canonical(bs)
    && (forall n | n in out :: out[n].lo < out[n].hi <= total)
    && (forall n, m | n in out && m in out && n != m :: out[n].hi <= out[m].lo || out[m].hi <= out[n].lo)
    && (forall n | n in out :: Fits(bs, out[n]))
    && (forall x: nat :: x < total <==> Covers(bs, x) || Held(out, x))
  }

  lemma FitsDisjoint(bs: seq<Block>, b: Block)
    requires Canonical(bs) && b.lo < b.hi
    ensures Fits(bs, b) <==> forall x: nat :: b.Has(x) ==> !Covers(bs, x)
  {
    if i :| 0 <= i < |bs| && !(b.hi <= bs[i].lo || bs[i].hi <= b.lo) {
      var x := if b.lo <= bs[i].lo then bs[i].lo else b.lo;
      assert b.Has(x) && bs[i].Has(x) && Covers(bs, x);
    }
  }

  lemma GrantKeepsPartition<N>(bs: seq<Block>, out: map<N, Block>, total: nat, k: nat, grant: nat, n: N)
    requires Partition(bs, out, total) && n !in out && k < |bs| && 0 < grant <= bs[k].hi - bs[k].lo
    ensures Partition(Taken(bs, k, grant), out[n := Block(bs[k].lo, bs[k].lo + grant)], total)
  {
    var g := Block(bs[k].lo, bs[k].lo + grant);
    var t := Taken(bs, k, grant);
    var out' := out[n := g];
    TakenCovers(bs, k, grant);
    assert bs[k].Has(bs[k].hi - 1) && Covers(bs, bs[k].hi - 1);
    assert g.hi <= total;
    FitsDisjoint(t, g);
    forall m | m in out ensures Fits(t, out'[m]) && (out[m].hi <= g.lo || g.hi <= out[m].lo) {
      FitsDisjoint(bs, out[m]);
      FitsDisjoint(t, out[m]);
      assert Fits(bs, out[m]);
    }
    forall x: nat ensures x < total <==> Covers(t, x) || Held(out', x) {
      if g.Has(x) {
        assert out'[n].Has(x);
        assert bs[k].Has(x) && Covers(bs, x);
      }
      if m :| m in out && out[m].Has(x) {
        assert out'[m].Has(x);
      }
      if m :| m in out' && out'[m].Has(x) {
        assert m != n ==> out[m].Has(x);
      }
    }
  }

  lemma ReleaseKeepsPartition<N>(bs: seq<Block>, bs': seq<Block>, out: map<N, Block>, total: nat, n: N)
    requires Partition(bs, out, total) && n in out && Canonical(bs')
    requires forall x: nat :: Covers(bs', x) <==> Covers(bs, x) || out[n].Has(x)
    ensures Partition(bs', out - {n}, total)
  {
    var out' := out - {n};
    forall m | m in out' ensures Fits(bs', out'[m]) {
      FitsDisjoint(bs, out[m]);
      FitsDisjoint(bs', out[m]);
      assert Fits(bs, out[m]);
    }
    forall x: nat ensures x < total <==> Covers(bs', x) || Held(out', x) {
      if m :| m in out && out[m].Has(x) {
        assert m == n || (m in out' && out'[m].Has(x));
      }
    }
  }

  /** Leak test of the destructor: the list is the single block [0, total) exactly when nothing is outstanding. */
  lemma SingleBlockIffNothingOut<N>(bs: seq<Block>, out: map<N, Block>, total: nat)
    requires Partition(bs, out, total) && total > 0
    ensures bs == [Block(0, total)] <==> out == map[]
  {
    var whole := [Block(0, total)];
    if out == map[] {
      forall x: nat ensures Covers(whole, x) <==> Covers(bs, x) {
        if x < total {
          assert whole[0].Has(x);
        }
      }
      CanonicalUnique(bs, whole);
    } else {
      var n :| n in out;
      FitsDisjoint(bs, out[n]);
      assert out[n].Has(out[n].lo);
      assert whole[0].Has(out[n].lo) && Covers(whole, out[n].lo);
    }
  }

  /** Two histories that leave the same blocks outstanding leave the same free list. */
  lemma FreeListDetermined<N>(a: seq<Block>, b: seq<Block>, out: map<N, Block>, total: nat)
    requires Partition(a, out, total) && Partition(b, out, total)
    ensures a == b
  {
    forall x: nat ensures Covers(a, x) <==> Covers(b, x) {
      FreeOrOut(a, out, total, x);
      FreeOrOut(b, out, total, x);
    }
    CanonicalUnique(a, b);
  }

  lemma FreeOrOut<N>(bs: seq<Block>, out: map<N, Block>, total: nat, x: nat)
    requires Partition(bs, out, total)
    ensures Covers(bs, x) <==> x < total && !Held(out, x)
  {
    if n :| n in out && out[n].Has(x) {
      FitsDisjoint(bs, out[n]);
    }
  }
}
