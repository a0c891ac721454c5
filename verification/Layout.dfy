/**
 * Where the registry puts the members of a structure, and the second layout
 * computation that checks a C++ structure against it (src/ast/type_registry.h:258-295).
 */
module Layout {
  import opened Integers
  import opened Types
  import opened Words

  /** The least multiple of a that is not below n. */
  function RoundUp(n: nat, a: nat): nat
    requires a > 0
  {
    (n + a - 1) - (n + a - 1) % a
  }

  lemma RoundUpBounds(n: nat, a: nat)
    requires AlignmentAllowed(a)
    ensures n <= RoundUp(n, a) < n + a
  {
  }

  lemma RoundUpMultiple(n: nat, a: nat)
    requires AlignmentAllowed(a)
    ensures RoundUp(n, a) % a == 0
  {
    QuotientTimes(n + a - 1, a);
    MultipleIsZero((n + a - 1) / a, a);
  }

  lemma RoundUpIsLeast(n: nat, a: nat, m: nat)
    requires AlignmentAllowed(a)
    requires n <= m && m % a == 0
    ensures RoundUp(n, a) <= m
  {
  }

  /** On 64-bit words the same, up to wrap-around. */
  lemma RoundUp64Wraps(n: nat, a: nat)
    requires AlignmentAllowed(a) && n < WORD
    ensures RoundUp64(n, a) == Wrap64(RoundUp(n, a))
  {
    var m := n + a - 1;
    if m < WORD {
      hide AlignmentAllowed;
      QuotientTimes(m, a);
      QuotientBounds(m, a);
    } else {
      assert RoundUp(n, a) == WORD by { LastMultiple(m, a); }
      assert Wrap64(m) / a == 0 by { QuotientOfLess(m - WORD, a); }
    }
  }

  /** 2^64 is a multiple of the alignment. */
  lemma LastMultiple(m: nat, a: nat)
    requires AlignmentAllowed(a) && WORD <= m < WORD + a
    ensures m - m % a == WORD
  {
    match a
    case 1 =>
    case 2 =>
    case 4 =>
    case 8 =>
    case 16 =>
  }

  lemma QuotientOfLess(k: nat, a: nat)
    requires k < a
    ensures k / a == 0
  {
  }

  lemma QuotientTimes(m: nat, a: nat)
    requires a > 0
    ensures m / a * a == m - m % a
  {
  }

  lemma RoundUp64Multiple(n: nat, a: nat)
    requires AlignmentAllowed(a)
    ensures RoundUp64(n, a) % a == 0
  {
    MultipleIsZero(Wrap64(n + a - 1) / a, a);
  }

  /** Every type's size is a multiple of its alignment, even where the size wraps. */
  lemma {:induction false} SizeIsMultiple(t: Ty)
    requires Valid(t)
    ensures AlignmentAllowed(Align(t)) && Size(t) % Align(t) == 0
    decreases t
  {
    ValidAlignment(t);
    if t.Array? {
      SizeIsMultiple(t.elem);
      MultipleWraps(Size(t.elem), t.dim, Align(t));
    } else if t.Structure? {
      RoundUp64Multiple(MembersSize(t.members), t.alignment);
    }
  }

  lemma MultipleWraps(n: nat, k: nat, a: nat)
    requires AlignmentAllowed(a) && n % a == 0
    ensures Wrap64(n * k) % a == 0
  {
    var q := n / a;
    assert n == q * a;
    var p := n * k;
    assert p == q * k * a;
    MultipleIsZero(q * k, a);
    WrapKeepsMultiple(p, a);
  }

  lemma MultipleIsZero(x: int, a: nat)
    requires AlignmentAllowed(a)
    ensures x * a % a == 0
  {
    match a
    case 1 =>
    case 2 =>
    case 4 =>
    case 8 =>
    case 16 =>
  }

  lemma WrapKeepsMultiple(p: nat, a: nat)
    requires AlignmentAllowed(a) && p % a == 0
    ensures Wrap64(p) % a == 0
  {
    var q, r := p / WORD, p / a;
    var m := WordMultiple(a);
    assert r * a == p by { QuotientTimes(p, a); }
    assert Wrap64(p) == p - q * WORD;
    Distributes(r, q, m, a);
    MultipleIsZero(r - q * m, a);
  }

  lemma WordMultiple(a: nat) returns (m: nat)
    requires AlignmentAllowed(a)
    ensures m * a == WORD
  {
    m := WORD / a;
  }

  lemma Distributes(r: int, q: int, m: int, a: int)
    ensures (r - q * m) * a == r * a - q * (m * a)
  {
  }

  // ----- Where the members are -----

  predicate AllValid(ms: seq<Ty>) {
    forall m | m in ms :: Valid(m)
  }

  function Offset(ms: seq<Ty>, i: nat): nat
    requires AllValid(ms) && i < |ms|
  {
    ValidAlignment(ms[i]);
    RoundUp64(MembersSize(ms[..i]), Align(ms[i]))
  }

  /** The same without wrap-around. */
  function ExactEnd(ms: seq<Ty>): nat
    requires AllValid(ms)
    decreases |ms|
  {
    if ms == [] then 0 else
      var last := ms[|ms| - 1];
      ValidAlignment(last);
      RoundUpBounds(ExactEnd(ms[..|ms| - 1]), Align(last));
      RoundUp(ExactEnd(ms[..|ms| - 1]), Align(last)) + Size(last)
  }

  lemma {:induction false} EndsGrow(ms: seq<Ty>, i: nat)
    requires AllValid(ms) && i <= |ms|
    ensures ExactEnd(ms[..i]) <= ExactEnd(ms)
    decreases |ms|
  {
    hide RoundUp, Size;
    if i < |ms| {
      var last := ms[|ms| - 1];
      ValidAlignment(last);
      RoundUpBounds(ExactEnd(ms[..|ms| - 1]), Align(last));
      EndsGrow(ms[..|ms| - 1], i);
      assert ms[..|ms| - 1][..i] == ms[..i];
    } else {
      assert ms[..i] == ms;
    }
  }

  lemma {:induction false} ExactWithoutWrap(ms: seq<Ty>)
    requires AllValid(ms) && ExactEnd(ms) < WORD
    ensures MembersSize(ms) == ExactEnd(ms)
    decreases |ms|
  {
    hide Wrap64, Wrap32, Size, RoundUp, RoundUp64;
    if ms != [] {
      var front := ms[..|ms| - 1];
      var last := ms[|ms| - 1];
      EndsGrow(ms, |front|);
      ExactWithoutWrap(front);
      ValidAlignment(last);
      RoundUpBounds(ExactEnd(front), Align(last));
      RoundUp64Wraps(ExactEnd(front), Align(last));
    }
  }

  /** A structure that fits into 64 bits: its members are aligned, ... */
  lemma MemberAligned(ms: seq<Ty>, i: nat)
    requires AllValid(ms) && i < |ms|
    ensures AlignmentAllowed(Align(ms[i])) && Offset(ms, i) % Align(ms[i]) == 0
  {
    hide RoundUp64;
    ValidAlignment(ms[i]);
    RoundUp64Multiple(MembersSize(ms[..i]), Align(ms[i]));
  }

  lemma MemberEnds(ms: seq<Ty>, i: nat)
    requires AllValid(ms) && i < |ms| && ExactEnd(ms) < WORD
    ensures Offset(ms, i) + Size(ms[i]) == ExactEnd(ms[..i + 1])
    ensures ExactEnd(ms[..i]) <= Offset(ms, i)
  {
    hide Wrap64, Wrap32, Valid, Align, MembersSize, RoundUp64, RoundUp, Size;
    EndsGrow(ms, i);
    EndsGrow(ms, i + 1);
    ExactWithoutWrap(ms[..i]);
    assert ms[..i + 1][..i] == ms[..i];
    ValidAlignment(ms[i]);
    RoundUpBounds(ExactEnd(ms[..i]), Align(ms[i]));
    RoundUp64Wraps(ExactEnd(ms[..i]), Align(ms[i]));
  }

  /** ... disjoint and in order, ... */
  lemma MembersDisjoint(ms: seq<Ty>, i: nat, j: nat)
    requires AllValid(ms) && i < j < |ms| && ExactEnd(ms) < WORD
    ensures Offset(ms, i) + Size(ms[i]) <= Offset(ms, j)
  {
    hide Offset, Size;
    MemberEnds(ms, i);
    MemberEnds(ms, j);
    EndsGrow(ms[..j], i + 1);
    assert ms[..j][..i + 1] == ms[..i + 1];
  }

  lemma StructureSize(a: nat, ms: seq<Ty>)
    requires Valid(Structure(a, ms))
    ensures AlignmentAllowed(a) && AllValid(ms)
    ensures Size(Structure(a, ms)) == RoundUp64(MembersSize(ms), a)
  {
  }

  /** ... and within its bounds. */
  lemma MemberInBounds(a: nat, ms: seq<Ty>, i: nat)
    requires Valid(Structure(a, ms)) && i < |ms|
    requires RoundUp(ExactEnd(ms), a) < WORD
    ensures Offset(ms, i) + Size(ms[i]) <= Size(Structure(a, ms)) == RoundUp(ExactEnd(ms), a)
  {
    hide Wrap64, Wrap32;
    StructureSize(a, ms);
    hide *;
    RoundUpBounds(ExactEnd(ms), a);
    MemberEnds(ms, i);
    EndsGrow(ms, i + 1);
    ExactWithoutWrap(ms);
    RoundUp64Wraps(ExactEnd(ms), a);
  }

  // ----- What a layout holds -----

  /** A whole number of bytes for the 32 bits of a number and the 64 bits of a handle; a boolean is a byte. */
  lemma ScalarLayout(t: Ty)
    requires Valid(t)
    ensures t.Bool? ==> Pow2(8 * Size(t)) == 0x100
    ensures t.Float? || t.Int? || t.Uint? ==> Pow2(8 * Size(t)) == UINT
    ensures t.Resource() || t.BindlessArray? || t.Accel? ==> Pow2(8 * Size(t)) == WORD
    ensures t.Scalar() || t.Resource() || t.BindlessArray? || t.Accel? ==> Size(t) == Align(t)
  {
    WordIsPow2();
    BytesOfPow2();
    hide Pow2;
  }

  lemma BytesOfPow2()
    ensures Pow2(8) == 0x100 && Pow2(32) == UINT
  {
    assert Pow2(8) == 0x100;
    assert Pow2(16) == 0x1_0000;
    assert Pow2(24) == 0x100_0000;
  }

  /** A vector fills the least power of two that its components fit in. */
  lemma VectorLayout(e: Ty, n: nat)
    requires Valid(Vector(e, n))
    ensures LeastPow2AtLeast(Size(Vector(e, n)), n * Size(e)) && Align(Vector(e, n)) == Size(Vector(e, n))
  {
    var size := Size(e);
    assert size == ScalarSize(e);
    if n == 2 {
      TwiceIsLeast(size);
    } else {
      FourTimesIsLeast(size, n);
    }
  }

  lemma TwiceIsLeast(size: nat)
    requires size == 1 || size == 4
    ensures LeastPow2AtLeast(size * 2, size * 2)
  {
    assert Pow2(1) == 2 && Pow2(2) == 4 && Pow2(3) == 8;
  }

  lemma FourTimesIsLeast(size: nat, n: nat)
    requires size == 1 || size == 4
    requires n == 3 || n == 4
    ensures LeastPow2AtLeast(size * 4, n * size)
  {
    assert Pow2(1) == 2 && Pow2(2) == 4 && Pow2(3) == 8 && Pow2(4) == 16;
    forall k: nat | n * size <= Pow2(k)
      ensures size * 4 <= Pow2(k)
    {
      if k < 4 {
        Pow2Monotone(k, 3);
        assert size == 1;
        assert k >= 2 by { if k < 2 { Pow2Monotone(k, 1); } }
        Pow2Monotone(2, k);
      } else {
        Pow2Monotone(4, k);
      }
    }
  }

  /** A matrix is as many columns as rows, each a vector of floats. */
  lemma MatrixLayout(n: nat)
    requires Valid(Matrix(n))
    ensures Align(Matrix(n)) == Align(Vector(Float, n))
    ensures Valid(Vector(Float, n)) && Size(Matrix(n)) == n * Size(Vector(Float, n))
  {
  }

  /** An array is its elements one after another, each of them aligned. */
  lemma ArrayLayout(e: Ty, n: nat)
    requires Valid(Array(e, n))
    ensures Size(Array(e, n)) == Wrap64(Bytes(n, Size(e))) && Align(Array(e, n)) == Align(e)
    ensures forall k: nat | k < n :: ElementIn(k, n, Size(e), Align(e))
  {
    assert Size(Array(e, n)) == Wrap64(Bytes(n, Size(e))) by { Commutes(n, Size(e)); }
    SizeIsMultiple(e);
    hide Size, Align, Wrap64, ElementIn;
    forall k: nat | k < n
      ensures ElementIn(k, n, Size(e), Align(e))
    {
      ElementFits(k, n, Size(e), Align(e));
    }
  }

  function Bytes(n: nat, size: nat): nat {
    n * size
  }

  lemma Commutes(x: nat, y: nat)
    ensures x * y == y * x
  {
  }

  /** Element k of n is aligned, and ends within the array. */
  predicate ElementIn(k: nat, n: nat, size: nat, a: nat) {
    a > 0 && Bytes(k, size) % a == 0 && Bytes(k, size) + size <= Bytes(n, size)
  }

  lemma ElementFits(k: nat, n: nat, size: nat, a: nat)
    requires k < n && AlignmentAllowed(a) && size % a == 0
    ensures ElementIn(k, n, size, a)
  {
    var q := size / a;
    QuotientTimes(size, a);
    assert k * size == k * q * a;
    MultipleIsZero(k * q, a);
    MulMonotone(k + 1, n, size);
    assert (k + 1) * size == k * size + size;
  }

  /**
   * Members one after another, each at the first aligned offset, with padding at the end up
   * to a multiple of the structure's alignment.
   */
  predicate Packed(offsets: seq<nat>, sizes: seq<nat>, alignments: seq<nat>, size: nat, alignment: nat) {
    && |offsets| == |sizes| == |alignments|
    && AlignmentAllowed(alignment)
    && (forall k | 0 <= k < |offsets| ::
          AlignmentAllowed(alignments[k]) && FirstAligned(offsets[k], End(offsets, sizes, k), alignments[k]))
    && FirstAligned(size, End(offsets, sizes, |offsets|), alignment)
  }

  /** x is the first multiple of a from `low` on. */
  predicate FirstAligned(x: nat, low: nat, a: nat)
    requires a > 0
  {
    x % a == 0 && low <= x < low + a
  }

  /** Where the first k members end. */
  function End(offsets: seq<nat>, sizes: seq<nat>, k: nat): nat
    requires k <= |offsets| == |sizes|
  {
    if k == 0 then 0 else offsets[k - 1] + sizes[k - 1]
  }

  /** There is only one way to pack members. */
  lemma PackedIsUnique(
      offsets: seq<nat>, size: nat, offsets': seq<nat>, size': nat,
      sizes: seq<nat>, alignments: seq<nat>, alignment: nat)
    requires Packed(offsets, sizes, alignments, size, alignment)
    requires Packed(offsets', sizes, alignments, size', alignment)
    ensures offsets == offsets' && size == size'
  {
    hide FirstAligned, End, AlignmentAllowed;
    PackedSame(offsets, offsets', size, size', sizes, alignments, alignment, |sizes|);
    assert offsets[..|sizes|] == offsets && offsets'[..|sizes|] == offsets';
    OneFirstAligned(size, size', alignment, End(offsets, sizes, |sizes|));
  }

  lemma {:induction false} PackedSame(
      offsets: seq<nat>, offsets': seq<nat>, size: nat, size': nat,
      sizes: seq<nat>, alignments: seq<nat>, alignment: nat, n: nat)
    requires Packed(offsets, sizes, alignments, size, alignment)
    requires Packed(offsets', sizes, alignments, size', alignment)
    requires n <= |sizes|
    ensures offsets[..n] == offsets'[..n] && End(offsets, sizes, n) == End(offsets', sizes, n)
  {
    hide AlignmentAllowed, FirstAligned;
    if n > 0 {
      PackedSame(offsets, offsets', size, size', sizes, alignments, alignment, n - 1);
      OneFirstAligned(offsets[n - 1], offsets'[n - 1], alignments[n - 1], End(offsets, sizes, n - 1));
    }
  }

  lemma OneFirstAligned(x: nat, y: nat, a: nat, low: nat)
    requires AlignmentAllowed(a) && FirstAligned(x, low, a) && FirstAligned(y, low, a)
    ensures x == y
  {
    assert a > 0;
    hide AlignmentAllowed;
    QuotientTimes(x, a);
    QuotientTimes(y, a);
    FirstMultiple(x / a, y / a, a, low);
    FirstMultiple(y / a, x / a, a, low);
  }

  /** Adding multiples of 2^64 does not change how a number is rounded. */
  lemma RoundUpWraps(n: nat, a: nat)
    requires AlignmentAllowed(a)
    ensures Wrap64(RoundUp(Wrap64(n), a)) == Wrap64(RoundUp(n, a))
  {
    RoundUpBounds(n, a);
    RoundUpBounds(Wrap64(n), a);
    var m := WordMultiple(a);
    var q := WholeWords(n);
    hide RoundUp, Wrap64, AlignmentAllowed;
    Regrouped(q, m, a);
    RoundUpShifts(Wrap64(n), q * m, a);
    WrapsAround(RoundUp(Wrap64(n), a), q);
  }

  lemma WholeWords(n: nat) returns (q: nat)
    ensures n == Wrap64(n) + q * WORD
  {
    q := n / WORD;
  }

  lemma RoundUpShifts(n: nat, k: nat, a: nat)
    requires a > 0
    ensures RoundUp(n + k * a, a) == RoundUp(n, a) + k * a
  {
    SameRemainder(n + a - 1, k, a);
  }

  lemma Regrouped(q: nat, m: nat, a: nat)
    ensures q * m * a == q * (m * a)
  {
  }

  lemma SameRemainder(x: nat, k: nat, a: nat)
    requires a > 0
    ensures (x + k * a) % a == x % a
  {
    DivModUnique(x % a, x / a + k, a);
    QuotientTimes(x, a);
    assert (x / a + k) * a == x / a * a + k * a;
  }

  lemma WrapsAround(x: nat, q: nat)
    ensures Wrap64(x + q * WORD) == Wrap64(x)
  {
  }

  lemma WrapsTwice(x: nat, y: nat)
    ensures Wrap64(Wrap64(x) + y) == Wrap64(x + y)
  {
  }

  /** The layout loop computes the exact end of the members, modulo 2^64. */
  lemma {:induction false} MembersSizeWraps(ms: seq<Ty>)
    requires AllValid(ms)
    ensures MembersSize(ms) == Wrap64(ExactEnd(ms))
    decreases |ms|
  {
    hide Wrap64, Size, Align, RoundUp, RoundUp64;
    if ms == [] {
      NothingWraps();
    } else {
      var front, last := ms[..|ms| - 1], ms[|ms| - 1];
      var end := ExactEnd(front);
      MembersSizeWraps(front);
      ValidAlignment(last);
      RoundUp64Wraps(Wrap64(end), Align(last));
      RoundUpWraps(end, Align(last));
      RoundUpBounds(end, Align(last));
      WrapsTwice(RoundUp(end, Align(last)), Size(last));
    }
  }

  lemma NothingWraps()
    ensures Wrap64(0) == 0
  {
  }

  /** Where the members are without wrap-around. */
  function ExactOffsets(ms: seq<Ty>): (r: seq<nat>)
    requires AllValid(ms)
    ensures |r| == |ms|
    ensures forall i | 0 <= i < |ms| ::
              AlignmentAllowed(Align(ms[i])) && r[i] == ExactOffset(ms, i)
  {
    forall i | 0 <= i < |ms| ensures AlignmentAllowed(Align(ms[i])) {
      ValidAlignment(ms[i]);
    }
    seq(|ms|, i requires 0 <= i < |ms| => ExactOffset(ms, i))
  }

  function ExactOffset(ms: seq<Ty>, i: nat): nat
    requires AllValid(ms) && i < |ms|
  {
    ValidAlignment(ms[i]);
    RoundUpBounds(ExactEnd(ms[..i]), Align(ms[i]));
    RoundUp(ExactEnd(ms[..i]), Align(ms[i]))
  }

  /** The registry computes the packed layout, modulo 2^64. */
  lemma StructureIsPacked(a: nat, ms: seq<Ty>, sizes: seq<nat>, alignments: seq<nat>) returns (size: nat)
    requires Valid(Structure(a, ms)) && AllValid(ms) && Describes(sizes, alignments, ms)
    ensures Packed(ExactOffsets(ms), sizes, alignments, size, a)
    ensures Size(Structure(a, ms)) == Wrap64(size)
    ensures forall i | 0 <= i < |ms| :: Offset(ms, i) == Wrap64(ExactOffsets(ms)[i])
  {
    StructureSize(a, ms);
    RoundUpBounds(ExactEnd(ms), a);
    size := RoundUp(ExactEnd(ms), a);
    var offsets := ExactOffsets(ms);
    StructureWraps(a, ms);
    hide Size, Align, Valid, RoundUp64, RoundUp, ExactEnd, AlignmentAllowed, Wrap64, FirstAligned, Offset;
    hide ExactOffset, End;
    EndIsExact(ms, sizes, alignments, |ms|);
    assert ms[..|ms|] == ms;
    RoundUpIsFirst(ExactEnd(ms), a);
    forall k | 0 <= k < |ms|
      ensures AlignmentAllowed(alignments[k]) && FirstAligned(offsets[k], End(offsets, sizes, k), alignments[k])
      ensures Offset(ms, k) == Wrap64(offsets[k])
    {
      MemberIsFirst(ms, sizes, alignments, k);
      OffsetWraps(ms, k);
    }
  }

  lemma EndIsExact(ms: seq<Ty>, sizes: seq<nat>, alignments: seq<nat>, k: nat)
    requires AllValid(ms) && Describes(sizes, alignments, ms) && k <= |ms|
    ensures End(ExactOffsets(ms), sizes, k) == ExactEnd(ms[..k])
  {
    hide Size, Align, Valid, ExactEnd, AlignmentAllowed;
    ExactEndIs(ms, k);
  }

  lemma MemberIsFirst(ms: seq<Ty>, sizes: seq<nat>, alignments: seq<nat>, k: nat)
    requires AllValid(ms) && Describes(sizes, alignments, ms) && k < |ms|
    ensures AlignmentAllowed(alignments[k])
    ensures FirstAligned(ExactOffsets(ms)[k], End(ExactOffsets(ms), sizes, k), alignments[k])
  {
    hide Size, Align, Valid, ExactEnd, FirstAligned, RoundUp;
    EndIsExact(ms, sizes, alignments, k);
    RoundUpIsFirst(ExactEnd(ms[..k]), alignments[k]);
  }

  lemma RoundUpIsFirst(n: nat, a: nat)
    requires AlignmentAllowed(a)
    ensures RoundUp(n, a) >= 0 && FirstAligned(RoundUp(n, a), n, a)
  {
    RoundUpBounds(n, a);
    RoundUpMultiple(n, a);
  }

  lemma StructureWraps(a: nat, ms: seq<Ty>)
    requires AllValid(ms) && AlignmentAllowed(a)
    ensures RoundUp64(MembersSize(ms), a) == Wrap64(RoundUp(ExactEnd(ms), a))
  {
    hide RoundUp64, RoundUp, ExactEnd, MembersSize, Wrap64;
    MembersSizeWraps(ms);
    RoundUp64Wraps(Wrap64(ExactEnd(ms)), a);
    RoundUpWraps(ExactEnd(ms), a);
  }

  lemma ExactEndIs(ms: seq<Ty>, k: nat)
    requires AllValid(ms) && k <= |ms|
    ensures ExactEnd(ms[..k]) == if k == 0 then 0 else ExactOffset(ms, k - 1) + Size(ms[k - 1])
  {
    hide RoundUp, Size;
    if k > 0 {
      assert ms[..k][..k - 1] == ms[..k - 1];
    }
  }

  lemma OffsetWraps(ms: seq<Ty>, i: nat)
    requires AllValid(ms) && i < |ms|
    ensures Offset(ms, i) == Wrap64(ExactOffset(ms, i))
  {
    hide Wrap64, Size, Align, RoundUp, RoundUp64, MembersSize, ExactEnd;
    MembersSizeWraps(ms[..i]);
    ValidAlignment(ms[i]);
    RoundUp64Wraps(Wrap64(ExactEnd(ms[..i])), Align(ms[i]));
    RoundUpWraps(ExactEnd(ms[..i]), Align(ms[i]));
  }

  // ----- The check of C++ offsets -----

  /** current_offset, a 32-bit word, before member i. */
  function Current(sizes: seq<nat>, alignments: seq<nat>, i: nat): nat
    requires i <= |sizes| == |alignments|
    requires forall k | 0 <= k < |alignments| :: AlignmentAllowed(alignments[k])
  {
    if i == 0 then 0 else
      Wrap32(Rounded(Current(sizes, alignments, i - 1), alignments[i - 1]) + sizes[i - 1])
  }

  /** Rounded up in 64 bits, kept in 32. */
  function Rounded(n: nat, a: nat): nat
    requires AlignmentAllowed(a)
  {
    Wrap32(RoundUp64(n, a))
  }

  /** The check finds member k where C++ puts it. */
  predicate Checked(sizes: seq<nat>, alignments: seq<nat>, offsets: seq<nat>, k: nat)
    requires k < |offsets| <= |sizes| == |alignments|
    requires forall k | 0 <= k < |alignments| :: AlignmentAllowed(alignments[k])
  {
    Rounded(Current(sizes, alignments, k), alignments[k]) == offsets[k]
  }

  predicate Accepts(sizes: seq<nat>, alignments: seq<nat>, offsets: seq<nat>, structSize: nat, structAlignment: nat)
    requires |sizes| == |alignments| == |offsets|
    requires forall k | 0 <= k < |alignments| :: AlignmentAllowed(alignments[k])
    requires AlignmentAllowed(structAlignment)
  {
    && (forall i | 0 <= i < |offsets| :: Checked(sizes, alignments, offsets, i))
    && Rounded(Current(sizes, alignments, |sizes|), structAlignment) == structSize
  }

  method Check(
      sizes: seq<nat>, alignments: seq<nat>, offsets: seq<nat>, structSize: nat, structAlignment: nat)
      returns (ok: bool)
    requires |sizes| == |alignments| == |offsets|
    requires forall k | 0 <= k < |alignments| :: AlignmentAllowed(alignments[k])
    requires AlignmentAllowed(structAlignment)
    ensures ok <==> Accepts(sizes, alignments, offsets, structSize, structAlignment)
  {
    hide Wrap64, Wrap32, Rounded, AlignmentAllowed;
    var currentOffset := 0;
    for i := 0 to |offsets|
      invariant currentOffset == Current(sizes, alignments, i)
      invariant forall k | 0 <= k < i :: Checked(sizes, alignments, offsets, k)
    {
      var offset := offsets[i];
      var size := sizes[i];
      var alignment := alignments[i];
      currentOffset := Rounded(currentOffset, alignment);
      if currentOffset != offset {
        assert !Checked(sizes, alignments, offsets, i);
        return false;
      }
      currentOffset := Wrap32(currentOffset + size);
    }
    currentOffset := Rounded(currentOffset, structAlignment);
    return currentOffset == structSize;
  }

  /** What C++ guarantees: members come in order, do not overlap and lie within the structure. */
  predicate InOrder(sizes: seq<nat>, offsets: seq<nat>, structSize: nat)
    requires |sizes| == |offsets|
  {
    forall i | 0 <= i < |sizes| ::
      offsets[i] + sizes[i] <= Next(offsets, i, structSize)
  }

  /** Where the member behind the first i starts, or the structure ends. */
  function Next(offsets: seq<nat>, i: nat, structSize: nat): nat {
    if i + 1 < |offsets| then offsets[i + 1] else structSize
  }

  /** `sizeof` and `alignof` of the members. */
  predicate Describes(sizes: seq<nat>, alignments: seq<nat>, ms: seq<Ty>)
    requires AllValid(ms)
  {
    && |sizes| == |alignments| == |ms|
    && forall i | 0 <= i < |ms| ::
         sizes[i] == Size(ms[i]) && alignments[i] == Align(ms[i]) && AlignmentAllowed(alignments[i])
  }

  /** The registry puts member k where C++ puts it. */
  predicate Agrees(ms: seq<Ty>, offsets: seq<nat>, k: nat)
    requires AllValid(ms) && k < |ms| == |offsets|
  {
    offsets[k] == Offset(ms, k)
  }

  /** The registry lays out the structure as C++ does. */
  predicate SameLayout(a: nat, ms: seq<Ty>, offsets: seq<nat>, structSize: nat)
    requires Valid(Structure(a, ms)) && |offsets| == |ms|
  {
    && (forall i | 0 <= i < |ms| :: Agrees(ms, offsets, i))
    && structSize == Size(Structure(a, ms))
  }

  lemma RoundedExactly(n: nat, a: nat, offset: nat)
    requires AlignmentAllowed(a) && n < UINT
    requires n <= offset && (offset == 0 ==> n == 0)
    ensures Rounded(n, a) == offset <==> offset < UINT && RoundUp64(n, a) == offset
  {
    hide Wrap64;
    RoundUp64Wraps(n, a);
    RoundUpBounds(n, a);
    RoundUpMultiple(n, a);
    hide RoundUp64, RoundUp;
    var r := RoundUp(n, a);
    assert r < WORD;
    if r >= UINT {
      assert r == UINT by { OnlyMultiple(r, a); }
    }
  }

  lemma OnlyMultiple(r: nat, a: nat)
    requires AlignmentAllowed(a) && r % a == 0 && UINT <= r < UINT + a
    ensures r == UINT
  {
  }

  lemma {:induction false} InOrderBound(sizes: seq<nat>, offsets: seq<nat>, structSize: nat, i: nat)
    requires |sizes| == |offsets| && InOrder(sizes, offsets, structSize) && i < |sizes|
    ensures offsets[i] + sizes[i] <= structSize
    decreases |sizes| - i
  {
    if i + 1 < |sizes| {
      InOrderBound(sizes, offsets, structSize, i + 1);
    }
  }

  /** As long as the offsets agree, the 32-bit offset of the check is the registry's. */
  lemma {:induction false} CurrentAgrees(
      sizes: seq<nat>, alignments: seq<nat>, offsets: seq<nat>, structSize: nat, ms: seq<Ty>, i: nat)
    requires AllValid(ms) && Describes(sizes, alignments, ms) && |offsets| == |ms| && i <= |ms|
    requires InOrder(sizes, offsets, structSize) && structSize < UINT
    requires forall k | 0 <= k < i :: Checked(sizes, alignments, offsets, k) || Agrees(ms, offsets, k)
    ensures Current(sizes, alignments, i) == MembersSize(ms[..i]) <= structSize
    ensures i < |ms| ==> MembersSize(ms[..i]) <= offsets[i]
    ensures forall k | 0 <= k < i :: Checked(sizes, alignments, offsets, k) && Agrees(ms, offsets, k)
  {
    hide Rounded, RoundUp64, Size, Valid, Align, AlignmentAllowed, InOrder, Checked, Agrees;
    if i == 0 {
      assert ms[..0] == [];
    } else {
      CurrentAgrees(sizes, alignments, offsets, structSize, ms, i - 1);
      OneMorePlaced(sizes, alignments, offsets, structSize, ms, i - 1);
    }
  }

  lemma OneMorePlaced(
      sizes: seq<nat>, alignments: seq<nat>, offsets: seq<nat>, structSize: nat, ms: seq<Ty>, i: nat)
    requires AllValid(ms) && Describes(sizes, alignments, ms) && |offsets| == |ms| && i < |ms|
    requires InOrder(sizes, offsets, structSize) && structSize < UINT
    requires Current(sizes, alignments, i) == MembersSize(ms[..i]) <= structSize && MembersSize(ms[..i]) <= offsets[i]
    requires Checked(sizes, alignments, offsets, i) || Agrees(ms, offsets, i)
    ensures Checked(sizes, alignments, offsets, i) && Agrees(ms, offsets, i)
    ensures Current(sizes, alignments, i + 1) == MembersSize(ms[..i + 1]) <= structSize
    ensures i + 1 < |ms| ==> MembersSize(ms[..i + 1]) <= offsets[i + 1]
  {
    InOrderBound(sizes, offsets, structSize, i);
    hide Rounded, RoundUp64, Size, Valid, Align;
    RoundedExactly(MembersSize(ms[..i]), alignments[i], offsets[i]);
    assert ms[..i + 1][..i] == ms[..i];
  }

  /**
   * C++ members laid out in order pass the check exactly when the registry puts every
   * member where C++ puts it and computes the size of the structure as `sizeof` does.
   */
  lemma AcceptedIffSameLayout(
      sizes: seq<nat>, alignments: seq<nat>, offsets: seq<nat>, structSize: nat, a: nat, ms: seq<Ty>)
    requires Valid(Structure(a, ms)) && AllValid(ms)
    requires Describes(sizes, alignments, ms) && |offsets| == |ms|
    requires InOrder(sizes, offsets, structSize)
    ensures AlignmentAllowed(a)
    ensures Accepts(sizes, alignments, offsets, structSize, a) <==>
            structSize < UINT && SameLayout(a, ms, offsets, structSize)
  {
    StructureSize(a, ms);
    hide RoundUp64, Size, Valid, Align, Describes, InOrder, MembersSize, Checked, Agrees, AlignmentAllowed;
    assert ms[..|ms|] == ms;
    if structSize < UINT
      && (Accepts(sizes, alignments, offsets, structSize, a) || SameLayout(a, ms, offsets, structSize))
    {
      CurrentAgrees(sizes, alignments, offsets, structSize, ms, |ms|);
      RoundedExactly(MembersSize(ms), a, structSize);
    }
  }
}
