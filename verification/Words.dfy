/** 64-bit words as naturals below 2^64, with the bit operations used by `next_pow2`
    (src/core/mathematics.h) and by the allocator's size rounding (src/core/first_fit.cpp). */
module Words {
  import opened Integers

  function Pow2(k: nat): (p: nat)
    ensures p >= 1
  {
    if k == 0 then 1 else 2 * Pow2(k - 1)
  }

  const WIDTH: nat := 64

  lemma WordIsPow2()
    ensures Pow2(WIDTH) == WORD && Pow2(63) == 0x8000_0000_0000_0000
  {
    assert Pow2(8) == 0x100;
    assert Pow2(16) == 0x1_0000;
    assert Pow2(24) == 0x100_0000;
    assert Pow2(32) == 0x1_0000_0000;
    assert Pow2(40) == 0x100_0000_0000;
    assert Pow2(48) == 0x1_0000_0000_0000;
    assert Pow2(56) == 0x100_0000_0000_0000;
    assert Pow2(63) == 0x8000_0000_0000_0000;
  }

  function And(x: nat, y: nat): nat {
    if x == 0 || y == 0 then 0 else 2 * And(x / 2, y / 2) + (x % 2) * (y % 2)
  }

  function Or(x: nat, y: nat): nat {
    if x == 0 && y == 0 then 0 else 2 * Or(x / 2, y / 2) + if x % 2 == 1 || y % 2 == 1 then 1 else 0
  }

  function ShiftRight(x: nat, n: nat): nat {
    if n == 0 then x else ShiftRight(x / 2, n - 1)
  }

  function Not(x: nat): nat
    requires x < WORD
  {
    WORD - 1 - x
  }

  predicate Bit(x: nat, i: nat) {
    if i == 0 then x % 2 == 1 else Bit(x / 2, i - 1)
  }

  lemma {:induction false} OrBit(x: nat, y: nat, i: nat)
    ensures Bit(Or(x, y), i) <==> Bit(x, i) || Bit(y, i)
  {
    if x == 0 && y == 0 {
    } else {
      assert Or(x, y) / 2 == Or(x / 2, y / 2);
      if i > 0 {
        OrBit(x / 2, y / 2, i - 1);
      }
    }
  }

  lemma {:induction false} OrBound(x: nat, y: nat, k: nat)
    requires x < Pow2(k) && y < Pow2(k)
    ensures Or(x, y) < Pow2(k)
  {
    if k > 0 && (x > 0 || y > 0) {
      OrBound(x / 2, y / 2, k - 1);
    }
  }

  lemma {:induction false} ShiftBit(x: nat, n: nat, i: nat)
    ensures Bit(ShiftRight(x, n), i) <==> Bit(x, i + n)
  {
    if n > 0 {
      ShiftBit(x / 2, n - 1, i);
    }
  }

  lemma {:induction false} ShiftBound(x: nat, n: nat)
    ensures ShiftRight(x, n) <= x
  {
    if n > 0 {
      ShiftBound(x / 2, n - 1);
    }
  }

  /** The only word below 2^k with its k low bits set is 2^k - 1. */
  lemma {:induction false} AllOnes(x: nat, k: nat)
    requires x < Pow2(k) && forall i | 0 <= i < k :: Bit(x, i)
    ensures x == Pow2(k) - 1
  {
    if k > 0 {
      assert Bit(x, 0);
      forall i | 0 <= i < k - 1 ensures Bit(x / 2, i) {
        assert Bit(x, i + 1);
      }
      AllOnes(x / 2, k - 1);
    }
  }

  lemma {:induction false} TopBit(x: nat, k: nat)
    requires Pow2(k) <= x < Pow2(k + 1)
    ensures Bit(x, k)
  {
    if k > 0 {
      TopBit(x / 2, k - 1);
    }
  }

  /** Bits top, top - 1, ... (`m` of them, or down to bit 0) of `v` are set and none above. */
  ghost predicate Smeared(v: nat, top: nat, m: nat) {
    v < Pow2(top + 1) && forall i: nat | i <= top && top < i + m :: Bit(v, i)
  }

  function Smear(v: nat, n: nat): nat { Or(v, ShiftRight(v, n)) }

  lemma SmearDoubles(v: nat, top: nat, m: nat)
    requires Smeared(v, top, m)
    ensures Smeared(Smear(v, m), top, 2 * m)
  {
    ShiftBound(v, m);
    OrBound(v, ShiftRight(v, m), top + 1);
    forall i: nat | i <= top && top < i + 2 * m ensures Bit(Smear(v, m), i) {
      OrBit(v, ShiftRight(v, m), i);
      ShiftBit(v, m, i);
    }
  }

  ghost predicate IsPow2(x: nat) { exists k: nat :: x == Pow2(k) }

  ghost predicate LeastPow2AtLeast(r: nat, v: nat) {
    IsPow2(r) && v <= r && forall k: nat :: v <= Pow2(k) ==> r <= Pow2(k)
  }

  lemma {:induction false} Pow2Monotone(a: nat, b: nat)
    requires a <= b
    ensures Pow2(a) <= Pow2(b)
    ensures a < b ==> Pow2(a) < Pow2(b)
  {
    if a < b {
      Pow2Monotone(a, b - 1);
    }
  }

  lemma {:induction false} HighestBit(v: nat, k: nat) returns (top: nat)
    requires 1 <= v < Pow2(k)
    ensures top < k && Pow2(top) <= v < Pow2(top + 1)
  {
    if v >= Pow2(k - 1) {
      top := k - 1;
    } else {
      top := HighestBit(v, k - 1);
    }
  }

  /** Doubling the smeared stretch six times fills the word below its top bit. */
  lemma SmearAll(v: nat, top: nat)
    requires Smeared(v, top, 1) && top < WIDTH
    ensures Smear(Smear(Smear(Smear(Smear(Smear(v, 1), 2), 4), 8), 16), 32) == Pow2(top + 1) - 1
  {
    hide Smear, Smeared;
    SmearDoubles(v, top, 1);
    var v2 := Smear(v, 1);
    SmearDoubles(v2, top, 2);
    var v4 := Smear(v2, 2);
    SmearDoubles(v4, top, 4);
    var v8 := Smear(v4, 4);
    SmearDoubles(v8, top, 8);
    var v16 := Smear(v8, 8);
    SmearDoubles(v16, top, 16);
    var v32 := Smear(v16, 16);
    SmearDoubles(v32, top, 32);
    SmearedIsAllOnes(Smear(v32, 32), top);
  }

  lemma SmearOne(v: nat, top: nat)
    requires Pow2(top) <= v < Pow2(top + 1)
    ensures Smeared(v, top, 1)
  {
    TopBit(v, top);
  }

  /** `next_pow2` on 64-bit words: the least power of two at least `v` for 1 <= v <= 2^63, and 0 otherwise. */
  method NextPow2(value: nat) returns (r: nat)
    requires value < WORD
    ensures r == 0 <==> value == 0 || value > 0x8000_0000_0000_0000
    ensures r != 0 ==> LeastPow2AtLeast(r, value)
  {
    hide Smear, Smeared, Pow2;
    var v := (value + WORD - 1) % WORD;
    ghost var start := v;
    ghost var top := 0;
    if v > 0 {
      WordIsPow2();
      top := HighestBit(v, WIDTH);
      SmearOne(v, top);
      SmearAll(v, top);
      FilledIsLeast(v, top);
    } else {
      ZeroStaysZero();
    }
    v := Smear(v, 1);
    v := Smear(v, 2);
    v := Smear(v, 4);
    v := Smear(v, 8);
    v := Smear(v, 16);
    v := Smear(v, 32);
    r := (v + 1) % WORD;
  }

  lemma ZeroStaysZero()
    ensures forall n: nat | n <= 32 :: Smear(0, n) == 0
    ensures LeastPow2AtLeast(1, 1)
  {
    forall n: nat | n <= 32 ensures Smear(0, n) == 0 {
      ShiftBound(0, n);
    }
    assert Pow2(0) == 1;
  }

  lemma SmearedIsAllOnes(v: nat, top: nat)
    requires top < WIDTH && Smeared(v, top, WIDTH)
    ensures v == Pow2(top + 1) - 1
  {
    forall i: nat | i < top + 1 ensures Bit(v, i) {
      assert i <= top && top < i + WIDTH;
    }
    AllOnes(v, top + 1);
  }

  lemma FilledIsLeast(v: nat, top: nat)
    requires Pow2(top) <= v < Pow2(top + 1) && top < WIDTH
    ensures LeastPow2AtLeast(Pow2(top + 1), v + 1)
    ensures Pow2(top + 1) <= WORD
    ensures Pow2(top + 1) == WORD <==> v + 1 > 0x8000_0000_0000_0000
  {
    WordIsPow2();
    Pow2Monotone(top + 1, WIDTH);
    if top < 63 {
      Pow2Monotone(top + 1, 63);
    }
    forall k: nat | v + 1 <= Pow2(k) ensures Pow2(top + 1) <= Pow2(k) {
      if k <= top {
        Pow2Monotone(k, top);
      } else {
        Pow2Monotone(top + 1, k);
      }
    }
  }

  lemma LeastPow2InRange(r: nat, v: nat)
    requires LeastPow2AtLeast(r, v) && 1 <= v <= 0x8000_0000_0000_0000
    ensures IsPow2(r) && 1 <= r < WORD
  {
    WordIsPow2();
    assert v <= Pow2(63);
  }

  // ---------------------------------------------------------------- rounding a size to the alignment

  /** The k low bits of a word, and the word with its k low bits cleared. */
  function Low(x: nat, k: nat): nat {
    if k == 0 then 0 else 2 * Low(x / 2, k - 1) + x % 2
  }

  function High(x: nat, k: nat): nat {
    if k == 0 then x else 2 * High(x / 2, k - 1)
  }

  lemma {:induction false} LowHigh(x: nat, k: nat)
    ensures Low(x, k) < Pow2(k) && High(x, k) + Low(x, k) == x
  {
    if k > 0 {
      LowHigh(x / 2, k - 1);
    }
  }

  lemma {:induction false} LowOfAll(x: nat, k: nat)
    requires x < Pow2(k)
    ensures Low(x, k) == x
  {
    if k > 0 {
      LowOfAll(x / 2, k - 1);
    }
  }

  lemma {:induction false} LowOfZero(k: nat)
    ensures Low(0, k) == 0 && High(0, k) == 0
  {
    if k > 0 {
      LowOfZero(k - 1);
    }
  }

  lemma {:induction false} HighIsMultiple(x: nat, k: nat)
    ensures High(x, k) == ShiftRight(x, k) * Pow2(k)
  {
    if k > 0 {
      HighIsMultiple(x / 2, k - 1);
      Regroup(ShiftRight(x / 2, k - 1), Pow2(k - 1));
    }
  }

  lemma Regroup(s: nat, p: nat)
    ensures 2 * (s * p) == s * (2 * p)
  {
  }

  lemma {:induction false} AndLowMask(x: nat, k: nat)
    ensures And(x, Pow2(k) - 1) == Low(x, k)
  {
    if x == 0 {
      LowOfZero(k);
    } else if k > 0 {
      AndLowMask(x / 2, k - 1);
      assert (Pow2(k) - 1) / 2 == Pow2(k - 1) - 1;
    }
  }

  lemma {:induction false} AndHighMask(x: nat, k: nat, w: nat)
    requires k <= w && x < Pow2(w)
    ensures Pow2(k) <= Pow2(w) && And(x, Pow2(w) - Pow2(k)) == High(x, k)
  {
    Pow2Monotone(k, w);
    if x == 0 {
      LowOfZero(k);
    } else if k == 0 {
      AndLowMask(x, w);
      LowOfAll(x, w);
    } else {
      AndHighMask(x / 2, k - 1, w - 1);
      AndEven(x, Pow2(w) - Pow2(k), Pow2(w - 1) - Pow2(k - 1));
    }
  }

  lemma AndEven(x: nat, y: nat, half: nat)
    requires y == 2 * half
    ensures And(x, y) == 2 * And(x / 2, half)
  {
    assert y / 2 == half && y % 2 == 0;
    if x == 0 || y == 0 {
      assert And(x / 2, half) == 0;
    }
  }

  /** The allocator's rounding of a request to its alignment, in 64-bit arithmetic. */
  function AlignedSize(size: nat, alignment: nat): nat
    requires size < WORD && 1 <= alignment < WORD
  {
    var mask := alignment - 1;
    if And(size, mask) == 0 then size else (And(size, Not(mask)) + alignment) % WORD
  }

  ghost predicate IsMultiple(x: nat, a: nat) { exists q: nat :: x == q * a }

  lemma MultipleSum(x: nat, y: nat, a: nat)
    requires IsMultiple(x, a) && IsMultiple(y, a)
    ensures IsMultiple(x + y, a)
  {
    var q: nat :| x == q * a;
    var r: nat :| y == r * a;
    assert x + y == (q + r) * a;
  }

  lemma {:induction false} Pow2Sum(a: nat, b: nat)
    ensures Pow2(a + b) == Pow2(a) * Pow2(b)
  {
    if a > 0 {
      Pow2Sum(a - 1, b);
      Regroup(Pow2(b), Pow2(a - 1));
    }
  }

  lemma AlignedSizeParts(size: nat, k: nat)
    requires size < WORD && k < WIDTH
    ensures Pow2(k) < WORD
    ensures AlignedSize(size, Pow2(k)) == if Low(size, k) == 0 then size else (High(size, k) + Pow2(k)) % WORD
  {
    WordIsPow2();
    Pow2Monotone(k, WIDTH);
    AndLowMask(size, k);
    AndHighMask(size, k, WIDTH);
  }

  /** Rounding up within m multiples of a: the next multiple stays in range unless it is the m-th. */
  lemma NextMultiple(q: nat, m: nat, a: nat, low: nat)
    requires low < a && q * a + low < m * a
    ensures IsMultiple(q * a, a) && IsMultiple(q * a + a, a) && IsMultiple(0, a)
    ensures q * a + a == m * a || q * a + low < m * a - a
    ensures q * a + a <= m * a
  {
    assert (q + 1) * a == q * a + a;
    assert 0 == 0 * a;
    if q >= m {
      MulMonotone(m, q, a);
    } else if q + 1 < m {
      MulMonotone(q + 2, m, a);
      assert (q + 2) * a == q * a + a + a;
    }
  }

  /** The rounded size, with the alignment as the k-th power of two and the word size as `m` multiples of it. */
  lemma RoundedWord(size: nat, q: nat, m: nat, a: nat, low: nat, rounded: nat)
    requires low < a && size == q * a + low && size < WORD && m * a == WORD
    requires rounded == if low == 0 then size else (q * a + a) % WORD
    ensures IsMultiple(rounded, a) && rounded < size + a
    ensures rounded >= size <==> size <= WORD - a
    ensures rounded == 0 <==> size == 0 || size > WORD - a
  {
    NextMultiple(q, m, a, low);
    hide IsMultiple;
  }

  /** For a power-of-two alignment the rounded size is a multiple of it, less than one alignment above the
      request; it covers the request exactly when rounding up does not leave 64 bits. */
  lemma AlignedSizeCovers(size: nat, alignment: nat)
    requires size < WORD && 1 <= alignment < WORD && IsPow2(alignment)
    ensures IsMultiple(AlignedSize(size, alignment), alignment)
    ensures AlignedSize(size, alignment) >= size <==> size <= WORD - alignment
    ensures AlignedSize(size, alignment) < size + alignment
    ensures AlignedSize(size, alignment) == 0 <==> size == 0 || size > WORD - alignment
  {
    var k: nat :| alignment == Pow2(k);
    WordIsPow2();
    if k >= WIDTH {
      Pow2Monotone(WIDTH, k);
    }
    AlignedSizeParts(size, k);
    LowHigh(size, k);
    HighIsMultiple(size, k);
    Pow2Sum(WIDTH - k, k);
    hide AlignedSize, Low, High, Pow2, IsMultiple, And;
    RoundedWord(size, ShiftRight(size, k), Pow2(WIDTH - k), alignment, Low(size, k), AlignedSize(size, alignment));
  }
}
