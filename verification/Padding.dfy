/** The address arithmetic of memory/memoryPool.cc and the size classes of include/memoryPool.h. */
module Padding {
  import opened Arithmetic

  const TWO64: nat := 0x1_0000_0000_0000_0000
  const SLOT_BASE_SIZE: nat := 8
  const MAX_SLOT_SIZE: nat := 512
  const POOLS: nat := 64

  /** padPointer: 64-bit unsigned subtraction, then the remainder. */
  function PadPointer(p: nat, align: nat): nat
    requires align > 0
  {
    ((align - p) % TWO64) % align
  }

  /** The slot sizes that initMemoryPool gives out. */
  predicate SlotSize(n: nat) { 8 <= n <= MAX_SLOT_SIZE && n % 8 == 0 }

  // ----- remainders -----

  lemma ModStep(x: nat, m: nat, q: nat, r: nat)
    requires m > 0 && x == m * q + r && r < m
    ensures x % m == r
  {
    var d := x / m - q;
    assert x == m * (x / m) + x % m;
    assert m * d == m * (x / m) - m * q;
    if d >= 1 { ProductMonotone(1, d, m); }
    if d <= -1 { ProductMonotone(d, -1, m); }
  }

  lemma EightfoldProduct(m: nat, k: nat, q: int)
    requires m == 8 * k
    ensures m * q == 8 * (k * q)
  {
  }

  lemma EightfoldDifference(x: nat, y: int)
    requires x % 8 == 0
    ensures (x - 8 * y) % 8 == 0
  {
    assert x - 8 * y == 8 * (x / 8 - y);
  }

  lemma EightfoldRest(x: nat, m: nat, q: int, r: int)
    requires x == m * q + r && x % 8 == 0 && m % 8 == 0
    ensures r % 8 == 0
  {
    EightfoldProduct(m, m / 8, q);
    EightfoldDifference(x, m / 8 * q);
  }

  lemma ModOfMultiples(x: nat, m: nat)
    requires m > 0 && x % 8 == 0 && m % 8 == 0
    ensures (x % m) % 8 == 0
  {
    DivMod(x, m);
    EightfoldRest(x, m, x / m, x % m);
  }

  function Wrapped(p: nat, align: nat): nat
    requires p < TWO64
  {
    if p <= align then align - p else TWO64 + align - p
  }

  lemma WrappedDifference(p: nat, align: nat)
    requires p < TWO64 && align < TWO64
    ensures (align - p) % TWO64 == Wrapped(p, align)
  {
  }

  lemma WrappedMultiple(p: nat, align: nat)
    requires p < TWO64 && p % 8 == 0 && align % 8 == 0
    ensures Wrapped(p, align) % 8 == 0
  {
  }

  /** Padding keeps 8-byte alignment and is less than a slot, wraparound or not. */
  lemma PadBounds(p: nat, align: nat)
    requires SlotSize(align) && p % 8 == 0 && p < TWO64
    ensures PadPointer(p, align) < align && PadPointer(p, align) % 8 == 0
  {
    WrappedDifference(p, align);
    WrappedMultiple(p, align);
    ModOfMultiples(Wrapped(p, align), align);
  }

  // ----- full alignment -----

  function Pow2(n: nat): nat { if n == 0 then 1 else 2 * Pow2(n - 1) }

  predicate IsPow2(k: nat) { k == 1 || (k > 1 && k % 2 == 0 && IsPow2(k / 2)) }

  lemma {:induction false} DivisorOfPow2(k: nat, q: nat, n: nat)
    requires k > 0 && k * q == Pow2(n)
    ensures IsPow2(k)
    decreases k + n
  {
    if k % 2 == 0 {
      assert k * q == 2 * ((k / 2) * q);
      if n > 0 { DivisorOfPow2(k / 2, q, n - 1); }
    } else if n == 0 {
      if k > 1 { ProductMonotone(2, k, q); }
    } else {
      OddFactor(k, q);
      assert k * q == 2 * (k * (q / 2));
      DivisorOfPow2(k, q / 2, n - 1);
    }
  }

  lemma OddFactor(k: nat, q: nat)
    requires k % 2 == 1 && (k * q) % 2 == 0
    ensures q % 2 == 0
  {
    var a := k / 2;
    assert k * q == (2 * a + 1) * q == 2 * (a * q) + q;
  }

  lemma {:induction false} Pow2Divides(k: nat, n: nat) returns (q: nat)
    requires IsPow2(k) && k <= Pow2(n)
    ensures k * q == Pow2(n)
    decreases n
  {
    if k == 1 {
      q := Pow2(n);
    } else {
      q := Pow2Divides(k / 2, n - 1);
      assert k * q == 2 * ((k / 2) * q);
    }
  }

  lemma Pow64()
    ensures Pow2(64) == TWO64
  {
    assert Pow2(8) == 0x100;
    assert Pow2(16) == 0x1_0000;
    assert Pow2(24) == 0x100_0000;
    assert Pow2(32) == 0x1_0000_0000;
    assert Pow2(40) == 0x100_0000_0000;
    assert Pow2(48) == 0x1_0000_0000_0000;
    assert Pow2(56) == 0x100_0000_0000_0000;
  }

  /** Where the padded pointer lands: on a multiple of the alignment if the subtraction did not wrap,
      else on one shifted by 2^64. */
  lemma PaddedRemainder(p: nat, align: nat)
    requires 0 < align && p < TWO64 && align < TWO64
    ensures (p + PadPointer(p, align)) % align == if p <= align then 0 else TWO64 % align
  {
    WrappedDifference(p, align);
    var x := Wrapped(p, align);
    var target := p + x;
    assert x == align * (x / align) + x % align;
    assert p + PadPointer(p, align) == target - align * (x / align);
    if p <= align {
      SameRemainder(align, align, x / align);
      ModStep(align, align, 1, 0);
    } else {
      SameRemainder(TWO64 + align, align, x / align);
      SameRemainder(TWO64 + align, align, 1);
    }
  }

  lemma SameRemainder(x: nat, m: nat, k: nat)
    requires m > 0 && m * k <= x
    ensures (x - m * k) % m == x % m
  {
    var q, r := x / m, x % m;
    assert x == m * q + r;
    assert x - m * k == m * (q - k) + r;
    if q < k { ProductMonotone(q + 1, k, m); }
    ModStep(x - m * k, m, q - k, r);
  }

  predicate Lands(p: nat, align: nat)
    requires align > 0
  {
    (p + PadPointer(p, align)) % align == 0
  }

  ghost predicate AlwaysAligned(align: nat)
    requires align > 0
  {
    forall p: nat {:trigger Lands(p, align)} :: p % 8 == 0 && p < TWO64 ==> Lands(p, align)
  }

  lemma WrapsEvenlyIff(align: nat)
    requires 0 < align <= MAX_SLOT_SIZE
    ensures TWO64 % align == 0 <==> IsPow2(align)
  {
    Pow64();
    if IsPow2(align) {
      var q := Pow2Divides(align, 64);
      ModStep(TWO64, align, q, 0);
    } else if TWO64 % align == 0 {
      assert TWO64 == align * (TWO64 / align) + TWO64 % align;
      DivisorOfPow2(align, TWO64 / align, 64);
    }
  }

  /** Slots start on multiples of the slot size, whatever the block, exactly when it is a power of two. */
  lemma AlignedIff(align: nat)
    requires SlotSize(align)
    ensures AlwaysAligned(align) <==> IsPow2(align)
  {
    WrapsEvenlyIff(align);
    if IsPow2(align) {
      forall p: nat | p % 8 == 0 && p < TWO64 ensures Lands(p, align) {
        PaddedRemainder(p, align);
      }
    } else {
      PaddedRemainder(align + 8, align);
      assert !Lands(align + 8, align);
    }
  }

  // ----- size classes -----

  /** The pool that useMemory and freeMemory pick for 1..512 bytes. */
  function PoolIndex(size: nat): int { (size + 7) / SLOT_BASE_SIZE - 1 }

  /** initMemoryPool. */
  function PoolSlotSize(index: nat): nat { (index + 1) * SLOT_BASE_SIZE }

  /** It is one of the 64 pools, its slots are large enough, and those of no smaller pool are. */
  lemma SmallestSufficientPool(size: nat)
    requires 1 <= size <= MAX_SLOT_SIZE
    ensures 0 <= PoolIndex(size) < POOLS && SlotSize(PoolSlotSize(PoolIndex(size)))
    ensures forall i: nat :: i < POOLS ==> (size <= PoolSlotSize(i) <==> PoolIndex(size) <= i)
  {
  }
}
