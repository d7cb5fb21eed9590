/** Wrap-aware 32-bit sequence arithmetic (internal/seq).

    A sequence number is a residue modulo 2^32. `Fwd(a, b)` is the unsigned
    machine subtraction `b - a`; `Distance` and `Less` are the circular
    comparisons built on it, pinned to "forward" at exact antipodes. */
module Serial {
  import opened Arith

  const SPACE: int := 0x1_0000_0000
  const HALF: int := 0x8000_0000

  type u16 = x: int | 0 <= x < 0x1_0000
  type u32 = x: int | 0 <= x < 0x1_0000_0000
  type u64 = x: int | 0 <= x < 0x1_0000_0000_0000_0000

  /** The machine difference `b - a` modulo 2^32. */
  function Fwd(a: u32, b: u32): u32 {
    if a <= b then b - a else b - a + 0x1_0000_0000
  }

  /** The machine sum `a + n` modulo 2^32, for one wrap at most. */
  function Add(a: u32, n: int): u32
    requires 0 <= n <= SPACE
  {
    if a + n < 0x1_0000_0000 then a + n else a + n - 0x1_0000_0000
  }

  /** The machine sum for any addend. */
  function Plus(a: u32, n: int): u32 { (a + n) % 0x1_0000_0000 }

  /** Signed shortest circular distance from a to b. */
  function Distance(a: u32, b: u32): int {
    var d := Fwd(a, b);
    if d <= 0x8000_0000 then d else d - 0x1_0000_0000
  }

  /** a is circularly before b. */
  predicate Less(a: u32, b: u32) {
    var d := Fwd(a, b);
    d != 0 && d <= 0x8000_0000
  }

  /** A ring of n slots addressed by `seq & (n - 1)`: n divides the space. */
  predicate RingSize(n: int) {
    1 <= n <= 0x8000_0000 && 0x1_0000_0000 % n == 0
  }

  // ---- ring addressing ----

  /** A wrapped sum addresses the same slot as the unwrapped one. */
  lemma AddIndex(a: u32, k: int, n: int)
    requires RingSize(n) && 0 <= k <= SPACE
    ensures Add(a, k) % n == (a + k) % n
  {
    if a + k >= SPACE {
      var m := SPACE / n;
      assert SPACE == n * m;
      ModAddMultiple(a + k - SPACE, m, n);
      assert m * n == n * m;
    }
  }

  /** Offsets below n from one cursor occupy distinct slots. */
  lemma OffsetsDistinct(c: u32, j: int, k: int, n: int)
    requires RingSize(n) && 0 <= j < n && 0 <= k < n
    requires Add(c, j) % n == Add(c, k) % n
    ensures j == k
  {
    AddIndex(c, j, n);
    AddIndex(c, k, n);
    SameClass(c + j, c + k, n);
  }

  // ---- sums and differences ----

  lemma FwdAdd(a: u32, n: int)
    requires 0 <= n < 0x1_0000_0000
    ensures Fwd(a, Add(a, n)) == n
  {
  }

  lemma PlusFwd(a: u32, b: u32)
    ensures Plus(a, Fwd(a, b)) == b
  {
  }

  lemma FwdPlus(a: u32, n: int)
    ensures Fwd(a, Plus(a, n)) == n % 0x1_0000_0000
  {
  }

  lemma PlusPlus(a: u32, m: int, n: int)
    ensures Plus(Plus(a, m), n) == Plus(a, m + n)
  {
    assert ((a + m) % 0x1_0000_0000 + n) % 0x1_0000_0000 == (a + m + n) % 0x1_0000_0000;
  }

  lemma PlusDistance(a: u32, b: u32)
    ensures Plus(a, Distance(a, b)) == b && -0x8000_0000 < Distance(a, b) <= 0x8000_0000
  {
  }

  lemma DistancePlus(a: u32, n: int)
    requires -0x8000_0000 < n <= 0x8000_0000
    ensures Distance(a, Plus(a, n)) == n
  {
  }

  lemma FwdBack(a: u32, n: int)
    requires 0 <= n < 0x1_0000_0000
    ensures Fwd(Plus(a, 0 - n), a) == n
  {
  }
}
