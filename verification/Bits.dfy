/** Bit operations on unsigned machine words, as natural numbers. */
module Bits {

  /** Bit i of w. */
  predicate Bit(w: nat, i: nat) {
    if i == 0 then w % 2 == 1 else Bit(w / 2, i - 1)
  }

  /** `w | 1 << i`. */
  function SetBit(w: nat, i: nat): nat {
    if i == 0 then w - w % 2 + 1 else 2 * SetBit(w / 2, i - 1) + w % 2
  }

  /** `w << k`, not yet cut to the word. */
  function Shl(w: nat, k: nat): nat {
    if k == 0 then w else 2 * Shl(w, k - 1)
  }

  /** The low n bits of w. */
  function Low(w: nat, n: nat): nat {
    if n == 0 then 0 else 2 * Low(w / 2, n - 1) + w % 2
  }

  function Pow2(n: nat): nat { if n == 0 then 1 else 2 * Pow2(n - 1) }

  lemma {:induction false} BitSet(w: nat, j: nat, i: nat)
    ensures Bit(SetBit(w, j), i) <==> i == j || Bit(w, i)
    decreases j
  {
    var r := SetBit(w, j);
    if j > 0 {
      if i > 0 {
        assert r / 2 == SetBit(w / 2, j - 1);
        BitSet(w / 2, j - 1, i - 1);
      }
    } else if i > 0 {
      assert r / 2 == w / 2;
    }
  }

  lemma {:induction false} BitShl(w: nat, k: nat, i: nat)
    ensures Bit(Shl(w, k), i) <==> i >= k && Bit(w, i - k)
    decreases k
  {
    if k > 0 && i > 0 {
      assert Shl(w, k) / 2 == Shl(w, k - 1);
      BitShl(w, k - 1, i - 1);
    }
  }

  lemma {:induction false} BitLow(w: nat, n: nat, i: nat)
    ensures Bit(Low(w, n), i) <==> i < n && Bit(w, i)
    decreases n
  {
    if n == 0 {
      BitZero(i);
    } else if i > 0 {
      assert Low(w, n) / 2 == Low(w / 2, n - 1);
      BitLow(w / 2, n - 1, i - 1);
    }
  }

  lemma {:induction false} BitZero(i: nat)
    ensures !Bit(0, i)
  {
    if i > 0 { BitZero(i - 1); }
  }

  lemma {:induction false} BitOne(i: nat)
    ensures Bit(1, i) <==> i == 0
  {
    if i > 0 { BitZero(i - 1); }
  }

  /** The low n bits are a number below 2^n. */
  lemma {:induction false} LowBelow(w: nat, n: nat)
    ensures Low(w, n) < Pow2(n)
  {
    if n > 0 { LowBelow(w / 2, n - 1); }
  }

  lemma {:induction false} SetBelow(w: nat, j: nat, n: nat)
    requires w < Pow2(n) && j < n
    ensures SetBit(w, j) < Pow2(n)
    decreases n
  {
    Halves(w, Pow2(n - 1));
    if j > 0 { SetBelow(w / 2, j - 1, n - 1); }
  }

  lemma Halves(w: nat, p: nat)
    requires w < 2 * p
    ensures w / 2 < p && w - w % 2 + 1 < 2 * p
  {
  }

  // ---- exclusive or ----

  function Xor(a: nat, b: nat): nat
    decreases a + b
  {
    if a == 0 && b == 0 then 0 else 2 * Xor(a / 2, b / 2) + (a + b) % 2
  }

  /** The exclusive or of two n-bit numbers has n bits. */
  lemma {:induction false} XorBelow(a: nat, b: nat, n: nat)
    requires a < Pow2(n) && b < Pow2(n)
    ensures Xor(a, b) < Pow2(n)
    decreases n
  {
    if n > 0 && a + b > 0 { XorBelow(a / 2, b / 2, n - 1); }
  }

  lemma {:induction false} XorComm(a: nat, b: nat)
    ensures Xor(a, b) == Xor(b, a)
    decreases a + b
  {
    if a + b > 0 { XorComm(a / 2, b / 2); }
  }

  lemma {:induction false} XorAssoc(a: nat, b: nat, c: nat)
    ensures Xor(Xor(a, b), c) == Xor(a, Xor(b, c))
    decreases a + b + c
  {
    hide Xor;
    if a + b + c == 0 {
      XorZero(0);
    } else {
      var (x, y) := (Xor(Xor(a, b), c), Xor(a, Xor(b, c)));
      assert x / 2 == y / 2 && x % 2 == y % 2 by {
        XorAssoc(a / 2, b / 2, c / 2);
        XorHalves(a, b);
        XorHalves(b, c);
        XorHalves(Xor(a, b), c);
        XorHalves(a, Xor(b, c));
        Parity(Xor(a, b), a + b, c);
        Parity(Xor(b, c), b + c, a);
      }
    }
  }

  lemma Parity(x: nat, y: nat, c: nat)
    requires x % 2 == y % 2
    ensures (x + c) % 2 == (y + c) % 2
  {
  }

  lemma XorHalves(a: nat, b: nat)
    ensures Xor(a, b) / 2 == Xor(a / 2, b / 2) && Xor(a, b) % 2 == (a + b) % 2
  {
  }

  lemma {:induction false} XorSelf(a: nat)
    ensures Xor(a, a) == 0
  {
    if a > 0 { XorSelf(a / 2); }
  }

  lemma {:induction false} XorZero(a: nat)
    ensures Xor(a, 0) == a
  {
    if a > 0 { XorZero(a / 2); }
  }
}
