/**
  Machine words as natural numbers below 2^32, and the bit tricks the allocator builds on them.
  Every operation is defined by halving, so that proofs go one bit at a time.
 */
module Bits {

  const WORD_BITS: nat := 32
  const WORD_LIMIT: nat := 0x1_0000_0000

  function Pow2(k: nat): (p: nat)
    ensures p >= 1
  {
    if k == 0 then 1 else 2 * Pow2(k - 1)
  }

  lemma WordLimit()
    ensures Pow2(WORD_BITS) == WORD_LIMIT
  {
    assert Pow2(8) == 0x100;
    Pow2Add(8, 8);
    Pow2Add(16, 16);
  }

  lemma {:induction false} Pow2Add(j: nat, k: nat)
    ensures Pow2(j + k) == Pow2(j) * Pow2(k)
  {
    if j > 0 { Pow2Add(j - 1, k); }
  }

  // ---- division ----

  lemma SmallMultiple(n: int, m: int)
    requires -m < n * m < m
    ensures n == 0
  {
  }

  lemma DivideUnique(w: int, m: int, q: int, r: int)
    requires m > 0 && w == q * m + r && 0 <= r < m
    ensures w / m == q && w % m == r
  {
    var q' := w / m;
    assert w == q' * m + w % m;
    assert (q - q') * m == w % m - r;
    SmallMultiple(q - q', m);
  }

  /** Halving first. */
  lemma HalfDivide(w: nat, p: nat)
    requires p > 0
    ensures w / 2 / p == w / (2 * p)
  {
    HalfParts(w, p);
  }

  lemma HalfMod(w: nat, p: nat)
    requires p > 0
    ensures 2 * ((w / 2) % p) + w % 2 == w % (2 * p)
  {
    HalfParts(w, p);
  }

  lemma HalfParts(w: nat, p: nat)
    requires p > 0
    ensures w / (2 * p) == w / 2 / p && w % (2 * p) == 2 * ((w / 2) % p) + w % 2
  {
    var q, r := (w / 2) / p, (w / 2) % p;
    assert w / 2 == q * p + r;
    assert w == q * (2 * p) + (2 * r + w % 2);
    DivideUnique(w, 2 * p, q, 2 * r + w % 2);
  }

  // ---- words ----

  /** w >> k */
  function Shr(w: nat, k: nat): (r: nat)
    decreases k
  {
    if k == 0 then w else Shr(w / 2, k - 1)
  }

  /** Bit k of w. */
  predicate Bit(w: nat, k: nat) {
    if k == 0 then w % 2 == 1 else Bit(w / 2, k - 1)
  }

  /** w & v */
  function And(w: nat, v: nat): (r: nat)
    decreases w
  {
    if w == 0 then 0 else 2 * And(w / 2, v / 2) + (w % 2) * (v % 2)
  }

  /** w | v */
  function Or(w: nat, v: nat): (r: nat)
    decreases w + v
  {
    if w == 0 && v == 0 then 0
    else 2 * Or(w / 2, v / 2) + (if w % 2 == 1 || v % 2 == 1 then 1 else 0)
  }

  /** ~w in a register of n bits */
  function Not(w: nat, n: nat): (r: nat)
  {
    if n == 0 then 0 else 2 * Not(w / 2, n - 1) + (1 - w % 2)
  }

  /** Number of bits needed to write w (NUMBITS). */
  function NumBits(w: nat): (n: nat) {
    if w == 0 then 0 else 1 + NumBits(w / 2)
  }

  /** Count leading zeroes of a 32-bit word: the primitive that all the other tricks are derived from. */
  function Clz(w: nat): (n: nat)
    requires w < WORD_LIMIT
  {
    WordLimit();
    NumBitsBound(w, WORD_BITS);
    WORD_BITS - NumBits(w)
  }

  /** ~w & (w - 1): ones exactly below the least set bit of w. */
  function TrailingOnes(w: nat, n: nat): (r: nat)
    requires 0 < w < Pow2(n)
    ensures r < Pow2(n)
  {
    AndBound(Not(w, n), w - 1, n);
    And(Not(w, n), w - 1)
  }

  /** Count trailing zeroes, by the complement-and-decrement trick. */
  function Ctz(w: nat): (n: int)
    requires 0 < w < WORD_LIMIT
  {
    WordLimit();
    WORD_BITS - Clz(TrailingOnes(w, WORD_BITS))
  }

  // ---- each operation, bit by bit ----

  lemma {:induction false} AndHalf(w: nat, v: nat)
    ensures And(w, v) / 2 == And(w / 2, v / 2)
    ensures And(w, v) % 2 == 1 <==> w % 2 == 1 && v % 2 == 1
  {
    assert (w % 2) * (v % 2) == if w % 2 == 1 then v % 2 else 0;
  }

  lemma {:induction false} NotHalf(w: nat, n: nat)
    requires n > 0
    ensures Not(w, n) / 2 == Not(w / 2, n - 1)
    ensures Not(w, n) % 2 == 1 <==> w % 2 == 0
  {
  }

  lemma {:induction false} AndBit(w: nat, v: nat, k: nat)
    ensures Bit(And(w, v), k) <==> Bit(w, k) && Bit(v, k)
    decreases k
  {
    hide And;
    AndHalf(w, v);
    if k > 0 { AndBit(w / 2, v / 2, k - 1); }
  }

  lemma {:induction false} OrBit(w: nat, v: nat, k: nat)
    ensures Bit(Or(w, v), k) <==> Bit(w, k) || Bit(v, k)
    decreases k
  {
    if w == 0 && v == 0 {
      ZeroBit(k);
    } else if k > 0 {
      OrBit(w / 2, v / 2, k - 1);
    }
  }

  lemma {:induction false} NotBit(w: nat, n: nat, k: nat)
    ensures Bit(Not(w, n), k) <==> k < n && !Bit(w, k)
    decreases k
  {
    if n == 0 {
      ZeroBit(k);
    } else if k > 0 {
      NotBit(w / 2, n - 1, k - 1);
    }
  }

  lemma {:induction false} ZeroBit(k: nat)
    ensures !Bit(0, k)
    decreases k
  {
    if k > 0 { ZeroBit(k - 1); }
  }

  lemma {:induction false} Pow2Bit(j: nat, k: nat)
    ensures Bit(Pow2(j), k) <==> j == k
    decreases k
  {
    if k == 0 {
    } else if j == 0 {
      ZeroBit(k - 1);
    } else {
      Pow2Bit(j - 1, k - 1);
    }
  }

  /** Pow2(j) - 1 is the mask of the j low bits. */
  lemma {:induction false} MaskBit(j: nat, k: nat)
    ensures Bit(Pow2(j) - 1, k) <==> k < j
    decreases k
  {
    if j == 0 {
      ZeroBit(k);
    } else if k > 0 {
      assert (Pow2(j) - 1) / 2 == Pow2(j - 1) - 1;
      MaskBit(j - 1, k - 1);
    }
  }

  // ---- words stay within their width ----

  lemma {:induction false} AndBound(w: nat, v: nat, n: nat)
    requires v < Pow2(n)
    ensures And(w, v) < Pow2(n)
    decreases n
  {
    if n == 0 {
      AndZero(w);
    } else if w > 0 {
      AndBound(w / 2, v / 2, n - 1);
    }
  }

  lemma {:induction false} AndZero(w: nat)
    ensures And(w, 0) == 0
    decreases w
  {
    if w > 0 { AndZero(w / 2); }
  }

  lemma {:induction false} OrBound(w: nat, v: nat, n: nat)
    requires w < Pow2(n) && v < Pow2(n)
    ensures Or(w, v) < Pow2(n)
    decreases n
  {
    if n > 0 { OrBound(w / 2, v / 2, n - 1); }
  }

  lemma {:induction false} NumBitsBound(w: nat, n: nat)
    ensures NumBits(w) <= n <==> w < Pow2(n)
    decreases n
  {
    if n > 0 && w > 0 { NumBitsBound(w / 2, n - 1); }
  }

  lemma {:induction false} BitBound(w: nat, n: nat, k: nat)
    requires w < Pow2(n) && Bit(w, k)
    ensures k < n
    decreases n
  {
    if n == 0 {
      ZeroBit(k);
    } else if k > 0 {
      BitBound(w / 2, n - 1, k - 1);
    }
  }

  // ---- lowest and highest set bit ----

  /** Ctz finds the least set bit of any non-zero word. */
  lemma CtzIsLeastBit(w: nat)
    requires 0 < w < WORD_LIMIT
    ensures 0 <= Ctz(w) < WORD_BITS && Bit(w, Ctz(w))
    ensures forall k: nat :: k < Ctz(w) ==> !Bit(w, k)
  {
    WordLimit();
    TrailingMask(w, WORD_BITS);
  }

  lemma {:induction false} TrailingMask(w: nat, n: nat)
    requires 0 < w < Pow2(n)
    ensures var z := NumBits(TrailingOnes(w, n));
            z < n && Bit(w, z) && forall k: nat :: k < z ==> !Bit(w, k)
    decreases n
  {
    hide TrailingOnes;
    if w % 2 == 1 {
      TrailingMaskOdd(w, n);
    } else {
      TrailingMask(w / 2, n - 1);
      LowZeros(w, NumBits(TrailingOnes(w / 2, n - 1)));
      TrailingMaskEven(w, n);
    }
  }

  lemma {:induction false} TrailingMaskOdd(w: nat, n: nat)
    requires 0 < w < Pow2(n) && w % 2 == 1
    ensures TrailingOnes(w, n) == 0
  {
    var y := w / 2;
    AndNotSelf(y, n - 1);
    assert w - 1 == 2 * y && Not(w, n) == 2 * Not(y, n - 1);
  }

  lemma {:induction false} TrailingMaskEven(w: nat, n: nat)
    requires 0 < w < Pow2(n) && w % 2 == 0 && n > 0 && w / 2 < Pow2(n - 1)
    ensures TrailingOnes(w, n) == 2 * TrailingOnes(w / 2, n - 1) + 1
  {
    assert (w - 1) / 2 == w / 2 - 1 && (w - 1) % 2 == 1;
    assert Not(w, n) == 2 * Not(w / 2, n - 1) + 1;
  }

  lemma {:induction false} LowZeros(w: nat, z: nat)
    requires w % 2 == 0 && Bit(w / 2, z) && forall k: nat :: k < z ==> !Bit(w / 2, k)
    ensures Bit(w, z + 1) && forall k: nat :: k < z + 1 ==> !Bit(w, k)
  {
    forall k: nat | k < z + 1 ensures !Bit(w, k) {
      if k > 0 { assert !Bit(w / 2, k - 1); }
    }
  }

  lemma {:induction false} NoneAnd(w: nat)
    ensures And(Not(w, 0), w) == 0
  {
  }

  lemma {:induction false} AndNotSelf(w: nat, n: nat)
    ensures And(Not(w, n), w) == 0
    decreases n
  {
    hide And, Not;
    if n == 0 {
      NoneAnd(w);
    } else {
      AndNotSelf(w / 2, n - 1);
      NotHalf(w, n);
      AndHalf(Not(w, n), w);
    }
  }

  /** The top set bit of a non-zero word is NumBits(w) - 1. */
  lemma {:induction false} TopBit(w: nat)
    requires w > 0
    ensures Bit(w, NumBits(w) - 1)
    ensures forall k: nat :: k >= NumBits(w) ==> !Bit(w, k)
    decreases w
  {
    if w == 1 {
      forall k: nat | k >= 1 ensures !Bit(w, k) { ZeroBit(k - 1); }
    } else {
      TopBit(w / 2);
      forall k: nat | k >= NumBits(w) ensures !Bit(w, k) { assert !Bit(w / 2, k - 1); }
    }
  }

  /** Comparing a word with a single bit asks whether some bit at or above it is set. */
  lemma {:induction false} AtLeastPow2(w: nat, k: nat)
    ensures w >= Pow2(k) ==> exists j: nat :: j >= k && Bit(w, j)
    ensures w < Pow2(k) ==> forall j: nat :: j >= k ==> !Bit(w, j)
  {
    NumBitsBound(w, k);
    if w >= Pow2(k) {
      TopBit(w);
      assert Bit(w, NumBits(w) - 1);
    } else {
      forall j: nat | j >= k ensures !Bit(w, j) {
        if Bit(w, j) { BitBound(w, k, j); }
      }
    }
  }
}
