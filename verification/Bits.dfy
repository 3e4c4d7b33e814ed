/** Python's `<<`, `>>`, `&` and `|` on non-negative integers, which have no width,
    defined digit by digit. Right shifts and masks by a constant are written as
    division and remainder where they occur. */
module Bits {

  function Pow2(k: nat): (p: nat)
    ensures p > 0
  {
    if k == 0 then 1 else 2 * Pow2(k - 1)
  }

  function Shl(v: nat, k: nat): nat {
    if k == 0 then v else 2 * Shl(v, k - 1)
  }

  function Shr(v: nat, k: nat): nat {
    if k == 0 then v else Shr(v / 2, k - 1)
  }

  /** `v & (2^k - 1)` */
  function Low(v: nat, k: nat): nat {
    if k == 0 then 0 else 2 * Low(v / 2, k - 1) + v % 2
  }

  function Or(a: nat, b: nat): nat
    decreases a + b
  {
    if a == 0 then b
    else if b == 0 then a
    else 2 * Or(a / 2, b / 2) + if a % 2 == 1 || b % 2 == 1 then 1 else 0
  }

  /** Values in disjoint bit ranges combine by addition. */
  lemma {:induction false} OrDisjoint(q: nat, b: nat, k: nat)
    requires b < Pow2(k)
    ensures Or(Shl(q, k), b) == Shl(q, k) + b
  {
    if k > 0 {
      OrDisjoint(q, b / 2, k - 1);
    }
  }

  /** Shifting in low bits and taking them out again. */
  lemma {:induction false} ShiftBack(q: nat, r: nat, k: nat)
    requires r < Pow2(k)
    ensures Shr(Shl(q, k) + r, k) == q && Low(Shl(q, k) + r, k) == r
  {
    if k > 0 {
      ShiftBack(q, r / 2, k - 1);
    }
  }

  lemma {:induction false} ShlIsMul(v: nat, k: nat)
    ensures Shl(v, k) == v * Pow2(k)
  {
    if k > 0 {
      ShlIsMul(v, k - 1);
      assert v * (2 * Pow2(k - 1)) == 2 * (v * Pow2(k - 1));
    }
  }

  lemma {:induction false} Rejoined(v: nat, k: nat)
    ensures v == Shl(Shr(v, k), k) + Low(v, k) && Low(v, k) < Pow2(k)
  {
    if k > 0 {
      Rejoined(v / 2, k - 1);
    }
  }

  /** A right shift and a mask are quotient and remainder. */
  lemma ShiftedParts(v: nat, k: nat)
    ensures v == Shr(v, k) * Pow2(k) + Low(v, k) && Low(v, k) < Pow2(k)
  {
    Rejoined(v, k);
    ShlIsMul(Shr(v, k), k);
  }

  lemma {:induction false} ShlShl(v: nat, i: nat, j: nat)
    ensures Shl(Shl(v, i), j) == Shl(v, i + j)
  {
    if j > 0 {
      ShlShl(v, i, j - 1);
    }
  }

  lemma {:induction false} ShrShr(v: nat, i: nat, j: nat)
    ensures Shr(Shr(v, i), j) == Shr(v, i + j)
    decreases i
  {
    if i > 0 {
      ShrShr(v / 2, i - 1, j);
    }
  }

  lemma {:induction false} ShlSum(u: nat, v: nat, k: nat)
    ensures Shl(u + v, k) == Shl(u, k) + Shl(v, k)
  {
    if k > 0 {
      ShlSum(u, v, k - 1);
    }
  }

  lemma {:induction false} ShlBound(v: nat, n: nat, k: nat)
    requires v < Pow2(n)
    ensures Shl(v, k) < Pow2(n + k) && Pow2(n) <= Pow2(n + k)
  {
    if k > 0 {
      ShlBound(v, n, k - 1);
    }
  }

  lemma Pow2Small()
    ensures Pow2(0) == 1 && Pow2(1) == 2 && Pow2(2) == 4 && Pow2(3) == 8 && Pow2(4) == 16
    ensures Pow2(5) == 32 && Pow2(6) == 64 && Pow2(7) == 128 && Pow2(8) == 256
  {
    assert Pow2(1) == 2;
    assert Pow2(2) == 4;
    assert Pow2(3) == 8;
    assert Pow2(4) == 16;
    assert Pow2(5) == 32;
    assert Pow2(6) == 64;
    assert Pow2(7) == 128;
  }
}
