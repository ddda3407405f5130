/** Single bits and bitwise OR on unsigned integers, written out one bit at a time. */
module Bits {
  import opened Arithmetic

  /** Bit `k` of `v`, counted from the least significant: `(v >> k) & 1`. */
  predicate Bit(v: nat, k: nat)
    decreases k
  {
    if k == 0 then v % 2 == 1 else Bit(v / 2, k - 1)
  }

  /** `a | b`, computed from the low bit up: a bit of the result is set exactly when it is set in `a` or in `b`. */
  function BitOr(a: nat, b: nat): (r: nat)
    ensures forall k: nat :: Bit(r, k) <==> Bit(a, k) || Bit(b, k)
    decreases a + b
  {
    ZeroHasNoBits();
    if a == 0 then b
    else if b == 0 then a
    else 2 * BitOr(a / 2, b / 2) + (if a % 2 == 1 || b % 2 == 1 then 1 else 0)
  }

  /** `1 << j` has bit `j` set and no other. */
  lemma {:induction false} PowerOfTwoBit(j: nat, k: nat)
    ensures Bit(Power(2, j), k) <==> k == j
    decreases j
  {
    if j == 0 {
      if k > 0 {
        ZeroBit(k - 1);
      }
    } else if k > 0 {
      assert Power(2, j) / 2 == Power(2, j - 1);
      PowerOfTwoBit(j - 1, k - 1);
    }
  }

  /** Every bit set in `flags` is set in `v`. */
  ghost predicate HasFlags(v: nat, flags: nat) {
    forall k: nat :: Bit(flags, k) ==> Bit(v, k)
  }

  lemma {:induction false} ZeroBit(k: nat)
    ensures !Bit(0, k)
    decreases k
  {
    if k > 0 {
      ZeroBit(k - 1);
    }
  }

  /** Zero has no bit set. */
  lemma ZeroHasNoBits()
    ensures forall k: nat :: !Bit(0, k)
  {
    forall k: nat
      ensures !Bit(0, k)
    {
      ZeroBit(k);
    }
  }

  /** A value other than zero has a bit set. */
  lemma {:induction false} SomeBitSet(v: nat)
    requires v > 0
    ensures exists k: nat :: Bit(v, k)
    decreases v
  {
    if v % 2 == 0 {
      SomeBitSet(v / 2);
      var k: nat :| Bit(v / 2, k);
      assert Bit(v, k + 1);
    } else {
      assert Bit(v, 0);
    }
  }

  /** A value is determined by its bits. */
  lemma {:induction false} SameBitsSameValue(a: nat, b: nat)
    requires forall k: nat :: Bit(a, k) <==> Bit(b, k)
    ensures a == b
    decreases a + b
  {
    if a == 0 && b != 0 {
      SomeBitSet(b);
      var k: nat :| Bit(b, k);
      ZeroBit(k);
    } else if a != 0 && b == 0 {
      SomeBitSet(a);
      var k: nat :| Bit(a, k);
      ZeroBit(k);
    } else if a != 0 {
      forall k: nat
        ensures Bit(a / 2, k) <==> Bit(b / 2, k)
      {
        assert Bit(a, k + 1) <==> Bit(b, k + 1);
      }
      SameBitsSameValue(a / 2, b / 2);
      assert Bit(a, 0) <==> Bit(b, 0);
    }
  }

  /** OR keeps a value of `n` bits within `n` bits: for `n` = 16, `ushort |= ushort` needs no truncation. */
  lemma {:induction false} BitOrBounded(a: nat, b: nat, n: nat)
    requires a < Power(2, n) && b < Power(2, n)
    ensures BitOr(a, b) < Power(2, n)
    decreases a + b
  {
    if a != 0 && b != 0 {
      assert n > 0;
      BitOrBounded(a / 2, b / 2, n - 1);
    }
  }
}
