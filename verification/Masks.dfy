/** Bit sets held in unsigned integers, bit `i` standing for `m & (1 << i)`. */
module Masks {

  function Pow2(n: nat): (p: nat)
    ensures p >= 1
  {
    if n == 0 then 1 else 2 * Pow2(n - 1)
  }

  lemma {:induction false} PowersMonotone(m: nat, n: nat)
    requires m <= n
    ensures Pow2(m) <= Pow2(n)
  {
    if m == n {
    } else {
      PowersMonotone(m, n - 1);
    }
  }

  lemma PowerDoubles(n: nat)
    ensures Pow2(n + 1) == 2 * Pow2(n)
  {
  }

  predicate Bit(m: nat, i: nat) {
    if i == 0 then m % 2 == 1 else Bit(m / 2, i - 1)
  }

  /** `m | (1 << i)`. */
  function SetBit(m: nat, i: nat): nat {
    if i == 0 then (if m % 2 == 1 then m else m + 1) else 2 * SetBit(m / 2, i - 1) + m % 2
  }

  /** `(1 << n) - 1`. */
  function Ones(n: nat): nat { Pow2(n) - 1 }

  /** Bit `i` is the parity of the quotient by 2^i, which is what shifting and masking compute. */
  lemma {:induction false} BitMeaning(m: nat, i: nat, quotient: nat, rest: nat)
    requires rest < Pow2(i) && m == quotient * Pow2(i) + rest
    ensures Bit(m, i) <==> quotient % 2 == 1
  {
    if i == 0 {
      assert Pow2(0) == 1;
      assert m == quotient;
    } else {
      var power, half := Pow2(i - 1), quotient * Pow2(i - 1);
      TimesDouble(quotient, power);
      assert Pow2(i) == 2 * power;
      assert m == 2 * half + rest;
      assert m / 2 == half + rest / 2;
      assert Bit(m, i) == Bit(m / 2, i - 1);
      BitMeaning(m / 2, i - 1, quotient, rest / 2);
    }
  }

  lemma TimesDouble(quotient: nat, power: nat)
    ensures quotient * (2 * power) == 2 * (quotient * power)
  {
  }

  /** Setting a clear bit adds its weight. */
  lemma {:induction false} SetBitAdds(m: nat, i: nat)
    ensures SetBit(m, i) == if Bit(m, i) then m else m + Pow2(i)
  {
    if i == 0 {
    } else {
      SetBitAdds(m / 2, i - 1);
    }
  }

  lemma {:induction false} SetBitSets(m: nat, i: nat, j: nat)
    ensures Bit(SetBit(m, i), j) <==> j == i || Bit(m, j)
  {
    if i == 0 || j == 0 {
    } else {
      SetBitSets(m / 2, i - 1, j - 1);
    }
  }

  lemma {:induction false} SetBitFits(m: nat, i: nat, n: nat)
    requires m < Pow2(n) && i < n
    ensures SetBit(m, i) < Pow2(n)
  {
    var half := Pow2(n - 1);
    assert Pow2(n) == 2 * half;
    if i == 0 {
    } else {
      assert m / 2 < half;
      SetBitFits(m / 2, i - 1, n - 1);
    }
  }

  /** A power of two has one bit. */
  lemma {:induction false} PowerBits(n: nat, i: nat)
    ensures Bit(Pow2(n), i) <==> i == n
  {
    if n == 0 {
      if i > 0 {
        ZeroBits(i - 1);
      }
    } else if i > 0 {
      PowerBits(n - 1, i - 1);
    }
  }

  lemma {:induction false} OnesBits(n: nat, i: nat)
    ensures Bit(Ones(n), i) <==> i < n
  {
    if n == 0 {
      ZeroBits(i);
    } else if i > 0 {
      assert Ones(n) / 2 == Ones(n - 1);
      OnesBits(n - 1, i - 1);
    }
  }

  lemma {:induction false} ZeroBits(i: nat)
    ensures !Bit(0, i)
  {
    if i == 0 {
    } else {
      ZeroBits(i - 1);
    }
  }

  lemma {:induction false} NoHighBits(m: nat, n: nat, i: nat)
    requires m < Pow2(n) && n <= i
    ensures !Bit(m, i)
  {
    if n == 0 {
      ZeroBits(i);
    } else {
      NoHighBits(m / 2, n - 1, i - 1);
    }
  }

  /** A mask is determined by its bits. */
  lemma {:induction false} SameBits(a: nat, b: nat, n: nat)
    requires a < Pow2(n) && b < Pow2(n)
    requires forall i: nat | i < n :: Bit(a, i) <==> Bit(b, i)
    ensures a == b
  {
    if n == 0 {
    } else {
      assert Bit(a, 0) <==> Bit(b, 0);
      forall i: nat | i < n - 1 ensures Bit(a / 2, i) <==> Bit(b / 2, i) {
        assert Bit(a, i + 1) <==> Bit(b, i + 1);
      }
      SameBits(a / 2, b / 2, n - 1);
    }
  }
}
