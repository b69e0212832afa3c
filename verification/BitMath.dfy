/** Exclusive-or on unsigned integers, defined bit by bit from the low end. */
module BitMath {
  import opened Division

  function Pow2(n: nat): (p: nat)
    ensures p > 0
  {
    if n == 0 then 1 else 2 * Pow2(n - 1)
  }

  function Xor(a: nat, b: nat): nat {
    if a == 0 && b == 0 then 0
    else (if a % 2 != b % 2 then 1 else 0) + 2 * Xor(a / 2, b / 2)
  }

  /** Bit i of n is 1. */
  predicate BitAt(n: nat, i: nat) { n / Pow2(i) % 2 == 1 }

  lemma BitZero(n: nat)
    ensures BitAt(n, 0) <==> n % 2 == 1
  {
  }

  lemma BitNext(n: nat, i: nat)
    ensures BitAt(n, i + 1) <==> BitAt(n / 2, i)
  {
    HalfThenDivide(n, Pow2(i));
  }

  /** Equal bits, equal numbers. */
  lemma {:induction false} SameBits(a: nat, b: nat)
    requires forall i: nat :: BitAt(a, i) == BitAt(b, i)
    ensures a == b
  {
    if a + b > 0 {
      forall i: nat ensures BitAt(a / 2, i) == BitAt(b / 2, i) {
        BitNext(a, i);
        BitNext(b, i);
        assert BitAt(a, i + 1) == BitAt(b, i + 1);
      }
      BitZero(a);
      BitZero(b);
      SameBits(a / 2, b / 2);
    }
  }

  /** What Xor computes, bit by bit. */
  lemma {:induction false} XorBit(a: nat, b: nat, i: nat)
    ensures BitAt(Xor(a, b), i) <==> BitAt(a, i) != BitAt(b, i)
    decreases i
  {
    LowBit(a, b);
    if i == 0 {
      BitZero(a);
      BitZero(b);
      BitZero(Xor(a, b));
    } else {
      BitNext(a, i - 1);
      BitNext(b, i - 1);
      BitNext(Xor(a, b), i - 1);
      XorBit(a / 2, b / 2, i - 1);
      HalfOfXor(a, b);
    }
  }

  lemma HalfOfXor(a: nat, b: nat)
    ensures Xor(a, b) / 2 == Xor(a / 2, b / 2)
  {
    var q := Xor(a / 2, b / 2);
    assert Xor(a, b) == (if a % 2 != b % 2 then 1 else 0) + 2 * q;
  }

  lemma {:induction false} Zero(a: nat)
    ensures Xor(a, 0) == a
  {
    if a > 0 {
      Zero(a / 2);
    }
  }

  lemma {:induction false} Commutes(a: nat, b: nat)
    ensures Xor(a, b) == Xor(b, a)
  {
    if a + b > 0 {
      Commutes(a / 2, b / 2);
    }
  }

  lemma {:induction false} Associates(a: nat, b: nat, c: nat)
    ensures Xor(Xor(a, b), c) == Xor(a, Xor(b, c))
    decreases a + b + c
  {
    if a + b + c > 0 {
      Associates(a / 2, b / 2, c / 2);
    }
  }

  lemma {:induction false} Self(a: nat)
    ensures Xor(a, a) == 0
  {
    if a > 0 {
      Self(a / 2);
    }
  }

  lemma Cancel(a: nat, b: nat, c: nat)
    requires Xor(a, c) == Xor(b, c)
    ensures a == b
  {
    Associates(a, c, c);
    Associates(b, c, c);
    Self(c);
    Zero(a);
    Zero(b);
  }

  lemma Swap(a: nat, b: nat, c: nat)
    ensures Xor(Xor(a, b), c) == Xor(Xor(a, c), b)
  {
    Associates(a, b, c);
    Associates(a, c, b);
    Commutes(b, c);
  }

  /** The low bit of a sum without carries. */
  lemma LowBit(a: nat, b: nat)
    ensures Xor(a, b) % 2 == (if a % 2 != b % 2 then 1 else 0)
  {
    var q := Xor(a / 2, b / 2);
    assert Xor(a, b) == (if a % 2 != b % 2 then 1 else 0) + 2 * q;
  }

  /** A bit above all the others stays apart from them. */
  lemma {:induction false} HighBit(a: nat, b: nat, k: nat)
    requires a < Pow2(k) && b < Pow2(k)
    ensures Xor(a, b) < Pow2(k)
    ensures Xor(Pow2(k) + a, b) == Pow2(k) + Xor(a, b)
    decreases k
  {
    if k == 0 {
      assert Xor(1, 0) == 1 + 2 * Xor(0, 0);
    } else {
      HighBit(a / 2, b / 2, k - 1);
      var p := Pow2(k - 1);
      assert (2 * p + a) / 2 == p + a / 2 && (2 * p + a) % 2 == a % 2;
    }
  }
}
