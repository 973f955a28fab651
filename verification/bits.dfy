/**
 Bitwise AND and XOR of non-negative integers, defined one bit at a time from
 the least significant end. This is the bit-by-bit meaning of the `&` and `^`
 operators the emulator applies to its unsigned registers; the correspondence
 holds by definition and is not proved against a bit-vector type.
 */
module Bits {

  function BitAnd(a: nat, b: nat): nat
    decreases a
  {
    if a == 0 || b == 0 then 0
    else 2 * BitAnd(a / 2, b / 2) + (if a % 2 == 1 && b % 2 == 1 then 1 else 0)
  }

  function BitXor(a: nat, b: nat): nat
    decreases a + b
  {
    if a == 0 && b == 0 then 0
    else 2 * BitXor(a / 2, b / 2) + (a % 2 + b % 2) % 2
  }

  /** An AND never has a bit set that either operand lacks, so it is at most each operand. */
  lemma {:induction false} BitAndBelow(a: nat, b: nat)
    ensures BitAnd(a, b) <= a && BitAnd(a, b) <= b
    decreases a
  {
    if a != 0 && b != 0 {
      BitAndBelow(a / 2, b / 2);
    }
  }

  /** `m` has no bit set that `a` lacks. */
  predicate IsSubmask(m: nat, a: nat)
  {
    BitAnd(m, a) == m
  }

  /** The low bit of an AND and the AND of the remaining bits. */
  lemma AndSplit(a: nat, b: nat)
    ensures BitAnd(a, b) % 2 == (if a % 2 == 1 && b % 2 == 1 then 1 else 0)
    ensures BitAnd(a, b) / 2 == BitAnd(a / 2, b / 2)
  {
  }

  /** AND does not depend on the order of its operands. */
  lemma {:induction false} BitAndComm(a: nat, b: nat)
    ensures BitAnd(a, b) == BitAnd(b, a)
    decreases a
  {
    if a != 0 && b != 0 {
      BitAndComm(a / 2, b / 2);
    }
  }

  /** A common submask of two values is a submask of their AND. */
  lemma {:induction false} BitAndGreatest(m: nat, a: nat, b: nat)
    requires IsSubmask(m, a) && IsSubmask(m, b)
    ensures IsSubmask(m, BitAnd(a, b))
    decreases m
  {
    if m != 0 {
      var c := BitAnd(a, b);
      AndSplit(m, a);
      AndSplit(m, b);
      AndSplit(a, b);
      AndSplit(m, c);
      BitAndGreatest(m / 2, a / 2, b / 2);
      var d := BitAnd(m, c);
      assert d / 2 == m / 2 && d % 2 == m % 2;
    }
  }

  /** Two values that are submasks of each other are equal. */
  lemma SubmaskAntisymmetric(a: nat, b: nat)
    requires IsSubmask(a, b) && IsSubmask(b, a)
    ensures a == b
  {
    BitAndComm(a, b);
  }

  /**
   The AND of two values is their greatest common submask: a submask of both,
   and every common submask of the two is a submask of it.
   */
  lemma AndIsGreatestSubmask(a: nat, b: nat)
    ensures IsSubmask(BitAnd(a, b), a) && IsSubmask(BitAnd(a, b), b)
    ensures forall m: nat :: IsSubmask(m, a) && IsSubmask(m, b) ==> IsSubmask(m, BitAnd(a, b))
  {
    BitAndAbsorbs(a, b);
    BitAndAbsorbs(b, a);
    BitAndComm(a, b);
    forall m: nat | IsSubmask(m, a) && IsSubmask(m, b)
      ensures IsSubmask(m, BitAnd(a, b))
    {
      BitAndGreatest(m, a, b);
    }
  }

  /** A value ANDed with itself is unchanged. */
  lemma {:induction false} BitAndSelf(a: nat)
    ensures BitAnd(a, a) == a
    decreases a
  {
    if a != 0 {
      BitAndSelf(a / 2);
    }
  }

  /** Masking an AND again with one of its operands changes nothing. */
  lemma {:induction false} BitAndAbsorbs(a: nat, b: nat)
    ensures BitAnd(BitAnd(a, b), b) == BitAnd(a, b)
    decreases a
  {
    if a != 0 && b != 0 {
      BitAndAbsorbs(a / 2, b / 2);
      var h := BitAnd(a / 2, b / 2);
      var c := BitAnd(a, b);
      assert c / 2 == h && c % 2 == (if a % 2 == 1 && b % 2 == 1 then 1 else 0);
    }
  }

  /** The low bit of an XOR and the XOR of the remaining bits. */
  lemma XorSplit(a: nat, b: nat)
    ensures BitXor(a, b) % 2 == (a % 2 + b % 2) % 2
    ensures BitXor(a, b) / 2 == BitXor(a / 2, b / 2)
  {
  }

  /** XOR with zero is the identity. */
  lemma {:induction false} BitXorZero(a: nat)
    ensures BitXor(a, 0) == a
  {
    if a != 0 {
      BitXorZero(a / 2);
    }
  }

  /** XOR with the same operand twice gives back the original value. */
  lemma {:induction false} BitXorInvolution(a: nat, b: nat)
    ensures BitXor(BitXor(a, b), b) == a
    decreases a + b
  {
    var c := BitXor(a, b);
    if b == 0 {
      BitXorZero(a);
      BitXorZero(c);
    } else {
      BitXorInvolution(a / 2, b / 2);
      XorSplit(a, b);
      XorSplit(c, b);
      var d := BitXor(c, b);
      assert d / 2 == a / 2 && d % 2 == a % 2;
    }
  }

  /** A value XORed with itself is zero, and only equal operands give zero. */
  lemma {:induction false} XorZeroMeansEqual(a: nat, b: nat)
    ensures BitXor(a, b) == 0 <==> a == b
    decreases a + b
  {
    if a != 0 || b != 0 {
      XorZeroMeansEqual(a / 2, b / 2);
      XorSplit(a, b);
    }
  }

  /** AND and XOR of two values below a power of two stay below it. */
  lemma {:induction false} BitOpsBelow(a: nat, b: nat, bound: nat)
    requires IsPowerOfTwo(bound) && a < bound && b < bound
    ensures BitXor(a, b) < bound && BitAnd(a, b) < bound
    decreases bound
  {
    BitAndBelow(a, b);
    if bound == 1 {
      assert a == 0 && b == 0;
    } else {
      BitOpsBelow(a / 2, b / 2, bound / 2);
      XorSplit(a, b);
    }
  }

  predicate IsPowerOfTwo(n: nat)
    decreases n
  {
    n == 1 || (n > 1 && n % 2 == 0 && IsPowerOfTwo(n / 2))
  }

  /** 256, the number of byte values, is a power of two. */
  lemma ByteRangeIsPowerOfTwo()
    ensures IsPowerOfTwo(0x100)
  {
  }
}
