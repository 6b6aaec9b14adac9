/** Powers of two, and the bit trick by which the bracket package recognises them. */
module PowersOfTwo {

  /** JavaScript's bitwise operators keep the low 32 bits of their operands. */
  const TWO_TO_THE_32: int := 0x1_0000_0000

  function Pow2(k: nat): (r: nat)
    ensures r >= 1
  {
    if k == 0 then 1 else 2 * Pow2(k - 1)
  }

  function Log2(n: nat): (k: nat)
    ensures n >= 1 ==> Pow2(k) <= n < 2 * Pow2(k)
  {
    if n < 2 then 0 else 1 + Log2(n / 2)
  }

  predicate IsPow2(n: nat) {
    n >= 1 && n == Pow2(Log2(n))
  }

  lemma {:induction false} Log2OfPow2(k: nat)
    ensures Log2(Pow2(k)) == k && IsPow2(Pow2(k))
  {
    if k > 0 {
      Log2OfPow2(k - 1);
    }
  }

  lemma {:induction false} Pow2Monotone(a: nat, b: nat)
    requires a <= b
    ensures Pow2(a) <= Pow2(b)
    ensures a < b ==> 2 * Pow2(a) <= Pow2(b)
  {
    if a < b {
      Pow2Monotone(a, b - 1);
    }
  }

  function BitAnd(a: nat, b: nat): nat {
    if a == 0 || b == 0 then 0 else (a % 2) * (b % 2) + 2 * BitAnd(a / 2, b / 2)
  }

  lemma {:induction false} BitAndSelf(a: nat)
    ensures BitAnd(a, a) == a
  {
    if a > 0 {
      BitAndSelf(a / 2);
    }
  }

  /** n & (n - 1) clears the lowest set bit, so it is zero exactly for powers of two. */
  lemma {:induction false} ClearLowestBit(n: nat)
    requires n > 0
    ensures BitAnd(n, n - 1) == 0 <==> IsPow2(n)
  {
    if n % 2 == 1 {
      BitAndSelf(n / 2);
      assert (n - 1) / 2 == n / 2;
    } else {
      ClearLowestBit(n / 2);
      assert (n - 1) / 2 == n / 2 - 1;
    }
  }

  /** The package's test, on the low 32 bits as JavaScript computes it. */
  predicate PassesBitTest(n: int) {
    n > 0 && BitAnd(n % TWO_TO_THE_32, (n - 1) % TWO_TO_THE_32) == 0
  }

  lemma OneLess(n: int)
    requires n % TWO_TO_THE_32 > 0
    ensures (n - 1) % TWO_TO_THE_32 == n % TWO_TO_THE_32 - 1
  {}

  /**
   * "Passes only powers of two" is false of the bit test: it looks at the low
   * 32 bits alone. This is what it recognises, for every integer.
   */
  lemma BitTestExactly(n: int)
    ensures PassesBitTest(n) <==>
            n > 0 && (n % TWO_TO_THE_32 == 0 || IsPow2(n % TWO_TO_THE_32))
    ensures 0 < n < TWO_TO_THE_32 ==> (PassesBitTest(n) <==> IsPow2(n))
  {
    if n > 0 {
      var low := n % TWO_TO_THE_32;
      if low > 0 {
        OneLess(n);
        ClearLowestBit(low);
      }
    }
  }

  lemma BitTestAcceptsThreeTimesTwo32()
    ensures PassesBitTest(3 * TWO_TO_THE_32) && !IsPow2(3 * TWO_TO_THE_32)
  {
    assert Pow2(8) == 256 && Pow2(16) == 65536;
    assert Pow2(24) == 16777216;
    assert Pow2(32) == TWO_TO_THE_32;
    assert Pow2(34) == 4 * TWO_TO_THE_32;
    NotBetween(3 * TWO_TO_THE_32, 33);
    BitTestExactly(3 * TWO_TO_THE_32);
  }

  /** No power of two lies strictly between two neighbours. */
  lemma NotBetween(n: nat, k: nat)
    requires Pow2(k) < n < Pow2(k + 1)
    ensures !IsPow2(n)
  {
    if Log2(n) <= k {
      Pow2Monotone(Log2(n), k);
    } else {
      Pow2Monotone(k + 1, Log2(n));
    }
  }
}
