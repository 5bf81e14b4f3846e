/** Go's fixed-width integers: the values that int64 and uint64 arithmetic leaves. */
module Integers {
  import opened Strings

  const NANOS_PER_SECOND := 1_000_000_000
  const TWO_64 := 0x1_0000_0000_0000_0000
  const MAX_INT64 := 0x7FFF_FFFF_FFFF_FFFF
  const MIN_INT64 := -0x8000_0000_0000_0000

  predicate FitsInt64(n: int) { MIN_INT64 <= n <= MAX_INT64 }

  predicate Fits(n: int) { 0 <= n < TWO_64 }

  /** The value a uint64 holds after arithmetic whose exact result is n: it goes around until
      it fits. */
  function Wrap(n: int): (r: nat)
    ensures Fits(r)
    ensures Fits(n) ==> r == n
    decreases if n < 0 then TWO_64 - n else n
  {
    if n < 0 then Wrap(n + TWO_64) else if n >= TWO_64 then Wrap(n - TWO_64) else n
  }

  /** The value an int64 holds after arithmetic whose exact result is n. */
  function Int64(n: int): (r: int)
    ensures FitsInt64(r)
    ensures FitsInt64(n) ==> r == n
  {
    var low := n % TWO_64;
    if low <= MAX_INT64 then low else low - TWO_64
  }

  lemma Int64Wraps(n: int)
    ensures exists k: int :: Int64(n) == n + k * TWO_64
  {
    var q := n / TWO_64;
    assert Int64(n) == n + -q * TWO_64 || Int64(n) == n + (-q - 1) * TWO_64;
  }

  lemma WrapUp(n: int)
    ensures Wrap(n + TWO_64) == Wrap(n)
  {
  }

  lemma {:induction false} WrapOnce(n: int, k: int)
    ensures Wrap(n + k * TWO_64) == Wrap(n)
    decreases if k < 0 then -k else k
  {
    if k > 0 {
      WrapOnce(n, k - 1);
      WrapUp(n + (k - 1) * TWO_64);
    } else if k < 0 {
      WrapOnce(n, k + 1);
      WrapUp(n + k * TWO_64);
    }
  }

  /** How often the value went around. */
  lemma {:induction false} Laps(n: int) returns (k: int)
    ensures n == Wrap(n) + k * TWO_64
    decreases if n < 0 then TWO_64 - n else n
  {
    if n < 0 {
      k := Laps(n + TWO_64);
      k := k - 1;
    } else if n >= TWO_64 {
      k := Laps(n - TWO_64);
      k := k + 1;
    } else {
      k := 0;
    }
  }

  lemma WrapIsRemainder(n: int)
    ensures Wrap(n) == n % TWO_64
  {
    var k := Laps(n);
    ModUnique(n, TWO_64, k, Wrap(n));
  }

  lemma WrapSum(a: int, b: int)
    ensures Wrap(Wrap(a) + b) == Wrap(a + b)
  {
    var k := Laps(a);
    WrapOnce(Wrap(a) + b, k);
  }
}
