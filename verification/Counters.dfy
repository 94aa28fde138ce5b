/** Counters that wrap around at 2^64. */
module Counters {

  const TWO64: nat := 0x1_0000_0000_0000_0000

  type U64 = n: nat | n < TWO64

  function Wrap(n: nat): U64 { n % TWO64 }

  lemma WrapNext(n: nat)
    ensures Wrap(Wrap(n) + 1) == Wrap(n + 1)
  {
  }

  lemma WrapAtMost(n: nat)
    ensures Wrap(n) <= n
  {
  }

  lemma WrapSmall(n: nat)
    requires n < TWO64
    ensures Wrap(n) == n
  {
  }

  /** A counter kept modulo 2^64 stands for the total. */
  predicate Counts(counter: nat, total: nat) {
    counter % TWO64 == total % TWO64
  }

  lemma {:induction false} Shifted(n: nat, k: nat)
    ensures Counts(n + k * TWO64, n)
  {
    if k > 0 {
      Shifted(n, k - 1);
      assert n + k * TWO64 == (n + (k - 1) * TWO64) + TWO64;
    }
  }

  lemma Carried(last: nat, counter: nat, total: nat, more: nat)
    requires Counts(counter, total) && Counts(last, counter + more)
    ensures Counts(last, total + more)
  {
    var a, b := counter / TWO64, total / TWO64;
    assert counter + more == (counter % TWO64 + more) + a * TWO64;
    assert total + more == (total % TWO64 + more) + b * TWO64;
    Shifted(counter % TWO64 + more, a);
    Shifted(total % TWO64 + more, b);
  }

  lemma WrapCounts(n: nat)
    ensures Counts(Wrap(n), n) && Counts(n, n)
  {
  }

  lemma WrapPlus(a: nat, b: nat)
    ensures Wrap(Wrap(a) + b) == Wrap(a + b)
  {
    WrapCounts(a);
    WrapCounts(Wrap(a) + b);
    Carried(Wrap(Wrap(a) + b), Wrap(a), a, b);
  }
}
