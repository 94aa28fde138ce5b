/** Multiples and remainders for a round length that is not a constant. */
module Rounds {
  /** h rounds of n. */
  function Times(h: int, n: nat): int { h * n }

  lemma TimesNext(h: int, n: nat)
    ensures Times(h + 1, n) == Times(h, n) + n && Times(0, n) == 0 && Times(1, n) == n
  {
  }

  /** More rounds take longer, by at least one round each. */
  lemma {:induction false} TimesGrows(g: int, h: int, n: nat)
    requires g < h
    ensures Times(g, n) + n <= Times(h, n)
    decreases h - g
  {
    hide Times;
    TimesNext(h - 1, n);
    if g < h - 1 {
      TimesGrows(g, h - 1, n);
    }
  }

  lemma TimesAdd(g: int, h: int, n: nat)
    ensures Times(g + h, n) == Times(g, n) + Times(h, n)
  {
  }

  lemma Division(x: nat, n: nat)
    requires n > 0
    ensures x == Times(x / n, n) + x % n && 0 <= x % n < n
  {
  }

  lemma Remainder(n: nat, q: int, r: nat, x: nat)
    requires r < n && x == Times(q, n) + r
    ensures x % n == r && x / n == q
  {
    hide Times;
    Division(x, n);
    var p := x / n;
    if p < q {
      TimesGrows(p, q, n);
    } else if q < p {
      TimesGrows(q, p, n);
    }
  }

  lemma NextRemainder(n: nat, x: nat)
    requires n > 0
    ensures (x + 1) % n == if x % n == n - 1 then 0 else x % n + 1
  {
    hide Times;
    Division(x, n);
    TimesNext(x / n, n);
    if x % n == n - 1 {
      Remainder(n, x / n + 1, 0, x + 1);
    } else {
      Remainder(n, x / n, x % n + 1, x + 1);
    }
  }
}
