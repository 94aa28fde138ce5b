/**
 The token bucket behind the server's rate limiter, over whole histories of calls. Time and
 tokens are reals. A call measures the elapsed time at one clock reading and stores another
 one; Allow and AllowN use a single reading for both, AllowIP reads the clock twice.
 */
module TokenBucket {

  datatype Limits = Limits(cap: real, rate: real)

  datatype Bucket = Bucket(level: real, last: real)

  /** Elapsed time is measured at seen, the new timestamp is taken at stored. */
  datatype Call = Call(seen: real, stored: real, cost: real)

  function Min(a: real, b: real): real { if a > b then b else a }

  /** Tokens earned in dt seconds. */
  function Gain(lim: Limits, dt: real): real { dt * lim.rate }

  /** The level a call finds: what was left plus what was earned, cut off at the cap. */
  function Refilled(lim: Limits, b: Bucket, now: real): real {
    Min(lim.cap, b.level + Gain(lim, now - b.last))
  }

  predicate Admits(lim: Limits, b: Bucket, c: Call) {
    Refilled(lim, b, c.seen) >= c.cost
  }

  function Take(lim: Limits, b: Bucket, c: Call): Bucket {
    var level := Refilled(lim, b, c.seen);
    Bucket(if level >= c.cost then level - c.cost else level, c.stored)
  }

  /** The bucket after the first k calls. */
  function State(lim: Limits, b: Bucket, calls: seq<Call>, k: nat): Bucket
    requires k <= |calls|
  {
    if k == 0 then b else Take(lim, State(lim, b, calls, k - 1), calls[k - 1])
  }

  /** Whether call k is admitted. */
  predicate AdmitsAt(lim: Limits, b: Bucket, calls: seq<Call>, k: nat)
    requires k < |calls|
  {
    Admits(lim, State(lim, b, calls, k), calls[k])
  }

  /** The clock never runs backwards. The amounts may be anything: a negative one puts tokens back. */
  predicate Ordered(start: real, calls: seq<Call>) {
    forall k :: 0 <= k < |calls| ==> Before(start, calls, k) <= calls[k].seen <= calls[k].stored
  }

  /** The last clock reading before call k. */
  function Before(start: real, calls: seq<Call>, k: nat): real
    requires k <= |calls|
  {
    if k == 0 then start else calls[k - 1].stored
  }

  predicate Sound(lim: Limits, b: Bucket) {
    0.0 <= lim.rate && 0.0 <= b.level <= lim.cap
  }

  lemma GainLaws(lim: Limits, x: real, y: real)
    requires 0.0 <= lim.rate
    ensures Gain(lim, x + y) == Gain(lim, x) + Gain(lim, y)
    ensures x <= y ==> Gain(lim, x) <= Gain(lim, y)
    ensures Gain(lim, 0.0) == 0.0
  {
    if x <= y {
      assert (y - x) * lim.rate >= 0.0;
    }
  }

  /** What the latest call may have put on top of the cap. */
  function Credit(calls: seq<Call>, k: nat): real
    requires k <= |calls|
  {
    if k == 0 || calls[k - 1].cost >= 0.0 then 0.0 else -calls[k - 1].cost
  }

  /** Whatever is called and when, the level is never negative and exceeds the cap at most by a negative amount just asked for. */
  lemma {:induction false} LevelsStay(lim: Limits, b: Bucket, calls: seq<Call>, k: nat)
    requires Sound(lim, b) && Ordered(b.last, calls) && k <= |calls|
    ensures var st := State(lim, b, calls, k);
            0.0 <= st.level <= lim.cap + Credit(calls, k) && st.last == Before(b.last, calls, k)
  {
    hide Gain;
    if k > 0 {
      LevelsStay(lim, b, calls, k - 1);
      var st := State(lim, b, calls, k - 1);
      assert Before(b.last, calls, k - 1) <= calls[k - 1].seen;
      GainLaws(lim, 0.0, calls[k - 1].seen - st.last);
    }
  }

  lemma NeverNegative(lim: Limits, b: Bucket, calls: seq<Call>, k: nat)
    requires Sound(lim, b) && Ordered(b.last, calls) && k <= |calls|
    ensures State(lim, b, calls, k).level >= 0.0 && State(lim, b, calls, k).last == Before(b.last, calls, k)
  {
    LevelsStay(lim, b, calls, k);
  }

  /** A history that starts full and asks only for the given amounts. */
  ghost predicate History(amounts: iset<real>, start: real, calls: seq<Call>) {
    Ordered(start, calls) && forall k :: 0 <= k < |calls| ==> calls[k].cost in amounts
  }

  ghost predicate LevelsBounded(lim: Limits, amounts: iset<real>) {
    forall start: real, calls: seq<Call>, k: nat ::
      k <= |calls| && History(amounts, start, calls) ==> 0.0 <= State(lim, Bucket(lim.cap, start), calls, k).level <= lim.cap
  }

  /** Asking a full bucket for a negative amount lifts it above the cap. */
  lemma NegativeLifts(lim: Limits, start: real, amount: real)
    requires 0.0 <= lim.cap && amount < 0.0
    ensures State(lim, Bucket(lim.cap, start), [Call(start, start, amount)], 1).level == lim.cap - amount > lim.cap
  {
    assert State(lim, Bucket(lim.cap, start), [Call(start, start, amount)], 0) == Bucket(lim.cap, start);
    assert Gain(lim, start - start) == 0.0;
    hide Gain;
  }

  /** Levels stay between zero and the cap in every history exactly when no amount is negative. */
  lemma LevelsBoundedIff(lim: Limits, amounts: iset<real>)
    requires 0.0 <= lim.rate && 0.0 <= lim.cap
    ensures LevelsBounded(lim, amounts) <==> forall a :: a in amounts ==> a >= 0.0
  {
    hide State;
    if amount :| amount in amounts && amount < 0.0 {
      var calls := [Call(0.0, 0.0, amount)];
      NegativeLifts(lim, 0.0, amount);
      assert History(amounts, 0.0, calls);
      assert State(lim, Bucket(lim.cap, 0.0), calls, 1).level > lim.cap;
    } else {
      forall start: real, calls: seq<Call>, k: nat | k <= |calls| && History(amounts, start, calls)
        ensures 0.0 <= State(lim, Bucket(lim.cap, start), calls, k).level <= lim.cap
      {
        LevelsStay(lim, Bucket(lim.cap, start), calls, k);
        assert k > 0 ==> calls[k - 1].cost in amounts;
      }
    }
  }

  // ---------------------------------------------------------------- bound over a window

  /** Whether call c touches the time window from s to t. */
  predicate Overlaps(c: Call, s: real, t: real) {
    c.stored >= s && c.seen <= t
  }

  /** Tokens granted by the first k calls to calls that touch the window, less what negative amounts put back. */
  function Granted(lim: Limits, b: Bucket, calls: seq<Call>, k: nat, s: real, t: real): real
    requires k <= |calls|
  {
    if k == 0 then 0.0
    else
      Granted(lim, b, calls, k - 1, s, t)
      + if AdmitsAt(lim, b, calls, k - 1) && Overlaps(calls[k - 1], s, t) then calls[k - 1].cost else 0.0
  }

  function Pos(x: real): real { if x > 0.0 then x else 0.0 }

  lemma Spending(lim: Limits, b: Bucket, c: Call)
    requires 0.0 <= lim.rate && b.last <= c.seen <= c.stored
    ensures var spent := if Admits(lim, b, c) then c.cost else 0.0;
            spent + Take(lim, b, c).level <= lim.cap
            && spent + Take(lim, b, c).level <= b.level + Gain(lim, c.seen - b.last)
  {
  }

  lemma InOrder(start: real, calls: seq<Call>, k: nat)
    requires Ordered(start, calls) && k + 1 < |calls|
    ensures calls[k].seen <= calls[k].stored <= calls[k + 1].seen
  {
    assert Before(start, calls, k) <= calls[k].seen && Before(start, calls, k + 1) == calls[k].stored;
  }

  /** What was granted so far in the window, together with what is left, never exceeds the cap plus the refill. */
  lemma {:induction false} GrantedSoFar(lim: Limits, b: Bucket, calls: seq<Call>, k: nat, s: real, t: real)
    requires Sound(lim, b) && Ordered(b.last, calls) && k <= |calls| && s <= t
    ensures var g := Granted(lim, b, calls, k, s, t);
            if k == 0 || calls[k - 1].stored < s then g == 0.0
            else if calls[k - 1].seen <= t then
              g + State(lim, b, calls, k).level <= lim.cap + Gain(lim, Pos(calls[k - 1].seen - s))
            else g <= lim.cap + Gain(lim, t - s)
  {
    if k > 0 {
      GrantedSoFar(lim, b, calls, k - 1, s, t);
      NeverNegative(lim, b, calls, k - 1);
      NeverNegative(lim, b, calls, k);
      var st, c := State(lim, b, calls, k - 1), calls[k - 1];
      assert Before(b.last, calls, k - 1) <= c.seen <= c.stored;
      hide Gain, Refilled, Admits, Take, Ordered, Sound;
      Spending(lim, st, c);
      GainLaws(lim, 0.0, Pos(c.seen - s));
      GainLaws(lim, 0.0, t - s);
      if k > 1 {
        var d := calls[k - 2];
        InOrder(b.last, calls, k - 2);
        if d.stored >= s {
          var earned := c.seen - st.last;
          GainLaws(lim, Pos(d.seen - s), earned);
          GainLaws(lim, Pos(d.seen - s) + earned, Pos(c.seen - s));
          GainLaws(lim, Pos(d.seen - s), t - s);
        }
      }
    }
  }

  /** In every run and every window, no more than the cap plus the window's refill is granted, net of what is put back. */
  lemma WindowBound(lim: Limits, b: Bucket, calls: seq<Call>, s: real, t: real)
    requires Sound(lim, b) && Ordered(b.last, calls) && s <= t
    ensures Granted(lim, b, calls, |calls|, s, t) <= lim.cap + Gain(lim, t - s)
  {
    hide Gain;
    var n := |calls|;
    GrantedSoFar(lim, b, calls, n, s, t);
    NeverNegative(lim, b, calls, n);
    GainLaws(lim, 0.0, t - s);
    if n > 0 {
      GainLaws(lim, Pos(calls[n - 1].seen - s), t - s);
    }
  }

  // ---------------------------------------------------------------- exactly which histories are admitted

  function Spent(calls: seq<Call>, i: nat, j: nat): real
    requires i <= j <= |calls|
    decreases j
  {
    if i == j then 0.0 else Spent(calls, i, j - 1) + calls[j - 1].cost
  }

  /** Tokens earned from call i to call j. */
  function Earned(lim: Limits, calls: seq<Call>, i: nat, j: nat): real
    requires i <= j < |calls|
    decreases j
  {
    if i == j then 0.0 else Earned(lim, calls, i, j - 1) + Gain(lim, calls[j].seen - calls[j - 1].stored)
  }

  /** The level call j finds if the bucket was full before the first call and every earlier call was admitted. */
  function Ideal(lim: Limits, calls: seq<Call>, j: nat): real
    requires j < |calls|
  {
    if j == 0 then lim.cap
    else Min(lim.cap, Ideal(lim, calls, j - 1) - calls[j - 1].cost + Gain(lim, calls[j].seen - calls[j - 1].stored))
  }

  /** Starting full at call i, the level that call j would find without the cap. */
  function FromFull(lim: Limits, calls: seq<Call>, i: nat, j: nat): real
    requires i <= j < |calls|
  {
    lim.cap - Spent(calls, i, j) + Earned(lim, calls, i, j)
  }

  /** Closed form: the level is the smallest of the levels reached from full at any earlier call. */
  lemma {:induction false} IdealIsMinimum(lim: Limits, calls: seq<Call>, j: nat) returns (full: nat)
    requires j < |calls|
    ensures full <= j && Ideal(lim, calls, j) == FromFull(lim, calls, full, j)
    ensures forall i :: 0 <= i <= j ==> Ideal(lim, calls, j) <= FromFull(lim, calls, i, j)
  {
    hide Gain;
    if j == 0 {
      full := 0;
    } else {
      full := IdealIsMinimum(lim, calls, j - 1);
      forall i | 0 <= i < j
        ensures FromFull(lim, calls, i, j)
             == FromFull(lim, calls, i, j - 1) - calls[j - 1].cost + Gain(lim, calls[j].seen - calls[j - 1].stored)
      {
      }
      if Ideal(lim, calls, j) == lim.cap {
        full := j;
      }
    }
  }

  lemma {:induction false} IdealWhileAdmitted(lim: Limits, start: real, calls: seq<Call>, j: nat)
    requires 0.0 <= lim.rate && Ordered(start, calls) && j < |calls|
    requires forall k :: 0 <= k < j ==> AdmitsAt(lim, Bucket(lim.cap, start), calls, k)
    ensures Refilled(lim, State(lim, Bucket(lim.cap, start), calls, j), calls[j].seen) == Ideal(lim, calls, j)
  {
    hide Gain;
    var b := Bucket(lim.cap, start);
    if j == 0 {
      assert Before(start, calls, 0) <= calls[0].seen;
      GainLaws(lim, 0.0, calls[0].seen - start);
    } else {
      IdealWhileAdmitted(lim, start, calls, j - 1);
      assert AdmitsAt(lim, b, calls, j - 1);
    }
  }

  /** Every call is admitted, starting from a full bucket. */
  predicate AllAdmitted(lim: Limits, start: real, calls: seq<Call>) {
    forall k :: 0 <= k < |calls| ==> AdmitsAt(lim, Bucket(lim.cap, start), calls, k)
  }

  /** Calls i to j spend no more than a full bucket and what it earns on the way. */
  predicate RunWithin(lim: Limits, calls: seq<Call>, i: nat, j: nat)
    requires i <= j < |calls|
  {
    Spent(calls, i, j + 1) <= lim.cap + Earned(lim, calls, i, j)
  }

  predicate EveryRunWithin(lim: Limits, calls: seq<Call>) {
    forall i, j :: 0 <= i <= j < |calls| ==> RunWithin(lim, calls, i, j)
  }

  lemma AdmittedRun(lim: Limits, start: real, calls: seq<Call>, i: nat, j: nat)
    requires 0.0 <= lim.rate && Ordered(start, calls) && i <= j < |calls| && AllAdmitted(lim, start, calls)
    ensures RunWithin(lim, calls, i, j)
  {
    hide Gain, Refilled, Ideal, State;
    IdealWhileAdmitted(lim, start, calls, j);
    var _ := IdealIsMinimum(lim, calls, j);
    assert AdmitsAt(lim, Bucket(lim.cap, start), calls, j);
    assert Ideal(lim, calls, j) <= FromFull(lim, calls, i, j);
  }

  lemma {:induction false} AdmitAll(lim: Limits, start: real, calls: seq<Call>, n: nat)
    requires 0.0 <= lim.rate && Ordered(start, calls) && n <= |calls| && EveryRunWithin(lim, calls)
    ensures forall k :: 0 <= k < n ==> AdmitsAt(lim, Bucket(lim.cap, start), calls, k)
  {
    hide Gain, Refilled, Ideal, State;
    if n > 0 {
      AdmitAll(lim, start, calls, n - 1);
      var j := n - 1;
      IdealWhileAdmitted(lim, start, calls, j);
      var full := IdealIsMinimum(lim, calls, j);
      assert RunWithin(lim, calls, full, j);
    }
  }

  /** A history is admitted in full exactly when no run of calls spends more than the cap plus what it earns. */
  lemma AdmittedIff(lim: Limits, start: real, calls: seq<Call>)
    requires 0.0 <= lim.rate && Ordered(start, calls)
    ensures AllAdmitted(lim, start, calls) <==> EveryRunWithin(lim, calls)
  {
    hide RunWithin, AdmitsAt;
    if AllAdmitted(lim, start, calls) {
      forall i, j | 0 <= i <= j < |calls|
        ensures RunWithin(lim, calls, i, j)
      {
        AdmittedRun(lim, start, calls, i, j);
      }
    }
    if EveryRunWithin(lim, calls) {
      AdmitAll(lim, start, calls, |calls|);
    }
  }

  predicate SingleReading(calls: seq<Call>) {
    forall k :: 0 <= k < |calls| ==> calls[k].seen == calls[k].stored
  }

  lemma {:induction false} EarnedSpan(lim: Limits, calls: seq<Call>, i: nat, j: nat)
    requires 0.0 <= lim.rate && i <= j < |calls| && SingleReading(calls)
    ensures Earned(lim, calls, i, j) == Gain(lim, calls[j].seen - calls[i].seen)
    decreases j
  {
    hide Gain;
    GainLaws(lim, 0.0, 0.0);
    if i < j {
      EarnedSpan(lim, calls, i, j - 1);
      GainLaws(lim, calls[j - 1].seen - calls[i].seen, calls[j].seen - calls[j - 1].seen);
      assert (calls[j - 1].seen - calls[i].seen) + (calls[j].seen - calls[j - 1].seen) == calls[j].seen - calls[i].seen;
    }
  }

  /** Calls i to j spend no more than the cap plus the refill of the time between them. */
  predicate SpanWithin(lim: Limits, calls: seq<Call>, i: nat, j: nat)
    requires i <= j < |calls|
  {
    Spent(calls, i, j + 1) <= lim.cap + Gain(lim, calls[j].seen - calls[i].seen)
  }

  /**
   With one clock reading a call: a history is admitted in full exactly when every run of calls
   keeps within the cap plus the refill of its time span.
   */
  lemma SpanIff(lim: Limits, start: real, calls: seq<Call>)
    requires 0.0 <= lim.rate && Ordered(start, calls) && SingleReading(calls)
    ensures AllAdmitted(lim, start, calls)
       <==> (forall i, j :: 0 <= i <= j < |calls| ==> SpanWithin(lim, calls, i, j))
  {
    AdmittedIff(lim, start, calls);
    forall i, j | 0 <= i <= j < |calls|
      ensures RunWithin(lim, calls, i, j) <==> SpanWithin(lim, calls, i, j)
    {
      EarnedSpan(lim, calls, i, j);
    }
    hide RunWithin, SpanWithin, AllAdmitted;
  }

  // ---------------------------------------------------------------- calls that take one token

  predicate UnitCosts(calls: seq<Call>) {
    forall k :: 0 <= k < |calls| ==> calls[k].cost == 1.0
  }

  lemma {:induction false} UnitSpent(calls: seq<Call>, i: nat, j: nat)
    requires i <= j <= |calls| && UnitCosts(calls)
    ensures Spent(calls, i, j) == (j - i) as real
    decreases j
  {
    if i < j {
      UnitSpent(calls, i, j - 1);
    }
  }

  /** Arrivals i to j number at most cap + rate * (t_j - t_i). */
  predicate CountWithin(lim: Limits, calls: seq<Call>, i: nat, j: nat)
    requires i <= j < |calls|
  {
    (j - i + 1) as real <= lim.cap + lim.rate * (calls[j].seen - calls[i].seen)
  }

  /** Arrivals at Allow are all admitted exactly when no run of them is too dense. */
  lemma AllowIff(lim: Limits, start: real, calls: seq<Call>)
    requires 0.0 <= lim.rate && Ordered(start, calls) && SingleReading(calls) && UnitCosts(calls)
    ensures AllAdmitted(lim, start, calls) <==> forall i, j :: 0 <= i <= j < |calls| ==> CountWithin(lim, calls, i, j)
  {
    SpanIff(lim, start, calls);
    forall i, j | 0 <= i <= j < |calls|
      ensures SpanWithin(lim, calls, i, j) <==> CountWithin(lim, calls, i, j)
    {
      UnitSpent(calls, i, j + 1);
    }
    hide SpanWithin, CountWithin, AllAdmitted;
  }

  // ---------------------------------------------------------------- every decision of every history

  /** The history with each refused call asking for nothing. */
  function Settled(lim: Limits, start: real, calls: seq<Call>): (settled: seq<Call>)
    ensures |settled| == |calls|
  {
    seq(|calls|, k requires 0 <= k < |calls| =>
      if AdmitsAt(lim, Bucket(lim.cap, start), calls, k) then calls[k] else calls[k].(cost := 0.0))
  }

  /** A refused call changes nothing that a call asking for nothing would not change. */
  lemma RefusedTakesNothing(lim: Limits, b: Bucket, c: Call)
    requires !Admits(lim, b, c) && 0.0 <= lim.rate && 0.0 <= lim.cap && 0.0 <= b.level && b.last <= c.seen
    ensures var free := c.(cost := 0.0); Admits(lim, b, free) && Take(lim, b, free) == Take(lim, b, c)
  {
    GainLaws(lim, 0.0, c.seen - b.last);
  }

  lemma {:induction false} SettledStates(lim: Limits, start: real, calls: seq<Call>, k: nat)
    requires 0.0 <= lim.rate && 0.0 <= lim.cap && Ordered(start, calls) && k <= |calls|
    ensures var b, settled := Bucket(lim.cap, start), Settled(lim, start, calls);
            && State(lim, b, settled, k) == State(lim, b, calls, k)
            && forall i :: 0 <= i < k ==> AdmitsAt(lim, b, settled, i)
  {
    if k > 0 {
      SettledStates(lim, start, calls, k - 1);
      var b, settled := Bucket(lim.cap, start), Settled(lim, start, calls);
      var st := State(lim, b, calls, k - 1);
      NeverNegative(lim, b, calls, k - 1);
      assert Before(start, calls, k - 1) <= calls[k - 1].seen;
      hide Admits, Take;
      assert Admits(lim, st, settled[k - 1]) && Take(lim, st, settled[k - 1]) == Take(lim, st, calls[k - 1]) by {
        if !AdmitsAt(lim, b, calls, k - 1) {
          RefusedTakesNothing(lim, st, calls[k - 1]);
        }
      }
    }
  }

  lemma SettledOrdered(lim: Limits, start: real, calls: seq<Call>)
    requires Ordered(start, calls)
    ensures Ordered(start, Settled(lim, start, calls))
  {
    var settled := Settled(lim, start, calls);
    forall k | 0 <= k < |settled|
      ensures Before(start, settled, k) <= settled[k].seen <= settled[k].stored
    {
      assert Before(start, settled, k) == Before(start, calls, k) <= calls[k].seen <= calls[k].stored;
    }
  }

  /**
   Every decision of every history: call j is admitted exactly when, counting only what was granted since
   any earlier call i, a bucket that was full at call i would still hold enough.
   */
  lemma DecisionIff(lim: Limits, start: real, calls: seq<Call>, j: nat)
    requires 0.0 <= lim.rate && 0.0 <= lim.cap && Ordered(start, calls) && j < |calls|
    ensures AdmitsAt(lim, Bucket(lim.cap, start), calls, j)
       <==> forall i :: 0 <= i <= j ==> calls[j].cost <= FromFull(lim, Settled(lim, start, calls), i, j)
  {
    var b, settled := Bucket(lim.cap, start), Settled(lim, start, calls);
    SettledStates(lim, start, calls, j);
    SettledOrdered(lim, start, calls);
    assert settled[j].seen == calls[j].seen;
    hide Gain, Refilled, Ideal, State, FromFull, Settled;
    IdealWhileAdmitted(lim, start, settled, j);
    var full := IdealIsMinimum(lim, settled, j);
  }

  // ---------------------------------------------------------------- the first call split off

  lemma {:induction false} StateShift(lim: Limits, b: Bucket, calls: seq<Call>, k: nat)
    requires k < |calls|
    ensures State(lim, b, calls, k + 1) == State(lim, Take(lim, b, calls[0]), calls[1..], k)
  {
    hide Take;
    if k > 0 {
      StateShift(lim, b, calls, k - 1);
      assert calls[k] == calls[1..][k - 1];
    } else {
      assert State(lim, b, calls, 0) == b;
    }
  }

  lemma {:induction false} GrantedShift(lim: Limits, b: Bucket, calls: seq<Call>, k: nat, s: real, t: real)
    requires k < |calls|
    ensures Granted(lim, b, calls, k + 1, s, t)
         == (if Admits(lim, b, calls[0]) && Overlaps(calls[0], s, t) then calls[0].cost else 0.0)
            + Granted(lim, Take(lim, b, calls[0]), calls[1..], k, s, t)
  {
    hide Take, Admits;
    if k > 0 {
      GrantedShift(lim, b, calls, k - 1, s, t);
      StateShift(lim, b, calls, k - 1);
      assert calls[k] == calls[1..][k - 1];
    } else {
      assert State(lim, b, calls, 0) == b && Granted(lim, b, calls, 0, s, t) == 0.0;
    }
  }
}
