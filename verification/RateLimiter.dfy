/** The server's rate limiter object: a global bucket, and a map of client buckets that is swept. */
module RateLimiter {
  import opened ClientHistories
  import opened RateLimiting
  import opened TokenBucket

  class Limiter {
    var tokens: real
    var lastRefill: real
    var perIp: Buckets
    const maxTokens: real
    const refillRate: real

    /** The global bucket. */
    function Global(): Bucket
      reads this
    {
      Bucket(tokens, lastRefill)
    }

    function GlobalLimits(): Limits {
      Limits(maxTokens, refillRate)
    }

    function ClientLimits(): Limits {
      PerClient(maxTokens, refillRate)
    }

    constructor (maxTokens: real, refillRate: real, now: real)
      ensures this.maxTokens == maxTokens && this.refillRate == refillRate
      ensures GlobalLimits() == Limits(maxTokens, refillRate)
      ensures ClientLimits() == Limits(maxTokens / 10.0, refillRate / 10.0)
      ensures Global() == Bucket(maxTokens, now) && perIp == map[]
    {
      this.maxTokens := maxTokens;
      this.refillRate := refillRate;
      tokens := maxTokens;
      lastRefill := now;
      perIp := map[];
    }

    method Refill(now: real)
      modifies this`tokens, this`lastRefill
      ensures Global() == Bucket(Refilled(GlobalLimits(), old(Global()), now), now)
    {
      var elapsed := now - lastRefill;
      tokens := tokens + elapsed * refillRate;
      if tokens > maxTokens {
        tokens := maxTokens;
      }
      lastRefill := now;
    }

    method AllowN(n: real, now: real) returns (ok: bool)
      modifies this`tokens, this`lastRefill
      ensures ok == Admits(GlobalLimits(), old(Global()), Call(now, now, n))
      ensures Global() == Take(GlobalLimits(), old(Global()), Call(now, now, n))
    {
      Refill(now);
      if tokens >= n {
        tokens := tokens - n;
        return true;
      }
      return false;
    }

    method Allow(now: real) returns (ok: bool)
      modifies this`tokens, this`lastRefill
      ensures ok == Admits(GlobalLimits(), old(Global()), Call(now, now, 1.0))
      ensures Global() == Take(GlobalLimits(), old(Global()), Call(now, now, 1.0))
    {
      Refill(now);
      if tokens >= 1.0 {
        tokens := tokens - 1.0;
        return true;
      }
      return false;
    }

    /** Reads the clock when a bucket is created, when the elapsed time is measured and when it is stored. */
    method AllowIp(ip: string, created: real, seen: real, stored: real) returns (ok: bool)
      modifies this`perIp
      ensures ok == Allows(ClientLimits(), old(perIp), Access(ip, created, seen, stored))
      ensures perIp == Apply(ClientLimits(), true, old(perIp), Access(ip, created, seen, stored))
    {
      ghost var was := perIp;
      ghost var found := BucketFor(ClientLimits(), was, ip, created);
      if ip !in perIp {
        perIp := perIp[ip := Bucket(maxTokens / 10.0, created)];
      }
      var elapsed := seen - perIp[ip].last;
      var level := perIp[ip].level + elapsed * (refillRate / 10.0);
      if level > maxTokens / 10.0 {
        level := maxTokens / 10.0;
      }
      assert level == Refilled(ClientLimits(), found, seen);
      hide Refilled;
      perIp := perIp[ip := Bucket(level, stored)];
      ok := level >= 1.0;
      if ok {
        perIp := perIp[ip := Bucket(level - 1.0, stored)];
      }
      assert perIp == was[ip := Take(ClientLimits(), found, Call(seen, stored, 1.0))];
    }

    /** One sweep of the cleanup loop: visits every bucket and deletes the ones idle too long. */
    method Cleanup(now: real)
      modifies this`perIp
      ensures perIp == Swept(old(perIp), now)
      ensures perIp == map ip | ip in old(perIp) && now - old(perIp)[ip].last <= 300.0 :: old(perIp)[ip]
    {
      var todo := perIp.Keys;
      while todo != {}
        invariant todo <= old(perIp).Keys
        invariant perIp == map ip | ip in old(perIp) && (ip in todo || !Expired(old(perIp)[ip], now)) :: old(perIp)[ip]
        decreases todo
      {
        var ip :| ip in todo;
        if now - perIp[ip].last > IDLE_LIMIT {
          perIp := perIp - {ip};
        }
        todo := todo - {ip};
      }
    }

    /** Carries out a whole history of calls and sweeps. */
    method Serve(ops: seq<Op>) returns (decisions: seq<bool>)
      modifies this`perIp
      ensures decisions == Decisions(ClientLimits(), true, old(perIp), ops)
      ensures perIp == After(ClientLimits(), true, old(perIp), ops)
    {
      hide *;
      decisions := [];
      var lim := ClientLimits();
      for k := 0 to |ops|
        invariant Decisions(lim, true, old(perIp), ops) == decisions + Decisions(lim, true, perIp, ops[k..])
        invariant After(lim, true, old(perIp), ops) == After(lim, true, perIp, ops[k..])
      {
        var op := ops[k];
        assert ops[k..][0] == op && ops[k..][1..] == ops[k + 1..];
        OneOp(lim, perIp, ops[k..]);
        match op {
          case Access(ip, created, seen, stored) =>
            var ok := AllowIp(ip, created, seen, stored);
            decisions := decisions + [ok];
          case Sweep(now) =>
            Cleanup(now);
        }
      }
      Finished(lim, perIp);
    }
  }

  // ---------------------------------------------------------------- new limiters

  /** In the window from s to t the client had at most a tenth of maxTokens and a tenth of the refill. */
  predicate WithinTenth(maxTokens: real, refillRate: real, ops: seq<Op>, decisions: seq<bool>, ip: string, s: real, t: real)
    requires |decisions| == Accesses(ops)
  {
    Tally(ops, decisions, ip, s, t) as real <= maxTokens / 10.0 + refillRate / 10.0 * (t - s)
  }

  /** All calls of the client were admitted. */
  predicate NoneRefused(ops: seq<Op>, decisions: seq<bool>, ip: string)
    requires |decisions| == Accesses(ops)
  {
    AllTrue(Pick(ops, decisions, ip))
  }

  /** Sweeps do not matter, because there are none or because a bucket refills while it is idle. */
  predicate SweepsHarmless(maxTokens: real, refillRate: real, ops: seq<Op>) {
    NoSweeps(ops) || 300.0 * refillRate >= maxTokens
  }

  lemma HarmlessDecisions(maxTokens: real, refillRate: real, ops: seq<Op>) returns (evict: bool)
    requires SweepsHarmless(maxTokens, refillRate, ops)
    ensures var lim := Limits(maxTokens / 10.0, refillRate / 10.0);
            && (evict ==> RefillsWhileIdle(lim)) && |Decisions(lim, true, map[], ops)| == Accesses(ops)
            && Decisions(lim, true, map[], ops) == Decisions(lim, evict, map[], ops)
  {
    hide Decisions;
    var lim := Limits(maxTokens / 10.0, refillRate / 10.0);
    OneDecisionEach(lim, true, map[], ops);
    evict := !NoSweeps(ops);
    if evict {
      FiveMinutes(lim);
    } else {
      SweeplessRun(lim, map[], ops);
    }
  }

  lemma TenthInWindow(maxTokens: real, refillRate: real, now: real, ops: seq<Op>, ip: string, s: real, t: real)
    requires 0.0 <= maxTokens && 0.0 <= refillRate && Timed(now, ops) && SweepsHarmless(maxTokens, refillRate, ops) && s <= t
    ensures var d := Decisions(Limits(maxTokens / 10.0, refillRate / 10.0), true, map[], ops);
            |d| == Accesses(ops) && WithinTenth(maxTokens, refillRate, ops, d, ip, s, t)
  {
    hide Decisions, Timed, RefillsWhileIdle, SweepsHarmless, Tally, AdmittedIn;
    var lim := Limits(maxTokens / 10.0, refillRate / 10.0);
    var evict := HarmlessDecisions(maxTokens, refillRate, ops);
    TallyIsAdmitted(lim, evict, map[], ops, ip, s, t);
    ClientWindowBound(lim, evict, now, ops, ip, s, t);
  }

  lemma NoneRefusedIff(maxTokens: real, refillRate: real, now: real, ops: seq<Op>, ip: string)
    requires 0.0 <= maxTokens && 0.0 <= refillRate && Timed(now, ops) && SweepsHarmless(maxTokens, refillRate, ops)
    ensures var lim := Limits(maxTokens / 10.0, refillRate / 10.0);
            var d := Decisions(lim, true, map[], ops);
            |d| == Accesses(ops) && (NoneRefused(ops, d, ip) <==> EveryRunWithin(lim, CallsOf(ip, ops)))
  {
    hide Decisions, Timed, RefillsWhileIdle, SweepsHarmless, Pick, AllTrue, EveryRunWithin;
    var lim := Limits(maxTokens / 10.0, refillRate / 10.0);
    var evict := HarmlessDecisions(maxTokens, refillRate, ops);
    PickedAreOwn(lim, evict, map[], ops, ip);
    OwnAllAdmittedIff(lim, evict, now, ops, ip);
  }

  /**
   A new limiter that serves a history of calls and sweeps: every client gets a tenth of the limiter's
   parameters, in every window at most, and is never refused exactly when a bucket of its own would not refuse.
   */
  method ServeNew(maxTokens: real, refillRate: real, now: real, ops: seq<Op>) returns (decisions: seq<bool>)
    requires 0.0 <= maxTokens && 0.0 <= refillRate && Timed(now, ops) && SweepsHarmless(maxTokens, refillRate, ops)
    ensures |decisions| == Accesses(ops)
    ensures forall ip, s, t :: s <= t ==> WithinTenth(maxTokens, refillRate, ops, decisions, ip, s, t)
    ensures forall ip ::
              NoneRefused(ops, decisions, ip) <==> EveryRunWithin(Limits(maxTokens / 10.0, refillRate / 10.0), CallsOf(ip, ops))
  {
    hide *;
    var limiter := new Limiter(maxTokens, refillRate, now);
    decisions := limiter.Serve(ops);
    ghost var _ := HarmlessDecisions(maxTokens, refillRate, ops);
    forall ip, s, t | s <= t
      ensures WithinTenth(maxTokens, refillRate, ops, decisions, ip, s, t)
    {
      TenthInWindow(maxTokens, refillRate, now, ops, ip, s, t);
    }
    forall ip
      ensures NoneRefused(ops, decisions, ip) <==> EveryRunWithin(Limits(maxTokens / 10.0, refillRate / 10.0), CallsOf(ip, ops))
    {
      NoneRefusedIff(maxTokens, refillRate, now, ops, ip);
    }
  }

  /** Of any number of first calls of a client at one instant, exactly those up to a tenth of maxTokens are admitted. */
  method FirstCalls(maxTokens: real, refillRate: real, now: real, ip: string, t: real, n: nat) returns (decisions: seq<bool>)
    ensures |decisions| == n && forall k :: 0 <= k < n ==> decisions[k] == ((k + 1) as real <= maxTokens / 10.0)
  {
    var limiter := new Limiter(maxTokens, refillRate, now);
    ghost var lim := Limits(maxTokens / 10.0, refillRate / 10.0);
    decisions := [];
    for k := 0 to n
      invariant limiter.ClientLimits() == lim && |decisions| == k
      invariant k > 0 ==> ip in limiter.perIp && limiter.perIp[ip].last == t
      invariant ip in limiter.perIp ==>
                  k > 0 && limiter.perIp[ip].level == (if k as real <= lim.cap then lim.cap - k as real else limiter.perIp[ip].level)
                  && limiter.perIp[ip].level <= lim.cap && (k as real > lim.cap ==> limiter.perIp[ip].level < 1.0)
      invariant forall i :: 0 <= i < k ==> decisions[i] == ((i + 1) as real <= lim.cap)
    {
      AccessLeaves(lim, true, limiter.perIp, ip, t);
      SameInstant(lim, limiter.perIp, ip, t);
      hide Apply, Allows;
      var ok := limiter.AllowIp(ip, t, t, t);
      decisions := decisions + [ok];
    }
  }

  lemma SameInstant(lim: Limits, m: Buckets, ip: string, t: real)
    requires ip in m ==> m[ip].last == t && m[ip].level <= lim.cap
    ensures LevelAt(lim, m, ip, t) == if ip in m then m[ip].level else lim.cap
  {
    assert Gain(lim, t - t) == 0.0;
  }

  predicate Arriving(now: real, times: seq<real>) {
    forall k :: 0 <= k < |times| ==> now <= times[k] && (k > 0 ==> times[k - 1] <= times[k])
  }

  /** Arrivals i to j number at most maxTokens and the refill of the time between them. */
  predicate NotTooDense(maxTokens: real, refillRate: real, times: seq<real>, i: nat, j: nat)
    requires i <= j < |times|
  {
    (j - i + 1) as real <= maxTokens + refillRate * (times[j] - times[i])
  }

  function UnitCalls(times: seq<real>): (calls: seq<Call>)
    ensures |calls| == |times|
  {
    seq(|times|, k requires 0 <= k < |times| => Call(times[k], times[k], 1.0))
  }

  lemma UnitCallsOrdered(now: real, times: seq<real>)
    requires Arriving(now, times)
    ensures Ordered(now, UnitCalls(times)) && SingleReading(UnitCalls(times)) && UnitCosts(UnitCalls(times))
  {
    var calls := UnitCalls(times);
    forall k | 0 <= k < |calls|
      ensures Before(now, calls, k) <= calls[k].seen <= calls[k].stored
    {
      assert now <= times[k] && (k > 0 ==> times[k - 1] <= times[k]);
    }
  }

  lemma SameDensity(maxTokens: real, refillRate: real, times: seq<real>, i: nat, j: nat)
    requires i <= j < |times|
    ensures CountWithin(Limits(maxTokens, refillRate), UnitCalls(times), i, j) <==> NotTooDense(maxTokens, refillRate, times, i, j)
  {
    var calls := UnitCalls(times);
    assert calls[i].seen == times[i] && calls[j].seen == times[j];
    hide UnitCalls;
  }

  lemma ArrivalsAdmittedIff(maxTokens: real, refillRate: real, now: real, times: seq<real>)
    requires 0.0 <= refillRate && Arriving(now, times)
    ensures AllAdmitted(Limits(maxTokens, refillRate), now, UnitCalls(times))
       <==> forall i, j :: 0 <= i <= j < |times| ==> NotTooDense(maxTokens, refillRate, times, i, j)
  {
    hide *;
    UnitCallsOrdered(now, times);
    AllowIff(Limits(maxTokens, refillRate), now, UnitCalls(times));
    forall i, j | 0 <= i <= j < |times|
      ensures CountWithin(Limits(maxTokens, refillRate), UnitCalls(times), i, j) <==> NotTooDense(maxTokens, refillRate, times, i, j)
    {
      SameDensity(maxTokens, refillRate, times, i, j);
    }
  }

  /** A new limiter asked for one token at a time: all calls of Allow are admitted exactly when no run of them is too dense. */
  method AllowAll(maxTokens: real, refillRate: real, now: real, times: seq<real>) returns (decisions: seq<bool>)
    requires 0.0 <= refillRate && Arriving(now, times)
    ensures |decisions| == |times|
    ensures AllTrue(decisions) <==> forall i, j :: 0 <= i <= j < |times| ==> NotTooDense(maxTokens, refillRate, times, i, j)
  {
    hide Admits, Take, NotTooDense;
    var limiter := new Limiter(maxTokens, refillRate, now);
    ghost var lim, b, calls := Limits(maxTokens, refillRate), Bucket(maxTokens, now), UnitCalls(times);
    ArrivalsAdmittedIff(maxTokens, refillRate, now, times);
    decisions := [];
    for k := 0 to |times|
      invariant limiter.GlobalLimits() == lim && |decisions| == k && limiter.Global() == State(lim, b, calls, k)
      invariant forall i :: 0 <= i < k ==> decisions[i] == AdmitsAt(lim, b, calls, i)
    {
      var ok := limiter.Allow(times[k]);
      decisions := decisions + [ok];
    }
    assert AllTrue(decisions) <==> AllAdmitted(lim, now, calls);
  }

  /** Every decision of AllowN, for any amounts: enough is left of a bucket that was full at any earlier call. */
  method AskAll(maxTokens: real, refillRate: real, now: real, calls: seq<Call>) returns (decisions: seq<bool>)
    requires 0.0 <= maxTokens && 0.0 <= refillRate && Ordered(now, calls) && SingleReading(calls)
    ensures |decisions| == |calls|
    ensures var lim := Limits(maxTokens, refillRate);
            forall j :: 0 <= j < |calls| ==>
              (decisions[j] <==> forall i :: 0 <= i <= j ==> calls[j].cost <= FromFull(lim, Settled(lim, now, calls), i, j))
  {
    var limiter := new Limiter(maxTokens, refillRate, now);
    ghost var lim, b := Limits(maxTokens, refillRate), Bucket(maxTokens, now);
    decisions := [];
    hide Admits, Take, Settled, FromFull, Ordered;
    for k := 0 to |calls|
      invariant limiter.GlobalLimits() == lim && |decisions| == k && limiter.Global() == State(lim, b, calls, k)
      invariant forall i :: 0 <= i < k ==> decisions[i] == AdmitsAt(lim, b, calls, i)
    {
      var ok := limiter.AllowN(calls[k].cost, calls[k].seen);
      assert Call(calls[k].seen, calls[k].seen, calls[k].cost) == calls[k];
      decisions := decisions + [ok];
    }
    forall j | 0 <= j < |calls|
      ensures decisions[j] <==> forall i :: 0 <= i <= j ==> calls[j].cost <= FromFull(lim, Settled(lim, now, calls), i, j)
    {
      DecisionIff(lim, now, calls, j);
    }
  }

  lemma OneOp(lim: Limits, m: Buckets, ops: seq<Op>)
    requires ops != []
    ensures var m' := Apply(lim, true, m, ops[0]);
            && After(lim, true, m, ops) == After(lim, true, m', ops[1..])
            && (ops[0].Access? ==> Decisions(lim, true, m, ops) == [Allows(lim, m, ops[0])] + Decisions(lim, true, m', ops[1..]))
            && (ops[0].Sweep? ==> m' == Swept(m, ops[0].now) && Decisions(lim, true, m, ops) == Decisions(lim, true, m', ops[1..]))
  {
    hide Allows;
  }

  lemma Finished(lim: Limits, m: Buckets)
    ensures After(lim, true, m, []) == m && Decisions(lim, true, m, []) == []
  {
  }
}
