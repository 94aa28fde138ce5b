/**
 The decisions that the calls of one client get among the calls of all, with sweeps in between: exactly
 those of a bucket of its own.
 */
module ClientHistories {
  import opened RateLimiting
  import opened TokenBucket

  /** How many AllowIP calls there are. */
  function Accesses(ops: seq<Op>): nat {
    if ops == [] then 0 else (if ops[0].Access? then 1 else 0) + Accesses(ops[1..])
  }

  lemma {:induction false} OneDecisionEach(lim: Limits, evict: bool, m: Buckets, ops: seq<Op>)
    ensures |Decisions(lim, evict, m, ops)| == Accesses(ops)
    decreases |ops|
  {
    hide Apply, Allows;
    if ops != [] {
      OneDecisionEach(lim, evict, Apply(lim, evict, m, ops[0]), ops[1..]);
    }
  }

  /** The decisions for one client, picked from the decisions for all. */
  function Pick(ops: seq<Op>, decisions: seq<bool>, ip: string): seq<bool>
    requires |decisions| == Accesses(ops)
    decreases |ops|
  {
    if ops == [] then []
    else if ops[0].Sweep? then Pick(ops[1..], decisions, ip)
    else (if ops[0].ip == ip then [decisions[0]] else []) + Pick(ops[1..], decisions[1..], ip)
  }

  /** How many calls of the client that touch the window were let through. */
  function Tally(ops: seq<Op>, decisions: seq<bool>, ip: string, s: real, t: real): nat
    requires |decisions| == Accesses(ops)
    decreases |ops|
  {
    if ops == [] then 0
    else if ops[0].Sweep? then Tally(ops[1..], decisions, ip, s, t)
    else
      (if ops[0].ip == ip && decisions[0] && ops[0].stored >= s && ops[0].seen <= t then 1 else 0)
      + Tally(ops[1..], decisions[1..], ip, s, t)
  }

  predicate AllTrue(flags: seq<bool>) {
    forall k :: 0 <= k < |flags| ==> flags[k]
  }

  /** The decisions for one client. */
  function OwnDecisions(lim: Limits, evict: bool, m: Buckets, ops: seq<Op>, ip: string): seq<bool>
    decreases |ops|
  {
    if ops == [] then []
    else
      (if ops[0].Access? && ops[0].ip == ip then [Allows(lim, m, ops[0])] else [])
      + OwnDecisions(lim, evict, Apply(lim, evict, m, ops[0]), ops[1..], ip)
  }

  lemma SplitDecisions(lim: Limits, evict: bool, m: Buckets, ops: seq<Op>)
    requires ops != []
    ensures var d, rest := Decisions(lim, evict, m, ops), Decisions(lim, evict, Apply(lim, evict, m, ops[0]), ops[1..]);
            && |d| == Accesses(ops) && |rest| == Accesses(ops[1..])
            && (if ops[0].Access? then d[0] == Allows(lim, m, ops[0]) && d[1..] == rest else d == rest)
  {
    OneDecisionEach(lim, evict, m, ops);
    OneDecisionEach(lim, evict, Apply(lim, evict, m, ops[0]), ops[1..]);
    hide Allows, Apply;
  }

  lemma {:induction false} PickedAreOwn(lim: Limits, evict: bool, m: Buckets, ops: seq<Op>, ip: string)
    ensures |Decisions(lim, evict, m, ops)| == Accesses(ops)
    ensures Pick(ops, Decisions(lim, evict, m, ops), ip) == OwnDecisions(lim, evict, m, ops, ip)
    decreases |ops|
  {
    hide Decisions, Apply, Allows;
    OneDecisionEach(lim, evict, m, ops);
    if ops != [] {
      SplitDecisions(lim, evict, m, ops);
      PickedAreOwn(lim, evict, Apply(lim, evict, m, ops[0]), ops[1..], ip);
    }
  }

  lemma {:induction false} TallyIsAdmitted(lim: Limits, evict: bool, m: Buckets, ops: seq<Op>, ip: string, s: real, t: real)
    ensures |Decisions(lim, evict, m, ops)| == Accesses(ops)
    ensures Tally(ops, Decisions(lim, evict, m, ops), ip, s, t) as real == AdmittedIn(lim, evict, m, ops, ip, s, t)
    decreases |ops|
  {
    hide Decisions, Apply, Allows;
    OneDecisionEach(lim, evict, m, ops);
    if ops != [] {
      SplitDecisions(lim, evict, m, ops);
      TallyIsAdmitted(lim, evict, Apply(lim, evict, m, ops[0]), ops[1..], ip, s, t);
    }
  }

  // ---------------------------------------------------------------- a bucket of its own

  lemma AdmitsShift(lim: Limits, b: Bucket, calls: seq<Call>, k: nat)
    requires k + 1 < |calls|
    ensures AdmitsAt(lim, b, calls, k + 1) == AdmitsAt(lim, Take(lim, b, calls[0]), calls[1..], k)
  {
    StateShift(lim, b, calls, k);
  }

  /** The decisions a bucket of its own would take. */
  ghost predicate AsBucket(lim: Limits, b: Bucket, calls: seq<Call>, flags: seq<bool>) {
    |flags| == |calls| && forall k :: 0 <= k < |calls| ==> flags[k] == AdmitsAt(lim, b, calls, k)
  }

  lemma AsBucketCons(lim: Limits, b: Bucket, calls: seq<Call>, flags: seq<bool>)
    requires calls != [] && AsBucket(lim, Take(lim, b, calls[0]), calls[1..], flags)
    ensures AsBucket(lim, b, calls, [Admits(lim, b, calls[0])] + flags)
  {
    hide Take, Admits;
    var all := [Admits(lim, b, calls[0])] + flags;
    forall k | 0 <= k < |calls|
      ensures all[k] == AdmitsAt(lim, b, calls, k)
    {
      if k > 0 {
        AdmitsShift(lim, b, calls, k - 1);
      } else {
        assert State(lim, b, calls, 0) == b;
      }
    }
  }

  /** Without eviction the calls of a client are decided by a bucket of its own. */
  lemma {:induction false} OwnProjection(lim: Limits, m: Buckets, ops: seq<Op>, ip: string)
    ensures AsBucket(lim, StartOf(lim, m, ops, ip), CallsOf(ip, ops), OwnDecisions(lim, false, m, ops, ip))
    decreases |ops|
  {
    hide Take, Admits, AsBucket;
    if ops == [] {
      NothingDecided(lim, StartOf(lim, m, ops, ip));
    } else {
      var op, rest := ops[0], ops[1..];
      var m' := Apply(lim, false, m, op);
      OwnProjection(lim, m', rest, ip);
      var calls := CallsOf(ip, ops);
      if op.Access? && op.ip == ip {
        assert calls[1..] == CallsOf(ip, rest);
        var b := StartOf(lim, m, ops, ip);
        assert b == BucketFor(lim, m, ip, op.created);
        assert m'[ip] == Take(lim, b, calls[0]);
        AsBucketCons(lim, b, calls, OwnDecisions(lim, false, m', rest, ip));
      } else {
        assert calls == CallsOf(ip, rest);
        assert StartOf(lim, m', rest, ip) == StartOf(lim, m, ops, ip);
        assert OwnDecisions(lim, false, m, ops, ip) == OwnDecisions(lim, false, m', rest, ip);
      }
    }
  }

  lemma NothingDecided(lim: Limits, b: Bucket)
    ensures AsBucket(lim, b, [], [])
  {
  }

  lemma {:induction false} SimulatedOwn(lim: Limits, clock: real, swept: Buckets, kept: Buckets, ops: seq<Op>, ip: string)
    requires Simulates(lim, clock, swept, kept) && RefillsWhileIdle(lim) && 0.0 <= lim.rate && 0.0 <= lim.cap
    requires Timed(clock, ops)
    ensures OwnDecisions(lim, true, swept, ops, ip) == OwnDecisions(lim, false, kept, ops, ip)
    decreases |ops|
  {
    hide Simulates, RefillsWhileIdle, Allows;
    if ops != [] {
      var op := ops[0];
      match op
      case Access(_, _, _, stored) =>
        SimulatedAccess(lim, clock, swept, kept, op);
        SimulatedOwn(lim, stored, Apply(lim, true, swept, op), Apply(lim, false, kept, op), ops[1..], ip);
      case Sweep(now) =>
        SimulatedSweep(lim, clock, swept, kept, now);
        SimulatedOwn(lim, now, Swept(swept, now), kept, ops[1..], ip);
    }
  }

  /** The decisions of a new limiter for one client, sweeps or not, are those of a bucket that starts full. */
  lemma OwnBucket(lim: Limits, evict: bool, clock: real, ops: seq<Op>, ip: string)
    requires 0.0 <= lim.rate && 0.0 <= lim.cap && Timed(clock, ops) && (evict ==> RefillsWhileIdle(lim))
    ensures var start, calls := FirstUse(false, ip, ops), CallsOf(ip, ops);
            && Ordered(start, calls)
            && AsBucket(lim, Bucket(lim.cap, start), calls, OwnDecisions(lim, evict, map[], ops, ip))
  {
    hide OwnDecisions, RefillsWhileIdle, AsBucket;
    if evict {
      SimulatedOwn(lim, clock, map[], map[], ops, ip);
    }
    OwnProjection(lim, map[], ops, ip);
    OrderedCalls(clock, clock, ip, ops);
  }

  /** All calls of a client are admitted exactly when no run of them asks for more than the cap and what it earns. */
  lemma OwnAllAdmittedIff(lim: Limits, evict: bool, clock: real, ops: seq<Op>, ip: string)
    requires 0.0 <= lim.rate && 0.0 <= lim.cap && Timed(clock, ops) && (evict ==> RefillsWhileIdle(lim))
    ensures AllTrue(OwnDecisions(lim, evict, map[], ops, ip)) <==> EveryRunWithin(lim, CallsOf(ip, ops))
  {
    OwnBucket(lim, evict, clock, ops, ip);
    hide OwnDecisions, Timed, RefillsWhileIdle, EveryRunWithin, AdmitsAt, FirstUse;
    var start, calls, flags := FirstUse(false, ip, ops), CallsOf(ip, ops), OwnDecisions(lim, evict, map[], ops, ip);
    AdmittedIff(lim, start, calls);
    assert AllTrue(flags) <==> AllAdmitted(lim, start, calls);
  }
}
