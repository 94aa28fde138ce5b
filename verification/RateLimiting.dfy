/**
 Per-client buckets with idle eviction: AllowIP calls of any number of clients, interleaved with
 sweeps that delete the buckets idle for more than five minutes. Each client gets a tenth of the
 global cap and rate; lim below stands for that tenth.
 */
module RateLimiting {
  import opened TokenBucket

  const IDLE_LIMIT: real := 300.0

  type Buckets = map<string, Bucket>

  /** An AllowIP call with its three clock readings, or one sweep of the cleanup loop. */
  datatype Op =
    | Access(ip: string, created: real, seen: real, stored: real)
    | Sweep(now: real)

  /** The bucket a call works on: the stored one, or a new full one. */
  function BucketFor(lim: Limits, m: Buckets, ip: string, created: real): Bucket {
    if ip in m then m[ip] else Bucket(lim.cap, created)
  }

  function CallOf(op: Op): Call
    requires op.Access?
  {
    Call(op.seen, op.stored, 1.0)
  }

  predicate Allows(lim: Limits, m: Buckets, op: Op)
    requires op.Access?
  {
    Admits(lim, BucketFor(lim, m, op.ip, op.created), CallOf(op))
  }

  predicate Expired(b: Bucket, now: real) {
    now - b.last > IDLE_LIMIT
  }

  function Swept(m: Buckets, now: real): Buckets {
    map ip | ip in m && !Expired(m[ip], now) :: m[ip]
  }

  /** The buckets after one operation; with evict == false sweeps do nothing. */
  function Apply(lim: Limits, evict: bool, m: Buckets, op: Op): Buckets {
    match op
    case Access(ip, created, _, _) => m[ip := Take(lim, BucketFor(lim, m, ip, created), CallOf(op))]
    case Sweep(now) => if evict then Swept(m, now) else m
  }

  function After(lim: Limits, evict: bool, m: Buckets, ops: seq<Op>): Buckets
    decreases |ops|
  {
    if ops == [] then m else After(lim, evict, Apply(lim, evict, m, ops[0]), ops[1..])
  }

  /** What the AllowIP calls of a run return, in order. */
  function Decisions(lim: Limits, evict: bool, m: Buckets, ops: seq<Op>): seq<bool>
    decreases |ops|
  {
    if ops == [] then []
    else (if ops[0].Access? then [Allows(lim, m, ops[0])] else []) + Decisions(lim, evict, Apply(lim, evict, m, ops[0]), ops[1..])
  }

  /** The clock never runs backwards. */
  predicate Timed(clock: real, ops: seq<Op>)
    decreases |ops|
  {
    ops == [] ||
    match ops[0]
    case Access(_, created, seen, stored) => clock <= created <= seen <= stored && Timed(stored, ops[1..])
    case Sweep(now) => clock <= now && Timed(now, ops[1..])
  }

  function EndTime(clock: real, ops: seq<Op>): real
    decreases |ops|
  {
    if ops == [] then clock else EndTime(if ops[0].Access? then ops[0].stored else ops[0].now, ops[1..])
  }

  /** Five idle minutes fill a bucket from empty. */
  predicate RefillsWhileIdle(lim: Limits) {
    Gain(lim, IDLE_LIMIT) >= lim.cap
  }

  // ---------------------------------------------------------------- eviction cannot be observed

  /** The swept buckets agree with the kept ones, and what is missing has been idle too long. */
  ghost predicate Simulates(lim: Limits, clock: real, swept: Buckets, kept: Buckets) {
    && (forall ip :: ip in swept ==> ip in kept && swept[ip] == kept[ip])
    && (forall ip :: ip in kept ==> Sound(lim, kept[ip]) && kept[ip].last <= clock)
    && (forall ip :: ip in kept && ip !in swept ==> Expired(kept[ip], clock))
  }

  lemma FreshIsFull(lim: Limits, created: real, seen: real)
    requires 0.0 <= lim.rate && created <= seen
    ensures Refilled(lim, Bucket(lim.cap, created), seen) == lim.cap
  {
    GainLaws(lim, 0.0, seen - created);
  }

  /** A bucket that a sweep may delete is full by the time it is used again. */
  lemma ExpiredIsFull(lim: Limits, b: Bucket, clock: real, seen: real)
    requires Sound(lim, b) && RefillsWhileIdle(lim) && Expired(b, clock) && clock <= seen
    ensures Refilled(lim, b, seen) == lim.cap
  {
    GainLaws(lim, IDLE_LIMIT, seen - b.last);
  }

  lemma SoundAfter(lim: Limits, b: Bucket, c: Call)
    requires Sound(lim, b) && b.last <= c.seen && c.cost >= 0.0
    ensures Sound(lim, Take(lim, b, c)) && Take(lim, b, c).last == c.stored
  {
    GainLaws(lim, 0.0, c.seen - b.last);
  }

  lemma SimulatedAccess(lim: Limits, clock: real, swept: Buckets, kept: Buckets, op: Op)
    requires Simulates(lim, clock, swept, kept) && RefillsWhileIdle(lim) && 0.0 <= lim.rate && 0.0 <= lim.cap
    requires op.Access? && clock <= op.created <= op.seen <= op.stored
    ensures Allows(lim, swept, op) == Allows(lim, kept, op)
    ensures Simulates(lim, op.stored, Apply(lim, true, swept, op), Apply(lim, false, kept, op))
  {
    hide Gain, RefillsWhileIdle;
    var b, d := BucketFor(lim, swept, op.ip, op.created), BucketFor(lim, kept, op.ip, op.created);
    if op.ip in kept && op.ip !in swept {
      FreshIsFull(lim, op.created, op.seen);
      ExpiredIsFull(lim, d, clock, op.seen);
    }
    assert Refilled(lim, b, op.seen) == Refilled(lim, d, op.seen);
    assert Take(lim, b, CallOf(op)) == Take(lim, d, CallOf(op));
    SoundAfter(lim, d, CallOf(op));
  }

  lemma SimulatedSweep(lim: Limits, clock: real, swept: Buckets, kept: Buckets, now: real)
    requires Simulates(lim, clock, swept, kept) && clock <= now
    ensures Simulates(lim, now, Swept(swept, now), kept)
  {
  }

  lemma {:induction false} SimulatedRun(lim: Limits, clock: real, swept: Buckets, kept: Buckets, ops: seq<Op>)
    requires Simulates(lim, clock, swept, kept) && RefillsWhileIdle(lim) && 0.0 <= lim.rate && 0.0 <= lim.cap
    requires Timed(clock, ops)
    ensures Decisions(lim, true, swept, ops) == Decisions(lim, false, kept, ops)
    decreases |ops|
  {
    hide Simulates, RefillsWhileIdle, Allows;
    if ops != [] {
      var op := ops[0];
      match op
      case Access(_, _, _, stored) =>
        SimulatedAccess(lim, clock, swept, kept, op);
        SimulatedRun(lim, stored, Apply(lim, true, swept, op), Apply(lim, false, kept, op), ops[1..]);
      case Sweep(now) =>
        SimulatedSweep(lim, clock, swept, kept, now);
        SimulatedRun(lim, now, Swept(swept, now), kept, ops[1..]);
    }
  }

  /** If five idle minutes refill a bucket, every run decides as if nothing were ever evicted. */
  lemma EvictionTransparent(lim: Limits, clock: real, ops: seq<Op>)
    requires RefillsWhileIdle(lim) && 0.0 <= lim.rate && 0.0 <= lim.cap && Timed(clock, ops)
    ensures Decisions(lim, true, map[], ops) == Decisions(lim, false, map[], ops)
  {
    SimulatedRun(lim, clock, map[], map[], ops);
  }

  // ---------------------------------------------------------------- and otherwise it can be

  /** Only AllowIP calls. */
  predicate NoSweeps(ops: seq<Op>) {
    forall k :: 0 <= k < |ops| ==> ops[k].Access?
  }

  lemma {:induction false} SweeplessRun(lim: Limits, m: Buckets, ops: seq<Op>)
    requires NoSweeps(ops)
    ensures After(lim, true, m, ops) == After(lim, false, m, ops)
    ensures Decisions(lim, true, m, ops) == Decisions(lim, false, m, ops)
    decreases |ops|
  {
    hide Allows;
    if ops != [] {
      assert Apply(lim, true, m, ops[0]) == Apply(lim, false, m, ops[0]);
      SweeplessRun(lim, Apply(lim, false, m, ops[0]), ops[1..]);
    }
  }

  lemma {:induction false} DecisionsConcat(lim: Limits, evict: bool, m: Buckets, xs: seq<Op>, ys: seq<Op>)
    ensures Decisions(lim, evict, m, xs + ys)
         == Decisions(lim, evict, m, xs) + Decisions(lim, evict, After(lim, evict, m, xs), ys)
    decreases |xs|
  {
    hide Apply, Allows;
    if xs == [] {
      assert xs + ys == ys;
    } else {
      assert (xs + ys)[0] == xs[0] && (xs + ys)[1..] == xs[1..] + ys;
      DecisionsConcat(lim, evict, Apply(lim, evict, m, xs[0]), xs[1..], ys);
    }
  }

  lemma {:induction false} TimedConcat(clock: real, xs: seq<Op>, ys: seq<Op>)
    requires Timed(clock, xs) && Timed(EndTime(clock, xs), ys)
    ensures Timed(clock, xs + ys)
    decreases |xs|
  {
    if xs == [] {
      assert xs + ys == ys;
    } else {
      assert (xs + ys)[0] == xs[0] && (xs + ys)[1..] == xs[1..] + ys;
      TimedConcat(if xs[0].Access? then xs[0].stored else xs[0].now, xs[1..], ys);
    }
  }

  /** The level an access of ip at time t would find. */
  function LevelAt(lim: Limits, m: Buckets, ip: string, t: real): real {
    Refilled(lim, BucketFor(lim, m, ip, t), t)
  }

  /** An access whose three clock readings coincide. */
  function AccessAt(ip: string, t: real): Op { Access(ip, t, t, t) }

  /** One access at time t leaves a bucket stamped t with the level it found, less a token if there was one. */
  lemma AccessLeaves(lim: Limits, evict: bool, m: Buckets, ip: string, t: real)
    ensures var u := LevelAt(lim, m, ip, t);
            var m' := Apply(lim, evict, m, AccessAt(ip, t));
            && m' == m[ip := Bucket(if u >= 1.0 then u - 1.0 else u, t)]
            && Allows(lim, m, AccessAt(ip, t)) == (u >= 1.0)
            && (0.0 <= u <= lim.cap ==> LevelAt(lim, m', ip, t) == if u >= 1.0 then u - 1.0 else u)
  {
  }

  /** Waiting for a token that is not there yet. */
  lemma WaitForToken(lim: Limits, m: Buckets, ip: string, t: real, need: real)
    requires lim.rate > 0.0 && 1.0 <= lim.cap && 0.0 <= need < 1.0 && LevelAt(lim, m, ip, t) <= need
    ensures var later := t + (1.0 - need) / lim.rate;
            t < later && ip in m && LevelAt(lim, m, ip, later) == LevelAt(lim, m, ip, t) + (1.0 - need)
  {
    var dt := (1.0 - need) / lim.rate;
    assert dt * lim.rate == 1.0 - need;
    FreshIsFull(lim, t, t);
    if ip in m {
      GainLaws(lim, t - m[ip].last, dt);
      assert (t - m[ip].last) + dt == (t + dt) - m[ip].last;
    }
    assert dt > 0.0;
  }

  /** A bucket can be driven down: to empty if it refills at all, below one token otherwise. */
  lemma ReachLow(lim: Limits, m: Buckets, ip: string, t: real) returns (ops: seq<Op>)
    requires 0.0 <= lim.rate && 1.0 <= lim.cap && 0.0 <= LevelAt(lim, m, ip, t)
    requires m.Keys <= {ip} && (ip in m ==> m[ip].last == t && 0.0 <= m[ip].level <= lim.cap)
    ensures NoSweeps(ops) && Timed(t, ops)
    ensures var low := After(lim, false, m, ops);
            && low.Keys == {ip} && low[ip].last == EndTime(t, ops)
            && if lim.rate > 0.0 then low[ip].level == 0.0 else 0.0 <= low[ip].level < 1.0
    decreases LevelAt(lim, m, ip, t).Floor
  {
    hide Gain;
    var u := LevelAt(lim, m, ip, t);
    if u >= 1.0 {
      AccessLeaves(lim, false, m, ip, t);
      var m' := Apply(lim, false, m, AccessAt(ip, t));
      hide Apply, Refilled;
      var rest := ReachLow(lim, m', ip, t);
      ops := [AccessAt(ip, t)] + rest;
      assert ops[1..] == rest;
    } else if lim.rate > 0.0 {
      var later := t + (1.0 - u) / lim.rate;
      WaitForToken(lim, m, ip, t, u);
      AccessLeaves(lim, false, m, ip, later);
      ops := [AccessAt(ip, later)];
      assert ops[1..] == [];
      hide Apply, Refilled;
      assert After(lim, false, m, ops) == Apply(lim, false, m, ops[0]);
    } else {
      FreshIsFull(lim, t, t);
      NoRefill(lim, m[ip], t);
      ops := [];
    }
  }

  lemma NoRefill(lim: Limits, b: Bucket, t: real)
    requires lim.rate == 0.0 && b.level <= lim.cap
    ensures Refilled(lim, b, t) == b.level && Gain(lim, t - b.last) == 0.0
  {
  }

  /** Two states that would find different levels at the same time can be told apart by further calls. */
  lemma Separate(lim: Limits, kept: Buckets, swept: Buckets, ip: string, t: real) returns (ops: seq<Op>)
    requires 0.0 <= lim.rate && 1.0 <= lim.cap
    requires 0.0 <= LevelAt(lim, kept, ip, t) < LevelAt(lim, swept, ip, t) <= lim.cap
    requires lim.rate > 0.0 || LevelAt(lim, kept, ip, t) < 1.0 <= LevelAt(lim, swept, ip, t)
    ensures NoSweeps(ops) && Timed(t, ops)
    ensures Decisions(lim, false, kept, ops) != Decisions(lim, true, swept, ops)
    decreases LevelAt(lim, swept, ip, t).Floor
  {
    hide Gain, Refilled;
    var u, w := LevelAt(lim, kept, ip, t), LevelAt(lim, swept, ip, t);
    AccessLeaves(lim, false, kept, ip, t);
    AccessLeaves(lim, true, swept, ip, t);
    hide Apply, Allows, LevelAt;
    if u >= 1.0 {
      var rest := Separate(lim, Apply(lim, false, kept, AccessAt(ip, t)), Apply(lim, true, swept, AccessAt(ip, t)), ip, t);
      ops := [AccessAt(ip, t)] + rest;
      assert ops[1..] == rest;
      FirstDecision(lim, false, kept, ops);
      FirstDecision(lim, true, swept, ops);
    } else if w >= 1.0 {
      ops := [AccessAt(ip, t)];
      FirstDecision(lim, false, kept, ops);
      FirstDecision(lim, true, swept, ops);
    } else {
      var later := t + (1.0 - w) / lim.rate;
      WaitForToken(lim, kept, ip, t, w);
      WaitForToken(lim, swept, ip, t, w);
      AccessLeaves(lim, false, kept, ip, later);
      AccessLeaves(lim, true, swept, ip, later);
      ops := [AccessAt(ip, later)];
      FirstDecision(lim, false, kept, ops);
      FirstDecision(lim, true, swept, ops);
    }
  }

  lemma FirstDecision(lim: Limits, evict: bool, m: Buckets, ops: seq<Op>)
    requires ops != [] && ops[0].Access?
    ensures var d := Decisions(lim, evict, m, ops);
            && d != [] && d[0] == Allows(lim, m, ops[0])
            && d[1..] == Decisions(lim, evict, Apply(lim, evict, m, ops[0]), ops[1..])
  {
    hide Allows, Apply;
  }

  /** A time past the idle limit at which the refill since then is still short of the cap. */
  lemma SweepTime(lim: Limits, level: real, last: real) returns (now: real)
    requires 0.0 <= lim.rate && 1.0 <= lim.cap && !RefillsWhileIdle(lim)
    requires if lim.rate > 0.0 then level == 0.0 else 0.0 <= level < 1.0
    ensures now > last + IDLE_LIMIT && 0.0 <= level + Gain(lim, now - last) < lim.cap
  {
    if lim.rate > 0.0 {
      var missing := lim.cap - Gain(lim, IDLE_LIMIT);
      var slack := missing / 2.0 / lim.rate;
      assert Gain(lim, slack) == missing / 2.0;
      assert slack > 0.0;
      now := last + IDLE_LIMIT + slack;
      GainLaws(lim, IDLE_LIMIT, slack);
      GainLaws(lim, 0.0, IDLE_LIMIT);
      hide Gain;
      assert now - last == IDLE_LIMIT + slack;
    } else {
      now := last + IDLE_LIMIT + 1.0;
      NoRefill(lim, Bucket(level, last), now);
      hide Gain;
    }
  }

  /** If five idle minutes do not refill a bucket that can hold a token, some run shows the difference. */
  lemma EvictionObservable(lim: Limits) returns (ops: seq<Op>)
    requires 0.0 <= lim.rate && 1.0 <= lim.cap && !RefillsWhileIdle(lim)
    ensures Timed(0.0, ops) && Decisions(lim, true, map[], ops) != Decisions(lim, false, map[], ops)
  {
    var ip := "client";
    FreshIsFull(lim, 0.0, 0.0);
    var drain := ReachLow(lim, map[], ip, 0.0);
    var low := After(lim, false, map[], drain);
    var last := low[ip].last;
    var now := SweepTime(lim, low[ip].level, last);
    assert Swept(low, now) == map[];
    hide Gain;
    assert LevelAt(lim, low, ip, now) == low[ip].level + Gain(lim, now - last);
    FreshIsFull(lim, now, now);
    var probe := Separate(lim, low, map[], ip, now);
    hide Decisions, After, Apply, LevelAt;
    SweeplessRun(lim, map[], drain);
    ops := drain + ([Sweep(now)] + probe);
    TimedConcat(0.0, drain, [Sweep(now)] + probe);
    DecisionsConcat(lim, true, map[], drain, [Sweep(now)] + probe);
    DecisionsConcat(lim, false, map[], drain, [Sweep(now)] + probe);
    AfterSweep(lim, true, low, now, probe);
    AfterSweep(lim, false, low, now, probe);
    var d := Decisions(lim, false, map[], drain);
    var x, y := Decisions(lim, true, map[], probe), Decisions(lim, false, low, probe);
    assert (d + x)[|d|..] == x && (d + y)[|d|..] == y;
  }

  lemma AfterSweep(lim: Limits, evict: bool, m: Buckets, now: real, ops: seq<Op>)
    ensures Decisions(lim, evict, m, [Sweep(now)] + ops) == Decisions(lim, evict, if evict then Swept(m, now) else m, ops)
  {
    assert ([Sweep(now)] + ops)[1..] == ops;
  }

  /** A bucket that cannot hold a whole token never admits anything. */
  lemma {:induction false} NothingAdmitted(lim: Limits, evict: bool, m: Buckets, ops: seq<Op>)
    requires lim.cap < 1.0
    ensures forall k :: 0 <= k < |Decisions(lim, evict, m, ops)| ==> !Decisions(lim, evict, m, ops)[k]
    decreases |ops|
  {
    if ops != [] {
      NothingAdmitted(lim, evict, Apply(lim, evict, m, ops[0]), ops[1..]);
      assert ops[0].Access? ==> !Allows(lim, m, ops[0]);
      hide Allows, Apply;
    }
  }

  lemma {:induction false} SameNumberOfDecisions(lim: Limits, m: Buckets, n: Buckets, ops: seq<Op>)
    ensures |Decisions(lim, true, m, ops)| == |Decisions(lim, false, n, ops)|
    decreases |ops|
  {
    hide Apply, Allows;
    if ops != [] {
      SameNumberOfDecisions(lim, Apply(lim, true, m, ops[0]), Apply(lim, false, n, ops[0]), ops[1..]);
    }
  }

  /** The decisions of a run are the same with and without eviction. */
  predicate Unobserved(lim: Limits, ops: seq<Op>) {
    Decisions(lim, true, map[], ops) == Decisions(lim, false, map[], ops)
  }

  lemma FiveMinutes(lim: Limits)
    ensures RefillsWhileIdle(lim) <==> 300.0 * lim.rate >= lim.cap
  {
  }

  /**
   Eviction is unobservable in every run exactly when five idle minutes refill a bucket, or no
   bucket can ever hold a token.
   */
  lemma TransparencyIff(lim: Limits)
    requires 0.0 <= lim.rate && 0.0 <= lim.cap
    ensures (forall ops :: Timed(0.0, ops) ==> Unobserved(lim, ops)) <==> 300.0 * lim.rate >= lim.cap || lim.cap < 1.0
  {
    FiveMinutes(lim);
    hide RefillsWhileIdle, Timed, Decisions;
    if RefillsWhileIdle(lim) {
      forall ops | Timed(0.0, ops) ensures Unobserved(lim, ops) {
        EvictionTransparent(lim, 0.0, ops);
      }
    } else if lim.cap < 1.0 {
      forall ops | Timed(0.0, ops) ensures Unobserved(lim, ops) {
        NothingAdmitted(lim, true, map[], ops);
        NothingAdmitted(lim, false, map[], ops);
        SameNumberOfDecisions(lim, map[], map[], ops);
      }
    } else {
      var ops := EvictionObservable(lim);
      assert !Unobserved(lim, ops);
    }
  }

  /** The limits NewRateLimiter(1000, 100) gives each client satisfy the condition. */
  lemma ServerLimitsRefill()
    ensures RefillsWhileIdle(PerClient(1000.0, 100.0)) && PerClient(1000.0, 100.0) == Limits(100.0, 10.0)
  {
  }

  /** Each client gets a tenth of the global limits. */
  function PerClient(maxTokens: real, refillRate: real): Limits {
    Limits(maxTokens / 10.0, refillRate / 10.0)
  }

  // ---------------------------------------------------------------- one client among many

  /** The calls of one client, as its bucket sees them. */
  function CallsOf(ip: string, ops: seq<Op>): seq<Call>
    decreases |ops|
  {
    if ops == [] then []
    else (if ops[0].Access? && ops[0].ip == ip then [CallOf(ops[0])] else []) + CallsOf(ip, ops[1..])
  }

  /** When the client's bucket is created, if it is not there yet. */
  function FirstUse(known: bool, ip: string, ops: seq<Op>): real
    decreases |ops|
  {
    if known || ops == [] then 0.0
    else if ops[0].Access? && ops[0].ip == ip then ops[0].created
    else FirstUse(known, ip, ops[1..])
  }

  /** How many calls of the client that touch the window are admitted. */
  function AdmittedIn(lim: Limits, evict: bool, m: Buckets, ops: seq<Op>, ip: string, s: real, t: real): real
    decreases |ops|
  {
    if ops == [] then 0.0
    else
      (if ops[0].Access? && ops[0].ip == ip && Allows(lim, m, ops[0]) && Overlaps(CallOf(ops[0]), s, t) then 1.0 else 0.0)
      + AdmittedIn(lim, evict, Apply(lim, evict, m, ops[0]), ops[1..], ip, s, t)
  }

  function StartOf(lim: Limits, m: Buckets, ops: seq<Op>, ip: string): Bucket {
    BucketFor(lim, m, ip, FirstUse(ip in m, ip, ops))
  }

  /** Without eviction, what a client is granted depends on its own calls only. */
  lemma {:induction false} ClientProjection(lim: Limits, m: Buckets, ops: seq<Op>, ip: string, s: real, t: real)
    ensures AdmittedIn(lim, false, m, ops, ip, s, t)
         == Granted(lim, StartOf(lim, m, ops, ip), CallsOf(ip, ops), |CallsOf(ip, ops)|, s, t)
    decreases |ops|
  {
    hide Take, Admits, Overlaps;
    if ops != [] {
      var op, rest := ops[0], ops[1..];
      var m' := Apply(lim, false, m, op);
      ClientProjection(lim, m', rest, ip, s, t);
      var calls := CallsOf(ip, ops);
      if op.Access? && op.ip == ip {
        assert calls[1..] == CallsOf(ip, rest);
        var b := StartOf(lim, m, ops, ip);
        assert b == BucketFor(lim, m, ip, op.created);
        GrantedShift(lim, b, calls, |calls| - 1, s, t);
        assert m'[ip] == Take(lim, b, calls[0]);
      } else {
        assert calls == CallsOf(ip, rest);
        assert StartOf(lim, m', rest, ip) == StartOf(lim, m, ops, ip);
      }
    }
  }

  lemma OrderedCons(start: real, c: Call, calls: seq<Call>)
    requires start <= c.seen <= c.stored && Ordered(c.stored, calls)
    ensures Ordered(start, [c] + calls)
  {
    var all := [c] + calls;
    forall k | 0 <= k < |all|
      ensures Before(start, all, k) <= all[k].seen <= all[k].stored
    {
      if k > 0 {
        assert all[k] == calls[k - 1] && Before(start, all, k) == Before(c.stored, calls, k - 1);
      }
    }
  }

  lemma {:induction false} OrderedCalls(clock: real, start: real, ip: string, ops: seq<Op>)
    requires Timed(clock, ops)
    ensures start <= clock ==> Ordered(start, CallsOf(ip, ops))
    ensures Ordered(FirstUse(false, ip, ops), CallsOf(ip, ops))
    decreases |ops|
  {
    hide Ordered;
    if ops == [] {
      assert Ordered(start, []) && Ordered(0.0, []) by { NothingOrdered(start); NothingOrdered(0.0); }
    } else {
      var op := ops[0];
      var next := if op.Access? then op.stored else op.now;
      OrderedCalls(next, start, ip, ops[1..]);
      if op.Access? && op.ip == ip {
        OrderedCalls(next, op.stored, ip, ops[1..]);
        OrderedCons(op.created, CallOf(op), CallsOf(ip, ops[1..]));
        if start <= clock {
          OrderedCons(start, CallOf(op), CallsOf(ip, ops[1..]));
        }
      } else {
        assert CallsOf(ip, ops) == CallsOf(ip, ops[1..]);
      }
    }
  }

  lemma NothingOrdered(start: real)
    ensures Ordered(start, [])
  {
  }

  lemma {:induction false} SimulatedCounts(
    lim: Limits, clock: real, swept: Buckets, kept: Buckets, ops: seq<Op>, ip: string, s: real, t: real)
    requires Simulates(lim, clock, swept, kept) && RefillsWhileIdle(lim) && 0.0 <= lim.rate && 0.0 <= lim.cap
    requires Timed(clock, ops)
    ensures AdmittedIn(lim, true, swept, ops, ip, s, t) == AdmittedIn(lim, false, kept, ops, ip, s, t)
    decreases |ops|
  {
    hide Simulates, RefillsWhileIdle, Allows;
    if ops != [] {
      var op := ops[0];
      match op
      case Access(_, _, _, stored) =>
        SimulatedAccess(lim, clock, swept, kept, op);
        SimulatedCounts(lim, stored, Apply(lim, true, swept, op), Apply(lim, false, kept, op), ops[1..], ip, s, t);
      case Sweep(now) =>
        SimulatedSweep(lim, clock, swept, kept, now);
        SimulatedCounts(lim, now, Swept(swept, now), kept, ops[1..], ip, s, t);
    }
  }

  /**
   In every run and every window a client is admitted at most cap + rate * length times: always
   without eviction, and also with it when five idle minutes refill a bucket.
   */
  lemma ClientWindowBound(lim: Limits, evict: bool, clock: real, ops: seq<Op>, ip: string, s: real, t: real)
    requires 0.0 <= lim.rate && 0.0 <= lim.cap && Timed(clock, ops) && s <= t
    requires evict ==> RefillsWhileIdle(lim)
    ensures AdmittedIn(lim, evict, map[], ops, ip, s, t) <= lim.cap + Gain(lim, t - s)
  {
    hide AdmittedIn, RefillsWhileIdle, Granted, Gain;
    if evict {
      SimulatedCounts(lim, clock, map[], map[], ops, ip, s, t);
    }
    ClientProjection(lim, map[], ops, ip, s, t);
    OrderedCalls(clock, clock, ip, ops);
    WindowBound(lim, StartOf(lim, map[], ops, ip), CallsOf(ip, ops), s, t);
  }
}
