/**
 The per-client buckets seen from a host. The server's key for a client is its remote address with
 the port, so a host with several connections has several buckets.
 */
module HostRates {
  import opened RateLimiting
  import opened TokenBucket

  /** How many calls with one of these keys that touch the window are admitted. */
  function AdmittedAmong(lim: Limits, evict: bool, m: Buckets, ops: seq<Op>, keys: set<string>, s: real, t: real): real
    decreases |ops|
  {
    if ops == [] then 0.0
    else
      (if ops[0].Access? && ops[0].ip in keys && Allows(lim, m, ops[0]) && Overlaps(CallOf(ops[0]), s, t) then 1.0 else 0.0)
      + AdmittedAmong(lim, evict, Apply(lim, evict, m, ops[0]), ops[1..], keys, s, t)
  }

  lemma {:induction false} AmongSplit(
    lim: Limits, evict: bool, m: Buckets, ops: seq<Op>, keys: set<string>, ip: string, s: real, t: real)
    requires ip in keys
    ensures AdmittedAmong(lim, evict, m, ops, keys, s, t)
         == AdmittedIn(lim, evict, m, ops, ip, s, t) + AdmittedAmong(lim, evict, m, ops, keys - {ip}, s, t)
    decreases |ops|
  {
    hide Apply, Allows, Overlaps;
    if ops != [] {
      AmongSplit(lim, evict, Apply(lim, evict, m, ops[0]), ops[1..], keys, ip, s, t);
    }
  }

  lemma {:induction false} AmongNone(lim: Limits, evict: bool, m: Buckets, ops: seq<Op>, s: real, t: real)
    ensures AdmittedAmong(lim, evict, m, ops, {}, s, t) == 0.0
    decreases |ops|
  {
    hide Apply, Allows;
    if ops != [] {
      AmongNone(lim, evict, Apply(lim, evict, m, ops[0]), ops[1..], s, t);
    }
  }

  /** What n clients may be granted together. */
  function Shares(n: nat, share: real): real {
    if n == 0 then 0.0 else share + Shares(n - 1, share)
  }

  /** In every run and every window a host is admitted at most one allowance for each of its keys. */
  lemma {:induction false} HostWindowBound(
    lim: Limits, evict: bool, clock: real, ops: seq<Op>, keys: set<string>, s: real, t: real)
    requires 0.0 <= lim.rate && 0.0 <= lim.cap && Timed(clock, ops) && s <= t
    requires evict ==> RefillsWhileIdle(lim)
    ensures AdmittedAmong(lim, evict, map[], ops, keys, s, t) <= Shares(|keys|, lim.cap + Gain(lim, t - s))
    decreases |keys|
  {
    hide AdmittedAmong, Gain, RefillsWhileIdle, Timed;
    if keys == {} {
      AmongNone(lim, evict, map[], ops, s, t);
    } else {
      var ip :| ip in keys;
      AmongSplit(lim, evict, map[], ops, keys, ip, s, t);
      ClientWindowBound(lim, evict, clock, ops, ip, s, t);
      HostWindowBound(lim, evict, clock, ops, keys - {ip}, s, t);
    }
  }

  // ---------------------------------------------------------------- and no less

  lemma {:induction false} AmongConcat(
    lim: Limits, evict: bool, m: Buckets, xs: seq<Op>, ys: seq<Op>, keys: set<string>, s: real, t: real)
    ensures AdmittedAmong(lim, evict, m, xs + ys, keys, s, t)
         == AdmittedAmong(lim, evict, m, xs, keys, s, t) + AdmittedAmong(lim, evict, After(lim, evict, m, xs), ys, keys, s, t)
    decreases |xs|
  {
    hide Apply, Allows, Overlaps;
    if xs == [] {
      assert xs + ys == ys;
    } else {
      assert (xs + ys)[0] == xs[0] && (xs + ys)[1..] == xs[1..] + ys;
      AmongConcat(lim, evict, Apply(lim, evict, m, xs[0]), xs[1..], ys, keys, s, t);
    }
  }

  /** n calls of one client at time zero. */
  function Burst(ip: string, n: nat): seq<Op> {
    seq(n, _ => AccessAt(ip, 0.0))
  }

  lemma OneOfBurst(
    lim: Limits, evict: bool, m: Buckets, ip: string, n: nat, keys: set<string>)
    requires n > 0 && ip in keys && LevelAt(lim, m, ip, 0.0) >= 1.0
    ensures var m' := Apply(lim, evict, m, AccessAt(ip, 0.0));
            && AdmittedAmong(lim, evict, m, Burst(ip, n), keys, 0.0, 0.0)
               == 1.0 + AdmittedAmong(lim, evict, m', Burst(ip, n - 1), keys, 0.0, 0.0)
            && After(lim, evict, m, Burst(ip, n)) == After(lim, evict, m', Burst(ip, n - 1))
  {
    AccessLeaves(lim, evict, m, ip, 0.0);
    hide Apply, Allows, LevelAt;
    assert Burst(ip, n)[0] == AccessAt(ip, 0.0) && Burst(ip, n)[1..] == Burst(ip, n - 1);
  }

  /** A client with n tokens has n calls admitted at once, which changes its own bucket only. */
  lemma {:induction false} BurstAdmitted(lim: Limits, evict: bool, m: Buckets, ip: string, n: nat, keys: set<string>)
    requires ip in keys && n as real <= LevelAt(lim, m, ip, 0.0) <= lim.cap
    ensures AdmittedAmong(lim, evict, m, Burst(ip, n), keys, 0.0, 0.0) == n as real
    ensures After(lim, evict, m, Burst(ip, n)).Keys <= m.Keys + {ip}
    decreases n
  {
    if n > 0 {
      AccessLeaves(lim, evict, m, ip, 0.0);
      OneOfBurst(lim, evict, m, ip, n, keys);
      hide LevelAt, AdmittedAmong, After, Apply;
      BurstAdmitted(lim, evict, Apply(lim, evict, m, AccessAt(ip, 0.0)), ip, n - 1, keys);
    }
  }

  lemma {:induction false} BurstTimed(ip: string, n: nat)
    ensures Timed(0.0, Burst(ip, n)) && EndTime(0.0, Burst(ip, n)) == 0.0
  {
    if n > 0 {
      assert Burst(ip, n)[0] == AccessAt(ip, 0.0) && Burst(ip, n)[1..] == Burst(ip, n - 1);
      BurstTimed(ip, n - 1);
    }
  }

  /** With two keys a host is admitted twice the whole tokens of a bucket at once, which is more than a bucket holds. */
  lemma TwoKeysExceed(lim: Limits, evict: bool, keys: set<string>, a: string, b: string) returns (ops: seq<Op>)
    requires 0.0 <= lim.rate && 1.0 <= lim.cap && a in keys && b in keys && a != b
    ensures Timed(0.0, ops) && AdmittedAmong(lim, evict, map[], ops, keys, 0.0, 0.0) > lim.cap
  {
    var n := lim.cap.Floor;
    ops := Burst(a, n) + Burst(b, n);
    FreshIsFull(lim, 0.0, 0.0);
    BurstTimed(a, n);
    BurstTimed(b, n);
    TimedConcat(0.0, Burst(a, n), Burst(b, n));
    AmongConcat(lim, evict, map[], Burst(a, n), Burst(b, n), keys, 0.0, 0.0);
    BurstAdmitted(lim, evict, map[], a, n, keys);
    var left := After(lim, evict, map[], Burst(a, n));
    assert b !in left;
    BurstAdmitted(lim, evict, left, b, n, keys);
  }

  /** No window of any run admits more of a host's calls than one client's allowance. */
  ghost predicate HostRateLimited(lim: Limits, evict: bool, keys: set<string>) {
    forall clock: real, ops: seq<Op>, s: real, t: real ::
      Timed(clock, ops) && s <= t ==> AdmittedAmong(lim, evict, map[], ops, keys, s, t) <= lim.cap + Gain(lim, t - s)
  }

  lemma {:induction false} AmongNothing(lim: Limits, evict: bool, m: Buckets, ops: seq<Op>, keys: set<string>, s: real, t: real)
    requires lim.cap < 1.0
    ensures AdmittedAmong(lim, evict, m, ops, keys, s, t) == 0.0
    decreases |ops|
  {
    if ops != [] {
      AmongNothing(lim, evict, Apply(lim, evict, m, ops[0]), ops[1..], keys, s, t);
      assert ops[0].Access? ==> !Allows(lim, m, ops[0]);
      hide Allows, Apply;
    }
  }

  /** A host as a whole keeps to one client's allowance exactly when it has one key, or no bucket holds a token. */
  lemma HostRateLimitedIff(lim: Limits, evict: bool, keys: set<string>)
    requires 0.0 <= lim.rate && 0.0 <= lim.cap && (evict ==> RefillsWhileIdle(lim))
    ensures HostRateLimited(lim, evict, keys) <==> |keys| <= 1 || lim.cap < 1.0
  {
    GainLaws(lim, 0.0, 0.0);
    hide AdmittedAmong, Timed, RefillsWhileIdle, Gain;
    if |keys| <= 1 || lim.cap < 1.0 {
      forall clock: real, ops: seq<Op>, s: real, t: real | Timed(clock, ops) && s <= t
        ensures AdmittedAmong(lim, evict, map[], ops, keys, s, t) <= lim.cap + Gain(lim, t - s)
      {
        GainLaws(lim, 0.0, t - s);
        if lim.cap < 1.0 {
          AmongNothing(lim, evict, map[], ops, keys, s, t);
        } else {
          HostWindowBound(lim, evict, clock, ops, keys, s, t);
          assert Shares(0, lim.cap + Gain(lim, t - s)) == 0.0;
        }
      }
    } else {
      var a :| a in keys;
      assert |keys - {a}| > 0;
      var b :| b in keys - {a};
      var ops := TwoKeysExceed(lim, evict, keys, a, b);
      assert AdmittedAmong(lim, evict, map[], ops, keys, 0.0, 0.0) > lim.cap + Gain(lim, 0.0 - 0.0);
    }
  }
}
