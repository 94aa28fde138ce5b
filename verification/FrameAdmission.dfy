/** Which frames of a connection are handled: exactly those whose own call of the limiter is granted. */
module FrameAdmission {
  import opened ClientHistories
  import opened ConnectionTrace
  import opened GoProtocol
  import opened RateLimiting
  import opened ServerTrace
  import opened TokenBucket

  /** The decisions for the connection's own calls among all decisions of the limiter, one for each frame. */
  function OwnFlags(w: World, k: nat, n: nat, decisions: seq<bool>): (flags: seq<bool>)
    requires |decisions| == Accesses(ConnectionTrace.History(w, k, n))
    ensures |flags| == n
    decreases n
  {
    if n == 0 then []
    else
      var before := Accesses(w.turns(k).others);
      AccessesOfTurn(w, k, n);
      [decisions[before]] + OwnFlags(w, k + 1, n - 1, decisions[before + 1..])
  }

  lemma {:induction false} AccessesConcat(xs: seq<Op>, ys: seq<Op>)
    ensures Accesses(xs + ys) == Accesses(xs) + Accesses(ys)
  {
    if xs == [] {
      assert xs + ys == ys;
    } else {
      assert (xs + ys)[0] == xs[0] && (xs + ys)[1..] == xs[1..] + ys;
      AccessesConcat(xs[1..], ys);
    }
  }

  lemma AccessesOfTurn(w: World, k: nat, n: nat)
    requires n > 0
    ensures Accesses(ConnectionTrace.History(w, k, n))
         == Accesses(w.turns(k).others) + 1 + Accesses(ConnectionTrace.History(w, k + 1, n - 1))
  {
    var rest := ConnectionTrace.History(w, k + 1, n - 1);
    AccessesConcat(w.turns(k).others, [OwnCall(w, k)] + rest);
    assert ([OwnCall(w, k)] + rest)[1..] == rest;
  }

  /** The frames whose flag is set. */
  function Kept(frames: seq<Frame>, flags: seq<bool>): seq<Frame>
    requires |frames| == |flags|
  {
    if frames == [] then [] else (if flags[0] then [frames[0]] else []) + Kept(frames[1..], flags[1..])
  }

  /** What the limiter decides in one turn and after it. */
  lemma TurnDecisions(w: World, k: nat, m: Buckets, n: nat)
    requires n > 0
    ensures var before := Accesses(w.turns(k).others);
            var d := Decisions(w.limits, true, m, ConnectionTrace.History(w, k, n));
            && |d| == Accesses(ConnectionTrace.History(w, k, n)) && before < |d|
            && (d[before] <==> LetsThrough(w, k, m))
            && d[before + 1..] == Decisions(w.limits, true, NextBuckets(w, k, m), ConnectionTrace.History(w, k + 1, n - 1))
  {
    hide Decisions, Allows, Apply, After;
    var lim, others, rest := w.limits, w.turns(k).others, ConnectionTrace.History(w, k + 1, n - 1);
    var tail := [OwnCall(w, k)] + rest;
    var found := FoundBuckets(w, k, m);
    OneDecisionEach(lim, true, m, ConnectionTrace.History(w, k, n));
    OneDecisionEach(lim, true, m, others);
    DecisionsConcat(lim, true, m, others, tail);
    FirstDecision(lim, true, found, tail);
    assert tail[1..] == rest;
    var x, y := Decisions(lim, true, m, others), Decisions(lim, true, found, tail);
    assert (x + y)[|x|] == y[0] && (x + y)[|x| + 1..] == y[1..];
  }

  /** A frame is handled exactly when the entry of its own call among the limiter's decisions is true. */
  lemma {:induction false} HandledIff(w: World, k: nat, m: Buckets, frames: seq<Frame>)
    ensures var d := Decisions(w.limits, true, m, ConnectionTrace.History(w, k, |frames|));
            && |d| == Accesses(ConnectionTrace.History(w, k, |frames|))
            && Admitted(w, k, m, frames) == Kept(frames, OwnFlags(w, k, |frames|, d))
    decreases |frames|
  {
    hide Decisions, LetsThrough, NextBuckets, Accesses;
    OneDecisionEach(w.limits, true, m, ConnectionTrace.History(w, k, |frames|));
    if frames != [] {
      TurnDecisions(w, k, m, |frames|);
      HandledIff(w, k + 1, NextBuckets(w, k, m), frames[1..]);
      var d := Decisions(w.limits, true, m, ConnectionTrace.History(w, k, |frames|));
      assert OwnFlags(w, k, |frames|, d)[1..] == OwnFlags(w, k + 1, |frames| - 1, d[Accesses(w.turns(k).others) + 1..]);
    }
  }

  // ---------------------------------------------------------------- when nothing is dropped

  lemma {:induction false} KeptAllIff(frames: seq<Frame>, flags: seq<bool>)
    requires |frames| == |flags|
    ensures |Kept(frames, flags)| <= |frames|
    ensures Kept(frames, flags) == frames <==> AllTrue(flags)
  {
    if frames != [] {
      KeptAllIff(frames[1..], flags[1..]);
      if flags[0] {
        assert Kept(frames, flags)[1..] == Kept(frames[1..], flags[1..]);
        assert frames == [frames[0]] + frames[1..];
        assert AllTrue(flags) <==> AllTrue(flags[1..]) by {
          assert forall k :: 0 < k < |flags| ==> flags[k] == flags[1..][k - 1];
        }
      } else {
        assert |Kept(frames, flags)| < |frames|;
      }
    }
  }

  /** The key is the connection's own: no other goroutine uses it. */
  ghost predicate Private(w: World) {
    forall k: nat, i: nat :: i < |w.turns(k).others| && w.turns(k).others[i].Access? ==> w.turns(k).others[i].ip != w.ip
  }

  lemma {:induction false} NotAmong(lim: Limits, m: Buckets, xs: seq<Op>, ys: seq<Op>, ip: string)
    requires forall i :: 0 <= i < |xs| && xs[i].Access? ==> xs[i].ip != ip
    ensures OwnDecisions(lim, true, m, xs + ys, ip) == OwnDecisions(lim, true, After(lim, true, m, xs), ys, ip)
    ensures CallsOf(ip, xs + ys) == CallsOf(ip, ys)
    decreases |xs|
  {
    hide Apply, Allows;
    if xs == [] {
      assert xs + ys == ys;
    } else {
      assert (xs + ys)[0] == xs[0] && (xs + ys)[1..] == xs[1..] + ys;
      NotAmong(lim, Apply(lim, true, m, xs[0]), xs[1..], ys, ip);
    }
  }

  /** A connection's own calls, as its bucket sees them. */
  function OwnCalls(w: World, k: nat, n: nat): (calls: seq<Call>)
    ensures |calls| == n
    ensures forall i :: 0 <= i < n ==> calls[i] == Call(w.turns(k + i).seen, w.turns(k + i).stored, 1.0)
    decreases n
  {
    if n == 0 then [] else [Call(w.turns(k).seen, w.turns(k).stored, 1.0)] + OwnCalls(w, k + 1, n - 1)
  }

  lemma OwnFirst(lim: Limits, m: Buckets, op: Op, rest: seq<Op>)
    requires op.Access?
    ensures OwnDecisions(lim, true, m, [op] + rest, op.ip)
         == [Allows(lim, m, op)] + OwnDecisions(lim, true, Apply(lim, true, m, op), rest, op.ip)
    ensures CallsOf(op.ip, [op] + rest) == [CallOf(op)] + CallsOf(op.ip, rest)
  {
    hide Allows, Apply;
    assert ([op] + rest)[1..] == rest;
  }

  lemma PrivateOthers(w: World, k: nat)
    requires Private(w)
    ensures forall i :: 0 <= i < |w.turns(k).others| && w.turns(k).others[i].Access? ==> w.turns(k).others[i].ip != w.ip
  {
  }

  /** With a private key, the connection's flags are the decisions for its key. */
  lemma {:induction false} PrivateFlags(w: World, k: nat, m: Buckets, n: nat)
    requires Private(w)
    ensures var h := ConnectionTrace.History(w, k, n);
            var d := Decisions(w.limits, true, m, h);
            && |d| == Accesses(h)
            && OwnFlags(w, k, n, d) == OwnDecisions(w.limits, true, m, h, w.ip)
            && CallsOf(w.ip, h) == OwnCalls(w, k, n)
    decreases n
  {
    OneDecisionEach(w.limits, true, m, ConnectionTrace.History(w, k, n));
    if n > 0 {
      hide Decisions, After, Apply, Allows, Accesses, OwnDecisions, CallsOf, Private;
      var others, rest := w.turns(k).others, ConnectionTrace.History(w, k + 1, n - 1);
      TurnDecisions(w, k, m, n);
      PrivateOthers(w, k);
      NotAmong(w.limits, m, others, [OwnCall(w, k)] + rest, w.ip);
      OwnFirst(w.limits, FoundBuckets(w, k, m), OwnCall(w, k), rest);
      PrivateFlags(w, k + 1, NextBuckets(w, k, m), n - 1);
    }
  }

  /** All frames of a connection are handled exactly when no run of its calls asks for more than its bucket can give. */
  lemma AllHandledIff(w: World, frames: seq<Frame>, clock: real)
    requires Private(w) && 0.0 <= w.limits.rate && 0.0 <= w.limits.cap && 300.0 * w.limits.rate >= w.limits.cap
    requires Timed(clock, ConnectionTrace.History(w, 0, |frames|))
    ensures Admitted(w, 0, map[], frames) == frames <==> EveryRunWithin(w.limits, OwnCalls(w, 0, |frames|))
  {
    FiveMinutes(w.limits);
    hide *;
    var h := ConnectionTrace.History(w, 0, |frames|);
    HandledIff(w, 0, map[], frames);
    PrivateFlags(w, 0, map[], |frames|);
    KeptAllIff(frames, OwnFlags(w, 0, |frames|, Decisions(w.limits, true, map[], h)));
    OwnAllAdmittedIff(w.limits, true, clock, h, w.ip);
  }

  /** Frames i to j number at most cap + rate * (t_j - t_i). */
  predicate FramesWithin(w: World, i: nat, j: nat)
    requires i <= j
  {
    (j - i + 1) as real <= w.limits.cap + w.limits.rate * (w.turns(j).seen - w.turns(i).seen)
  }

  /**
   With one clock reading a call: all frames of a connection are handled exactly when every run of them keeps
   the density bound.
   */
  lemma HandledByDensityIff(w: World, frames: seq<Frame>, clock: real)
    requires Private(w) && 0.0 <= w.limits.rate && 0.0 <= w.limits.cap && 300.0 * w.limits.rate >= w.limits.cap
    requires Timed(clock, ConnectionTrace.History(w, 0, |frames|)) && forall k: nat :: w.turns(k).seen == w.turns(k).stored
    ensures Admitted(w, 0, map[], frames) == frames <==> forall i, j :: 0 <= i <= j < |frames| ==> FramesWithin(w, i, j)
  {
    hide *;
    var n := |frames|;
    AllHandledIff(w, frames, clock);
    PrivateFlags(w, 0, map[], n);
    OrderedCalls(clock, clock, w.ip, ConnectionTrace.History(w, 0, n));
    DensityOfCalls(w, n, FirstUse(false, w.ip, ConnectionTrace.History(w, 0, n)));
  }

  lemma OneDensity(w: World, n: nat, i: nat, j: nat)
    requires i <= j < n
    ensures CountWithin(w.limits, OwnCalls(w, 0, n), i, j) <==> FramesWithin(w, i, j)
  {
    var calls := OwnCalls(w, 0, n);
    assert calls[i].seen == w.turns(i).seen && calls[j].seen == w.turns(j).seen;
    hide OwnCalls;
  }

  lemma SingleUnitCalls(w: World, n: nat)
    requires forall k: nat :: w.turns(k).seen == w.turns(k).stored
    ensures SingleReading(OwnCalls(w, 0, n)) && UnitCosts(OwnCalls(w, 0, n))
  {
  }

  lemma DensityOfCalls(w: World, n: nat, start: real)
    requires 0.0 <= w.limits.rate && Ordered(start, OwnCalls(w, 0, n)) && forall k: nat :: w.turns(k).seen == w.turns(k).stored
    ensures EveryRunWithin(w.limits, OwnCalls(w, 0, n)) <==> forall i, j :: 0 <= i <= j < n ==> FramesWithin(w, i, j)
  {
    hide *;
    SingleUnitCalls(w, n);
    AdmittedIff(w.limits, start, OwnCalls(w, 0, n));
    AllowIff(w.limits, start, OwnCalls(w, 0, n));
    forall i, j | 0 <= i <= j < n
      ensures CountWithin(w.limits, OwnCalls(w, 0, n), i, j) <==> FramesWithin(w, i, j)
    {
      OneDensity(w, n, i, j);
    }
  }
}
