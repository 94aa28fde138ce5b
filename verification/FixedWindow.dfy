/**
 The fixed-window limiter of the security manager. Each client has a counter that is started
 anew by the first call later than its reset time. Time is a real number.
 */
module FixedWindow {
  import opened Wrappers

  datatype Limits = Limits(maxRequests: int, window: real)

  datatype Counter = Counter(count: int, resetAt: real)

  type Counters = map<string, Counter>

  /** A call of Allow with its clock reading. */
  datatype Visit = Visit(client: string, now: real)

  function Lookup(m: Counters, client: string): Option<Counter> {
    if client in m then Some(m[client]) else None
  }

  /** The call starts a new counter. */
  predicate Starts(c: Option<Counter>, now: real) {
    c.None? || now > c.value.resetAt
  }

  predicate Admits(lim: Limits, c: Option<Counter>, now: real) {
    Starts(c, now) || c.value.count < lim.maxRequests
  }

  function Count(lim: Limits, c: Option<Counter>, now: real): Counter {
    if Starts(c, now) then Counter(1, now + lim.window)
    else if c.value.count >= lim.maxRequests then c.value
    else Counter(c.value.count + 1, c.value.resetAt)
  }

  // ---------------------------------------------------------------- one client

  /** The counter after the first k calls, at the given times. */
  function State(lim: Limits, times: seq<real>, k: nat): Option<Counter>
    requires k <= |times|
  {
    if k == 0 then None else Some(Count(lim, State(lim, times, k - 1), times[k - 1]))
  }

  predicate AdmitsAt(lim: Limits, times: seq<real>, k: nat)
    requires k < |times|
  {
    Admits(lim, State(lim, times, k), times[k])
  }

  predicate Nondecreasing(times: seq<real>) {
    forall i, j :: 0 <= i <= j < |times| ==> times[i] <= times[j]
  }

  /** How many of the first k calls are admitted at a time from s to t. */
  function Admitted(lim: Limits, times: seq<real>, k: nat, s: real, t: real): nat
    requires k <= |times|
  {
    if k == 0 then 0
    else Admitted(lim, times, k - 1, s, t) + if AdmitsAt(lim, times, k - 1) && s <= times[k - 1] <= t then 1 else 0
  }

  /** Every counter admits its first call, even if maxRequests is less than one. */
  function Quota(lim: Limits): nat { if lim.maxRequests > 1 then lim.maxRequests else 1 }

  lemma {:induction false} AdmittedSoFar(lim: Limits, times: seq<real>, k: nat, s: real, t: real)
    requires k <= |times| && Nondecreasing(times) && s <= t <= s + lim.window
    ensures k > 0 ==>
              var c, last, g := State(lim, times, k).value, times[k - 1], Admitted(lim, times, k, s, t);
              var start := c.resetAt - lim.window;
              && 1 <= c.count <= Quota(lim) && start <= last
              && (last < s ==> g == 0)
              && (start < s <= last ==> g <= c.count - 1)
              && (s <= start <= t ==> g <= Quota(lim) - 1 + c.count)
              && g <= 2 * Quota(lim) - 1
  {
    if k > 1 {
      AdmittedSoFar(lim, times, k - 1, s, t);
      assert times[k - 2] <= times[k - 1];
    } else if k == 1 {
      assert State(lim, times, 0) == None && Admitted(lim, times, 0, s, t) == 0;
    }
  }

  /** In any closed interval no longer than the window, at most twice the quota less one call is admitted. */
  lemma WindowBound(lim: Limits, times: seq<real>, s: real, t: real)
    requires Nondecreasing(times) && s <= t <= s + lim.window
    ensures Admitted(lim, times, |times|, s, t) <= 2 * Quota(lim) - 1
  {
    AdmittedSoFar(lim, times, |times|, s, t);
  }

  /** The start of the counter that is in use after k calls. */
  function CounterStart(lim: Limits, times: seq<real>, k: nat): real
    requires 0 < k <= |times|
  {
    State(lim, times, k).value.resetAt - lim.window
  }

  /** Consecutive counters start more than one window apart. */
  lemma {:induction false} StartsApart(lim: Limits, times: seq<real>, i: nat, j: nat)
    requires 0 < i <= j <= |times| && 0.0 <= lim.window
    ensures CounterStart(lim, times, i) == CounterStart(lim, times, j)
         || CounterStart(lim, times, j) > CounterStart(lim, times, i) + lim.window
    decreases j
  {
    if i < j {
      StartsApart(lim, times, i, j - 1);
    }
  }

  // ---------------------------------------------------------------- every decision

  /** The call that started the counter which call k meets. */
  function StartIndex(lim: Limits, times: seq<real>, k: nat): (i: nat)
    requires k < |times|
    ensures i <= k
  {
    if k == 0 then 0
    else
      var i := StartIndex(lim, times, k - 1);
      if times[k] > times[i] + lim.window then k else i
  }

  /** A call is admitted exactly when it starts a counter or fewer than maxRequests calls came since the one that did. */
  lemma {:induction false} DecisionIff(lim: Limits, times: seq<real>, k: nat)
    requires k < |times|
    ensures var i := StartIndex(lim, times, k);
            && (AdmitsAt(lim, times, k) <==> k == i || k - i < lim.maxRequests)
            && State(lim, times, k + 1) == Some(Counter(if k - i < Quota(lim) then k - i + 1 else Quota(lim), times[i] + lim.window))
  {
    if k > 0 {
      DecisionIff(lim, times, k - 1);
    } else {
      assert State(lim, times, 0) == None;
    }
  }

  // ---------------------------------------------------------------- the bound is reached

  /** One call, quota - 1 more at the very end of its window, and quota calls just after it. */
  function Burst(lim: Limits): seq<real> {
    var q := Quota(lim);
    seq(2 * q, k => if k == 0 then 0.0 else if k < q then lim.window else 2.0 * lim.window)
  }

  lemma {:induction false} BurstState(lim: Limits, k: nat)
    requires lim.window > 0.0 && k < 2 * Quota(lim)
    ensures AdmitsAt(lim, Burst(lim), k)
    ensures var q, c := Quota(lim), State(lim, Burst(lim), k + 1).value;
            c == if k < q then Counter(k + 1, lim.window) else Counter(k - q + 1, 3.0 * lim.window)
  {
    if k > 0 {
      BurstState(lim, k - 1);
    } else {
      assert State(lim, Burst(lim), 0) == None;
    }
  }

  lemma {:induction false} BurstAdmitted(lim: Limits, k: nat)
    requires lim.window > 0.0 && 0 < k <= 2 * Quota(lim)
    ensures Admitted(lim, Burst(lim), k, lim.window, 2.0 * lim.window) == k - 1
  {
    BurstState(lim, k - 1);
    if k > 1 {
      BurstAdmitted(lim, k - 1);
    } else {
      assert Admitted(lim, Burst(lim), 0, lim.window, 2.0 * lim.window) == 0;
    }
  }

  /** For every positive window some history reaches the bound. */
  lemma BoundReached(lim: Limits)
    requires lim.window > 0.0
    ensures Nondecreasing(Burst(lim))
    ensures Admitted(lim, Burst(lim), |Burst(lim)|, lim.window, 2.0 * lim.window) == 2 * Quota(lim) - 1
  {
    BurstAdmitted(lim, 2 * Quota(lim));
  }

  // ---------------------------------------------------------------- one client among many

  function Apply(lim: Limits, m: Counters, v: Visit): Counters {
    m[v.client := Count(lim, Lookup(m, v.client), v.now)]
  }

  function After(lim: Limits, visits: seq<Visit>): Counters {
    if visits == [] then map[]
    else var n := |visits| - 1; Apply(lim, After(lim, visits[..n]), visits[n])
  }

  predicate Timed(visits: seq<Visit>) {
    forall i, j :: 0 <= i <= j < |visits| ==> visits[i].now <= visits[j].now
  }

  function TimesOf(client: string, visits: seq<Visit>): seq<real> {
    if visits == [] then []
    else
      var n := |visits| - 1;
      TimesOf(client, visits[..n]) + if visits[n].client == client then [visits[n].now] else []
  }

  /** How many calls of the client are admitted at a time from s to t. */
  function ClientAdmitted(lim: Limits, visits: seq<Visit>, client: string, s: real, t: real): nat {
    if visits == [] then 0
    else
      var n, v := |visits| - 1, visits[|visits| - 1];
      ClientAdmitted(lim, visits[..n], client, s, t)
      + if v.client == client && Admits(lim, Lookup(After(lim, visits[..n]), client), v.now) && s <= v.now <= t then 1 else 0
  }

  lemma {:induction false} PrefixState(lim: Limits, times: seq<real>, more: seq<real>, k: nat, s: real, t: real)
    requires k <= |times|
    ensures State(lim, times + more, k) == State(lim, times, k)
    ensures Admitted(lim, times + more, k, s, t) == Admitted(lim, times, k, s, t)
  {
    if k > 0 {
      PrefixState(lim, times, more, k - 1, s, t);
      hide Count, Admits;
      assert (times + more)[k - 1] == times[k - 1];
    }
  }

  /** What a client gets depends on its own calls only. */
  lemma {:induction false} ClientProjection(lim: Limits, visits: seq<Visit>, client: string, s: real, t: real)
    ensures var times := TimesOf(client, visits);
            && Lookup(After(lim, visits), client) == State(lim, times, |times|)
            && ClientAdmitted(lim, visits, client, s, t) == Admitted(lim, times, |times|, s, t)
  {
    hide Count, Admits;
    if visits != [] {
      var n := |visits| - 1;
      var v, times := visits[n], TimesOf(client, visits[..n]);
      ClientProjection(lim, visits[..n], client, s, t);
      if v.client == client {
        PrefixState(lim, times, [v.now], |times|, s, t);
        assert (times + [v.now])[|times|] == v.now;
      } else {
        assert times + [] == times;
      }
    }
  }

  lemma OneMoreTime(times: seq<real>, now: real)
    requires Nondecreasing(times) && forall k :: 0 <= k < |times| ==> times[k] <= now
    ensures Nondecreasing(times + [now])
  {
  }

  predicate UpTo(times: seq<real>, now: real) {
    forall k :: 0 <= k < |times| ==> times[k] <= now
  }

  lemma {:induction false} ClientTimes(visits: seq<Visit>, client: string)
    requires Timed(visits)
    ensures Nondecreasing(TimesOf(client, visits))
    ensures visits != [] ==> UpTo(TimesOf(client, visits), visits[|visits| - 1].now)
  {
    if visits != [] {
      var n := |visits| - 1;
      var init, times, now := visits[..n], TimesOf(client, visits[..n]), visits[n].now;
      assert Timed(init);
      ClientTimes(init, client);
      assert UpTo(times, now) by {
        if n > 0 {
          assert visits[n - 1].now <= now;
        } else {
          assert times == [];
        }
      }
      OneMoreTime(times, now);
      hide Nondecreasing, Timed;
    }
  }

  /** Over every history of any number of clients, the bound holds for each of them. */
  lemma ClientWindowBound(lim: Limits, visits: seq<Visit>, client: string, s: real, t: real)
    requires Timed(visits) && s <= t <= s + lim.window
    ensures ClientAdmitted(lim, visits, client, s, t) <= 2 * Quota(lim) - 1
  {
    ClientProjection(lim, visits, client, s, t);
    ClientTimes(visits, client);
    WindowBound(lim, TimesOf(client, visits), s, t);
  }

  // ---------------------------------------------------------------- the object

  class RateLimiter {
    var requests: Counters
    const maxRequests: int
    const window: real

    function Limit(): Limits {
      Limits(maxRequests, window)
    }

    constructor (maxRequests: int, window: real)
      ensures requests == map[] && Limit() == Limits(maxRequests, window)
    {
      this.maxRequests := maxRequests;
      this.window := window;
      requests := map[];
    }

    method Allow(clientId: string, now: real) returns (ok: bool)
      modifies this`requests
      ensures ok == Admits(Limit(), Lookup(old(requests), clientId), now)
      ensures requests == Apply(Limit(), old(requests), Visit(clientId, now))
    {
      if clientId !in requests || now > requests[clientId].resetAt {
        requests := requests[clientId := Counter(1, now + window)];
        return true;
      }
      if requests[clientId].count >= maxRequests {
        assert requests == requests[clientId := requests[clientId]];
        return false;
      }
      requests := requests[clientId := requests[clientId].(count := requests[clientId].count + 1)];
      return true;
    }
  }

  /** A new limiter serving a whole history: the number of calls it lets through for a client is bounded. */
  method Serve(lim: Limits, visits: seq<Visit>, client: string, s: real, t: real) returns (admitted: nat)
    requires Timed(visits) && s <= t <= s + lim.window
    ensures admitted == ClientAdmitted(lim, visits, client, s, t) && admitted <= 2 * Quota(lim) - 1
  {
    var limiter := new RateLimiter(lim.maxRequests, lim.window);
    admitted := 0;
    hide Admits, Apply;
    for n := 0 to |visits|
      invariant limiter.Limit() == lim && limiter.requests == After(lim, visits[..n])
      invariant admitted == ClientAdmitted(lim, visits[..n], client, s, t)
    {
      var v := visits[n];
      assert visits[..n + 1][..n] == visits[..n] && visits[..n + 1][n] == v;
      var ok := limiter.Allow(v.client, v.now);
      if ok && v.client == client && s <= v.now <= t {
        admitted := admitted + 1;
      }
    }
    assert visits[..|visits|] == visits;
    ClientWindowBound(lim, visits, client, s, t);
  }
}
