/**
 The connection limiter and the handlers that use it. A handler asks for its address when its
 connection arrives and, if it was admitted, gives the address back when it ends; any number of
 handlers do so in any order.
 */
module ConnectionLimiter {
  import opened Rounds
  import opened Wrappers

  type Counts = map<string, int>

  /** Go's map lookup: zero for a missing key. */
  function Count(m: Counts, ip: string): int {
    if ip in m then m[ip] else 0
  }

  class ConnectionRateLimiter {
    var connections: Counts
    const maxPerIp: int

    constructor (maxPerIp: int)
      ensures connections == map[] && this.maxPerIp == maxPerIp
    {
      this.maxPerIp := maxPerIp;
      connections := map[];
    }

    method AllowConnection(ip: string) returns (ok: bool)
      modifies this`connections
      ensures ok == Allows(maxPerIp, old(connections), ip)
      ensures connections == if ok then Acquired(old(connections), ip) else old(connections)
    {
      var count := Count(connections, ip);
      if count >= maxPerIp {
        return false;
      }
      connections := connections[ip := Count(connections, ip) + 1];
      return true;
    }

    method ReleaseConnection(ip: string)
      modifies this`connections
      ensures connections == Released(old(connections), ip)
    {
      var count := Count(connections, ip);
      if count > 0 {
        connections := connections[ip := Count(connections, ip) - 1];
        if Count(connections, ip) == 0 {
          connections := connections - {ip};
        }
      }
    }
  }

  predicate Allows(max: int, m: Counts, ip: string) {
    Count(m, ip) < max
  }

  function Acquired(m: Counts, ip: string): Counts {
    m[ip := Count(m, ip) + 1]
  }

  function Released(m: Counts, ip: string): Counts {
    if Count(m, ip) <= 0 then m
    else if m[ip] == 1 then m - {ip}
    else m[ip := m[ip] - 1]
  }

  // ---------------------------------------------------------------- handlers

  datatype Phase = Serving | Refused | Ended

  datatype Handler = Handler(ip: string, phase: Phase)

  /** A connection arrives and gets the next handler, or a handler that is serving ends. */
  datatype Event = Arrive(ip: string) | End(h: nat)

  datatype State = State(connections: Counts, handlers: seq<Handler>)

  const START: State := State(map[], [])

  /** The state after an event; None if there is no such handler to end. */
  function Do(max: int, s: State, e: Event): Option<State> {
    match e
    case Arrive(ip) =>
      if Allows(max, s.connections, ip) then
        Some(State(Acquired(s.connections, ip), s.handlers + [Handler(ip, Serving)]))
      else Some(s.(handlers := s.handlers + [Handler(ip, Refused)]))
    case End(h) =>
      if h < |s.handlers| && s.handlers[h].phase == Serving then
        Some(State(Released(s.connections, s.handlers[h].ip), s.handlers[h := s.handlers[h].(phase := Ended)]))
      else None
  }

  function Run(max: int, s: State, events: seq<Event>): Option<State>
    decreases |events|
  {
    if events == [] then Some(s)
    else
      match Do(max, s, events[0])
      case None => None
      case Some(next) => Run(max, next, events[1..])
  }

  predicate Serves(h: Handler, ip: string) {
    h.ip == ip && h.phase == Serving
  }

  /** How many handlers of an address have been admitted and have not ended. */
  function Active(handlers: seq<Handler>, ip: string): nat {
    if handlers == [] then 0 else (if Serves(handlers[0], ip) then 1 else 0) + Active(handlers[1..], ip)
  }

  /** The map holds exactly the positive counts of serving handlers, and none exceeds the limit. */
  ghost predicate Exact(max: int, s: State) {
    && (forall ip :: Count(s.connections, ip) == Active(s.handlers, ip))
    && (forall ip :: ip in s.connections ==> 0 < s.connections[ip] <= max)
  }

  lemma {:induction false} ActiveAppend(handlers: seq<Handler>, h: Handler, ip: string)
    ensures Active(handlers + [h], ip) == Active(handlers, ip) + if Serves(h, ip) then 1 else 0
  {
    if handlers != [] {
      assert (handlers + [h])[1..] == handlers[1..] + [h];
      ActiveAppend(handlers[1..], h, ip);
    } else {
      assert Active([h], ip) == (if Serves(h, ip) then 1 else 0) + Active([], ip);
    }
  }

  lemma {:induction false} ActiveUpdate(handlers: seq<Handler>, k: nat, h: Handler, ip: string)
    requires k < |handlers|
    ensures Active(handlers[k := h], ip) + (if Serves(handlers[k], ip) then 1 else 0)
         == Active(handlers, ip) + if Serves(h, ip) then 1 else 0
  {
    if k > 0 {
      assert handlers[k := h][1..] == handlers[1..][k - 1 := h];
      ActiveUpdate(handlers[1..], k - 1, h, ip);
    } else {
      assert handlers[k := h][1..] == handlers[1..];
    }
  }

  lemma {:induction false} NoneActive(handlers: seq<Handler>, ip: string)
    requires forall k :: 0 <= k < |handlers| ==> handlers[k].phase != Serving
    ensures Active(handlers, ip) == 0
  {
    if handlers != [] {
      assert handlers[0].phase != Serving;
      NoneActive(handlers[1..], ip);
    }
  }

  lemma KeepsExact(max: int, s: State, e: Event)
    requires Exact(max, s) && Do(max, s, e).Some?
    ensures Exact(max, Do(max, s, e).value)
  {
    hide Active;
    var s' := Do(max, s, e).value;
    forall ip
      ensures Count(s'.connections, ip) == Active(s'.handlers, ip)
    {
      assert Count(s.connections, ip) == Active(s.handlers, ip);
      match e
      case Arrive(_) => ActiveAppend(s.handlers, s'.handlers[|s.handlers|], ip);
      case End(h) => ActiveUpdate(s.handlers, h, s'.handlers[h], ip);
    }
  }

  lemma {:induction false} ExactThroughout(max: int, s: State, events: seq<Event>)
    requires Exact(max, s) && Run(max, s, events).Some?
    ensures Exact(max, Run(max, s, events).value)
    decreases |events|
  {
    hide Exact, Do;
    if events != [] {
      KeepsExact(max, s, events[0]);
      ExactThroughout(max, Do(max, s, events[0]).value, events[1..]);
    }
  }

  /** In every interleaving of handlers: counts are exact, positive and within the limit. */
  lemma CountsExact(max: int, events: seq<Event>, s: State)
    requires Run(max, START, events) == Some(s)
    ensures forall ip :: Count(s.connections, ip) == Active(s.handlers, ip)
    ensures forall ip :: ip in s.connections ==> 0 < s.connections[ip] <= max
  {
    assert Exact(max, START);
    ExactThroughout(max, START, events);
  }

  /** A connection is admitted exactly when its address has fewer than the limit of handlers serving. */
  lemma AdmittedIff(max: int, events: seq<Event>, s: State, ip: string)
    requires Run(max, START, events) == Some(s)
    ensures var s' := Do(max, s, Arrive(ip)).value;
            s'.handlers[|s.handlers|].phase == Serving <==> Active(s.handlers, ip) < max
  {
    CountsExact(max, events, s);
    assert Count(s.connections, ip) == Active(s.handlers, ip);
  }

  /** Every handler that is serving finds a positive count to give back. */
  lemma ReleaseFinds(max: int, events: seq<Event>, s: State, h: nat)
    requires Run(max, START, events) == Some(s) && h < |s.handlers| && s.handlers[h].phase == Serving
    ensures var ip := s.handlers[h].ip; ip in s.connections && 1 <= s.connections[ip] <= max
  {
    CountsExact(max, events, s);
    var ip := s.handlers[h].ip;
    ActiveUpdate(s.handlers, h, Handler(ip, Ended), ip);
    assert Count(s.connections, ip) == Active(s.handlers, ip);
  }

  /** A handler that comes and goes leaves the map of a run as it found it. */
  lemma ReleaseUndoes(max: int, events: seq<Event>, s: State, ip: string)
    requires Run(max, START, events) == Some(s)
    ensures Released(Acquired(s.connections, ip), ip) == s.connections
  {
    CountsExact(max, events, s);
  }

  /** Once no handler is serving, the map is empty again. */
  lemma EmptyAtEnd(max: int, events: seq<Event>, s: State)
    requires Run(max, START, events) == Some(s)
    requires forall k :: 0 <= k < |s.handlers| ==> s.handlers[k].phase != Serving
    ensures s.connections == map[]
  {
    CountsExact(max, events, s);
    if ip :| ip in s.connections {
      assert Count(s.connections, ip) == Active(s.handlers, ip);
      NoneActive(s.handlers, ip);
    }
  }

  // ---------------------------------------------------------------- hosts

  // The server's key for a connection is its remote address with the port, so one host has many keys.

  /** How many handlers with one of these keys have been admitted and have not ended. */
  function ActiveAmong(handlers: seq<Handler>, keys: set<string>): nat {
    if handlers == [] then 0
    else (if handlers[0].phase == Serving && handlers[0].ip in keys then 1 else 0) + ActiveAmong(handlers[1..], keys)
  }

  lemma {:induction false} ActiveSplit(handlers: seq<Handler>, keys: set<string>, ip: string)
    requires ip in keys
    ensures ActiveAmong(handlers, keys) == Active(handlers, ip) + ActiveAmong(handlers, keys - {ip})
  {
    if handlers != [] {
      ActiveSplit(handlers[1..], keys, ip);
    }
  }

  lemma {:induction false} ActiveNowhere(handlers: seq<Handler>)
    ensures ActiveAmong(handlers, {}) == 0
  {
    if handlers != [] {
      ActiveNowhere(handlers[1..]);
    }
  }

  function AtLeastZero(max: int): nat { if max < 0 then 0 else max }

  lemma {:induction false} SumOfKeys(handlers: seq<Handler>, keys: set<string>, most: nat)
    requires forall ip :: ip in keys ==> Active(handlers, ip) <= most
    ensures ActiveAmong(handlers, keys) <= Times(|keys|, most)
    decreases |keys|
  {
    hide Active, ActiveAmong, Times;
    if keys == {} {
      ActiveNowhere(handlers);
      TimesNext(0, most);
    } else {
      var ip :| ip in keys;
      ActiveSplit(handlers, keys, ip);
      SumOfKeys(handlers, keys - {ip}, most);
      TimesNext(|keys| - 1, most);
    }
  }

  /** In every run a host is served at most the limit for each of its keys. */
  lemma HostBound(max: int, events: seq<Event>, s: State, keys: set<string>)
    requires Run(max, START, events) == Some(s)
    ensures ActiveAmong(s.handlers, keys) <= Times(|keys|, AtLeastZero(max))
  {
    CountsExact(max, events, s);
    forall ip | ip in keys
      ensures Active(s.handlers, ip) <= AtLeastZero(max)
    {
      assert Count(s.connections, ip) == Active(s.handlers, ip);
    }
    SumOfKeys(s.handlers, keys, AtLeastZero(max));
  }

  /** The limit holds for the host as a whole, in every run. */
  ghost predicate HostLimited(max: int, keys: set<string>) {
    forall events: seq<Event>, s: State :: Run(max, START, events) == Some(s) ==> ActiveAmong(s.handlers, keys) <= AtLeastZero(max)
  }

  lemma {:induction false} RunAppend(max: int, s: State, events: seq<Event>, e: Event)
    requires Run(max, s, events).Some?
    ensures Run(max, s, events + [e]) == Do(max, Run(max, s, events).value, e)
    decreases |events|
  {
    hide Do;
    if events == [] {
      assert (events + [e])[1..] == [];
    } else {
      assert (events + [e])[0] == events[0] && (events + [e])[1..] == events[1..] + [e];
      RunAppend(max, Do(max, s, events[0]).value, events[1..], e);
    }
  }

  /** A first key is admitted up to the limit. */
  lemma {:induction false} FillKey(max: int, n: nat, a: string) returns (events: seq<Event>, s: State)
    requires n <= max
    ensures Run(max, START, events) == Some(s) && |s.handlers| == n && Count(s.connections, a) == n
    ensures forall k :: 0 <= k < n ==> s.handlers[k] == Handler(a, Serving)
    ensures s.connections.Keys <= {a}
  {
    if n == 0 {
      events, s := [], START;
    } else {
      var e, t := FillKey(max, n - 1, a);
      RunAppend(max, START, e, Arrive(a));
      events, s := e + [Arrive(a)], Do(max, t, Arrive(a)).value;
    }
  }

  lemma {:induction false} AllActive(handlers: seq<Handler>, keys: set<string>)
    requires forall k :: 0 <= k < |handlers| ==> handlers[k].phase == Serving && handlers[k].ip in keys
    ensures ActiveAmong(handlers, keys) == |handlers|
  {
    if handlers != [] {
      assert handlers[0].phase == Serving && handlers[0].ip in keys;
      AllActive(handlers[1..], keys);
    }
  }

  /** A second key is admitted although the first one has reached the limit. */
  lemma SecondKeyAdmitted(max: int, keys: set<string>, a: string, b: string) returns (events: seq<Event>, s: State)
    requires max > 0 && a in keys && b in keys && a != b
    ensures Run(max, START, events) == Some(s) && ActiveAmong(s.handlers, keys) == max + 1
  {
    var e, t := FillKey(max, max, a);
    RunAppend(max, START, e, Arrive(b));
    events, s := e + [Arrive(b)], Do(max, t, Arrive(b)).value;
    AllActive(s.handlers, keys);
  }

  /** The limit holds for a host as a whole exactly when its connections share one key, or nothing is admitted at all. */
  lemma HostLimitedIff(max: int, keys: set<string>)
    ensures HostLimited(max, keys) <==> |keys| <= 1 || max <= 0
  {
    hide Run, ActiveAmong, Times;
    var most := AtLeastZero(max);
    if |keys| <= 1 || max <= 0 {
      forall events: seq<Event>, s: State | Run(max, START, events) == Some(s)
        ensures ActiveAmong(s.handlers, keys) <= most
      {
        HostBound(max, events, s, keys);
        TimesNext(0, most);
        if most == 0 {
          NoRounds(|keys|);
        }
      }
    } else {
      var a :| a in keys;
      assert |keys - {a}| > 0;
      var b :| b in keys - {a};
      var events, s := SecondKeyAdmitted(max, keys, a, b);
      assert ActiveAmong(s.handlers, keys) > most;
    }
  }

  lemma NoRounds(h: int)
    ensures Times(h, 0) == 0
  {
  }

  /** Carries out a whole run on the object. */
  method Carry(limiter: ConnectionRateLimiter, events: seq<Event>) returns (handlers: seq<Handler>)
    requires limiter.connections == map[] && Run(limiter.maxPerIp, START, events).Some?
    modifies limiter`connections
    ensures Run(limiter.maxPerIp, START, events) == Some(State(limiter.connections, handlers))
    ensures forall ip :: Count(limiter.connections, ip) == Active(handlers, ip)
  {
    handlers := [];
    for k := 0 to |events|
      invariant Run(limiter.maxPerIp, START, events) == Run(limiter.maxPerIp, State(limiter.connections, handlers), events[k..])
    {
      assert events[k..][0] == events[k] && events[k..][1..] == events[k + 1..];
      match events[k]
      case Arrive(ip) =>
        var ok := limiter.AllowConnection(ip);
        handlers := handlers + [Handler(ip, if ok then Serving else Refused)];
      case End(h) =>
        limiter.ReleaseConnection(handlers[h].ip);
        handlers := handlers[h := handlers[h].(phase := Ended)];
    }
    CountsExact(limiter.maxPerIp, events, State(limiter.connections, handlers));
  }
}
