/** The client's circuit breaker over whole histories of calls. Time is a real number. */
module CircuitBreaker {
  import opened Counters
  import opened Wrappers

  datatype Phase = Closed | Open | HalfOpen

  datatype Config = Config(threshold: U64, timeout: real)

  datatype State = State(failures: U64, successes: U64, phase: Phase, lastFailure: Option<real>)

  const NEW: State := State(0, 0, Closed, None)

  /** The three calls, with their clock readings. */
  datatype Event = Allow(now: real) | Success | Failure(now: real)

  class Breaker {
    var failures: U64
    var successes: U64
    var phase: Phase
    var lastFailure: Option<real>
    const threshold: U64
    const timeout: real

    function Settings(): Config { Config(threshold, timeout) }

    function View(): State
      reads this
    {
      State(failures, successes, phase, lastFailure)
    }

    constructor (threshold: U64, timeout: real)
      ensures View() == NEW && Settings() == Config(threshold, timeout)
    {
      this.threshold, this.timeout := threshold, timeout;
      failures, successes, phase, lastFailure := 0, 0, Closed, None;
    }

    method Allow(now: real) returns (ok: bool)
      modifies this`phase
      ensures ok == Allows(Settings(), old(View()), now)
      ensures View() == Step(Settings(), old(View()), Event.Allow(now))
    {
      match phase
      case Closed => return true;
      case Open =>
        if lastFailure.Some? && now - lastFailure.value > timeout {
          phase := HalfOpen;
          return true;
        }
        return false;
      case HalfOpen => return true;
    }

    method Success()
      modifies this`failures, this`successes, this`phase
      ensures View() == Step(Settings(), old(View()), Event.Success)
    {
      successes := Wrap(successes + 1);
      failures := 0;
      if phase == HalfOpen {
        phase := Closed;
      }
    }

    method Failure(now: real)
      modifies this`failures, this`lastFailure, this`phase
      ensures View() == Step(Settings(), old(View()), Event.Failure(now))
    {
      failures := Wrap(failures + 1);
      lastFailure := Some(now);
      if failures >= threshold {
        phase := Open;
      }
    }
  }

  predicate Allows(cfg: Config, s: State, now: real) {
    s.phase == Open ==> s.lastFailure.Some? && now - s.lastFailure.value > cfg.timeout
  }

  function Step(cfg: Config, s: State, e: Event): State {
    match e
    case Allow(now) => if s.phase == Open && Allows(cfg, s, now) then s.(phase := HalfOpen) else s
    case Success =>
      State(0, Wrap(s.successes + 1), if s.phase == HalfOpen then Closed else s.phase, s.lastFailure)
    case Failure(now) =>
      var count := Wrap(s.failures + 1);
      State(count, s.successes, if count >= cfg.threshold then Open else s.phase, Some(now))
  }

  function After(cfg: Config, s: State, events: seq<Event>): State {
    if events == [] then s else Step(cfg, After(cfg, s, events[..|events| - 1]), events[|events| - 1])
  }

  // ---------------------------------------------------------------- what the history says

  /** Failures since the last success. */
  function Streak(events: seq<Event>): nat {
    if events == [] then 0
    else
      var n := |events| - 1;
      match events[n]
      case Allow(_) => Streak(events[..n])
      case Success => 0
      case Failure(_) => Streak(events[..n]) + 1
  }

  function Successes(events: seq<Event>): nat {
    if events == [] then 0
    else Successes(events[..|events| - 1]) + if events[|events| - 1].Success? then 1 else 0
  }

  /** When the latest failure was reported. */
  function LatestFailure(events: seq<Event>): Option<real> {
    if events == [] then None
    else if events[|events| - 1].Failure? then Some(events[|events| - 1].now)
    else LatestFailure(events[..|events| - 1])
  }

  /** A failure has set the breaker open, and no success was reported since. */
  predicate Tripped(cfg: Config, events: seq<Event>) {
    if events == [] then false
    else
      var n := |events| - 1;
      match events[n]
      case Allow(_) => Tripped(cfg, events[..n])
      case Success => false
      case Failure(_) => Wrap(After(cfg, NEW, events[..n]).failures + 1) >= cfg.threshold || Tripped(cfg, events[..n])
  }

  /** The streak that opens a breaker; a threshold of zero opens it at the first failure, like one. */
  function Trigger(cfg: Config): (n: nat)
    ensures 0 < n < TWO64 && n >= cfg.threshold
  {
    if cfg.threshold == 0 then 1 else cfg.threshold
  }

  /** The counter is the streak, the timestamp is the latest failure, and Closed means below the threshold. */
  lemma {:induction false} HistoryInvariant(cfg: Config, events: seq<Event>)
    ensures var s := After(cfg, NEW, events);
            && s.failures == Wrap(Streak(events)) && s.successes == Wrap(Successes(events))
            && s.lastFailure == LatestFailure(events)
            && (s.phase == Closed ==> s.failures == Streak(events) < Trigger(cfg))
            && (s.phase != Closed ==> s.lastFailure.Some?)
  {
    hide Wrap;
    WrapSmall(0);
    if events != [] {
      var n := |events| - 1;
      HistoryInvariant(cfg, events[..n]);
      WrapNext(Streak(events[..n]));
      WrapNext(Successes(events[..n]));
      if Streak(events[..n]) < Trigger(cfg) {
        WrapSmall(Streak(events[..n]) + 1);
      }
      hide After;
      assert After(cfg, NEW, events) == Step(cfg, After(cfg, NEW, events[..n]), events[n]) by { LastStep(cfg, NEW, events); }
    }
  }

  lemma LastStep(cfg: Config, s: State, events: seq<Event>)
    requires events != []
    ensures After(cfg, s, events) == Step(cfg, After(cfg, s, events[..|events| - 1]), events[|events| - 1])
  {
  }

  /** A call is refused exactly while the breaker is open and the latest failure is no older than the timeout. */
  lemma {:induction false} RefusedIff(cfg: Config, events: seq<Event>, now: real)
    ensures var s, last := After(cfg, NEW, events), LatestFailure(events);
            !Allows(cfg, s, now) <==> s.phase == Open && last.Some? && now - last.value <= cfg.timeout
  {
    HistoryInvariant(cfg, events);
  }

  /** Calls up to the timeout after t, and failures no earlier than t. */
  predicate Within(cfg: Config, t: real, events: seq<Event>) {
    forall k :: 0 <= k < |events| ==>
      (events[k].Allow? ==> events[k].now <= t + cfg.timeout) && (events[k].Failure? ==> events[k].now >= t)
  }

  /** From a failure at t that leaves the breaker open, nothing opens it before the timeout: neither successes nor failures. */
  lemma {:induction false} QuietPeriod(cfg: Config, s: State, t: real, events: seq<Event>, now: real)
    requires s.phase == Open && s.lastFailure == Some(t) && Within(cfg, t, events) && now <= t + cfg.timeout
    ensures var s' := After(cfg, s, events);
            s'.phase == Open && s'.lastFailure.Some? && s'.lastFailure.value >= t && !Allows(cfg, s', now)
  {
    if events != [] {
      var n := |events| - 1;
      var at := if events[n].Allow? then events[n].now else now;
      QuietPeriod(cfg, s, t, events[..n], at);
      hide After, Wrap;
      LastStep(cfg, s, events);
    }
  }

  /** A call that comes later than the timeout after t. */
  predicate Late(cfg: Config, t: real, e: Event) {
    e.Allow? && e.now - t > cfg.timeout
  }

  predicate Probed(cfg: Config, t: real, events: seq<Event>) {
    exists i :: 0 <= i < |events| && Late(cfg, t, events[i])
  }

  /** A success was reported after such a call. */
  predicate Recovered(cfg: Config, t: real, events: seq<Event>) {
    exists i, j :: 0 <= i < j < |events| && Late(cfg, t, events[i]) && events[j].Success?
  }

  lemma OneMoreEvent(cfg: Config, t: real, events: seq<Event>, e: Event)
    ensures Probed(cfg, t, events + [e]) <==> Probed(cfg, t, events) || Late(cfg, t, e)
    ensures Recovered(cfg, t, events + [e]) <==> Recovered(cfg, t, events) || (Probed(cfg, t, events) && e.Success?)
  {
    var all := events + [e];
    assert forall i :: 0 <= i < |events| ==> all[i] == events[i];
    assert all[|events|] == e;
    if Probed(cfg, t, events) && e.Success? {
      var i :| 0 <= i < |events| && Late(cfg, t, events[i]);
      assert Late(cfg, t, all[i]) && all[|events|].Success?;
    }
    if Recovered(cfg, t, events) {
      var i, j :| 0 <= i < j < |events| && Late(cfg, t, events[i]) && events[j].Success?;
      assert Late(cfg, t, all[i]) && all[j].Success?;
    }
    if Probed(cfg, t, events) {
      var i :| 0 <= i < |events| && Late(cfg, t, events[i]);
      assert Late(cfg, t, all[i]);
    }
  }

  /**
   After a failure at t that leaves the breaker open, and until the next one: it is half-open once a
   call has come later than the timeout, closed once a success has followed such a call, and open before.
   */
  lemma {:induction false} RecoveryIff(cfg: Config, s: State, t: real, events: seq<Event>)
    requires s.phase == Open && s.lastFailure == Some(t) && forall k :: 0 <= k < |events| ==> !events[k].Failure?
    ensures var s' := After(cfg, s, events);
            && s'.lastFailure == Some(t)
            && s'.phase == if Recovered(cfg, t, events) then Closed else if Probed(cfg, t, events) then HalfOpen else Open
  {
    if events != [] {
      var n := |events| - 1;
      RecoveryIff(cfg, s, t, events[..n]);
      LastStep(cfg, s, events);
      assert events == events[..n] + [events[n]];
      OneMoreEvent(cfg, t, events[..n], events[n]);
      hide After, Wrap, Probed, Recovered;
    }
  }

  /** The breaker is tripped exactly when the streak has reached the trigger, even after the counter has wrapped. */
  lemma {:induction false} TrippedIff(cfg: Config, events: seq<Event>)
    ensures Tripped(cfg, events) <==> Streak(events) >= Trigger(cfg)
  {
    if events != [] {
      var n := |events| - 1;
      TrippedIff(cfg, events[..n]);
      HistoryInvariant(cfg, events[..n]);
      var streak := Streak(events[..n]);
      WrapNext(streak);
      WrapAtMost(streak + 1);
      if streak + 1 < TWO64 {
        WrapSmall(streak + 1);
      }
      hide After, Wrap;
    }
  }

  /**
   A failure of a half-open breaker opens it again exactly when the new count reaches the threshold. So
   until the count wraps at 2^64 it does exactly when the streak does, and always unless a success was
   reported since the last opening.
   */
  lemma ReopensIff(cfg: Config, events: seq<Event>, now: real)
    requires After(cfg, NEW, events).phase == HalfOpen
    ensures var s', streak := Step(cfg, After(cfg, NEW, events), Failure(now)), Streak(events) + 1;
            && (s'.phase == Open <==> Wrap(streak) >= cfg.threshold)
            && (s'.phase != Open ==> s'.phase == HalfOpen)
            && (streak < TWO64 ==> (s'.phase == Open <==> streak >= cfg.threshold) && (Tripped(cfg, events) ==> s'.phase == Open))
  {
    HistoryInvariant(cfg, events);
    TrippedIff(cfg, events);
    WrapNext(Streak(events));
    if Streak(events) + 1 < TWO64 {
      WrapSmall(Streak(events) + 1);
    }
    hide After, Wrap, Tripped, Streak;
  }

  lemma AfterAppend(cfg: Config, s: State, events: seq<Event>, e: Event)
    ensures After(cfg, s, events + [e]) == Step(cfg, After(cfg, s, events), e)
  {
    assert (events + [e])[..|events|] == events;
  }

  /**
   A failure opens the breaker exactly when the count has then reached the threshold, and otherwise leaves it as it was;
   a closed one is opened exactly when the streak has then reached max(1, threshold).
   */
  lemma FailurePhase(cfg: Config, events: seq<Event>, now: real)
    ensures var phase, phase' := After(cfg, NEW, events).phase, After(cfg, NEW, events + [Failure(now)]).phase;
            && phase' == (if Wrap(Streak(events) + 1) >= cfg.threshold then Open else phase)
            && (phase == Closed ==> phase' == if Streak(events) + 1 >= Trigger(cfg) then Open else Closed)
  {
    HistoryInvariant(cfg, events);
    AfterAppend(cfg, NEW, events, Failure(now));
    WrapNext(Streak(events));
    if Streak(events) + 1 < TWO64 {
      WrapSmall(Streak(events) + 1);
    }
    hide After, Wrap, Streak;
  }

  /** A success closes a half-open breaker and leaves an open one open; a call half-opens an open one after the timeout. */
  lemma OtherPhases(cfg: Config, events: seq<Event>, now: real)
    ensures var phase, last := After(cfg, NEW, events).phase, LatestFailure(events);
            && After(cfg, NEW, events + [Success]).phase == (if phase == Open then Open else Closed)
            && After(cfg, NEW, events + [Allow(now)]).phase ==
               if phase == Open && last.Some? && now - last.value > cfg.timeout then HalfOpen else phase
  {
    HistoryInvariant(cfg, events);
    AfterAppend(cfg, NEW, events, Success);
    AfterAppend(cfg, NEW, events, Allow(now));
    hide After, Wrap, Streak;
  }

  function Failures(n: nat): seq<Event> {
    seq(n, _ => Failure(0.0))
  }

  lemma {:induction false} OnlyFailures(cfg: Config, n: nat)
    requires 1 <= cfg.threshold && n <= cfg.threshold
    ensures var s := After(cfg, NEW, Failures(n));
            s == State(n, 0, if n >= cfg.threshold then Open else Closed, if n == 0 then None else Some(0.0))
  {
    if n > 0 {
      OnlyFailures(cfg, n - 1);
      assert Failures(n)[..n - 1] == Failures(n - 1);
      LastStep(cfg, NEW, Failures(n));
      WrapSmall(n);
      hide After, Wrap;
    }
  }

  /** With a threshold above one, a success reported while open lets a half-open breaker survive a failed call. */
  lemma FailedProbeStaysHalfOpen(cfg: Config) returns (events: seq<Event>)
    requires cfg.threshold >= 2
    ensures events != [] && events[|events| - 1].Failure? && After(cfg, NEW, events[..|events| - 1]).phase == HalfOpen
    ensures After(cfg, NEW, events).phase == HalfOpen && Streak(events[..|events| - 1]) == 0
  {
    hide After, Wrap;
    var later := cfg.timeout + 1.0;
    var trips := Failures(cfg.threshold);
    OnlyFailures(cfg, cfg.threshold);
    AfterAppend(cfg, NEW, trips, Success);
    AfterAppend(cfg, NEW, trips + [Success], Allow(later));
    AfterAppend(cfg, NEW, trips + [Success] + [Allow(later)], Failure(later));
    WrapSmall(1);
    events := trips + [Success] + [Allow(later)] + [Failure(later)];
    assert events[..|events| - 1] == trips + [Success] + [Allow(later)];
    assert (trips + [Success] + [Allow(later)])[..|trips| + 1] == trips + [Success];
    assert Streak(trips + [Success]) == 0;
  }

  /** Short of a count that wraps, every failure of a half-open breaker opens it again. */
  ghost predicate FailedProbesReopen(cfg: Config) {
    forall events: seq<Event>, now: real ::
      After(cfg, NEW, events).phase == HalfOpen && Streak(events) + 1 < TWO64 ==>
        Step(cfg, After(cfg, NEW, events), Failure(now)).phase == Open
  }

  /** A half-open breaker can be relied on to open again exactly when the threshold is at most one. */
  lemma FailedProbesReopenIff(cfg: Config)
    ensures FailedProbesReopen(cfg) <==> cfg.threshold <= 1
  {
    hide After, Step, Streak;
    if cfg.threshold <= 1 {
      forall events: seq<Event>, now: real | After(cfg, NEW, events).phase == HalfOpen && Streak(events) + 1 < TWO64
        ensures Step(cfg, After(cfg, NEW, events), Failure(now)).phase == Open
      {
        ReopensIff(cfg, events, now);
      }
    } else {
      var events := FailedProbeStaysHalfOpen(cfg);
      var n := |events| - 1;
      LastStep(cfg, NEW, events);
      assert Step(cfg, After(cfg, NEW, events[..n]), Failure(events[n].now)).phase != Open;
    }
  }
}
