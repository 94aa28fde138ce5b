/**
 The signal channel of the frame batcher over whole runs. It holds at most one signal, so every signal
 sent is received, still there, or was dropped because one was there already.
 */
module BatchSignals {
  import opened FrameBatching
  import opened Wrappers

  /** A goroutine does its send of the signal in this step. */
  predicate Sends<T>(s: State<T>, step: Step<T>) {
    step.Go? && step.t < |s.threads| && s.threads[step.t].Signalling?
  }

  function One(b: bool): nat { if b then 1 else 0 }

  /** How often a run receives the signal. */
  function Receives<T>(steps: seq<Step<T>>): nat {
    if steps == [] then 0 else One(steps[0].Receive?) + Receives(steps[1..])
  }

  /** How often a run sends it, and how often it does so with one already in the channel. */
  ghost function Sent<T>(cfg: Config, s: State<T>, steps: seq<Step<T>>): nat
    requires |s.threads| > 0 && Run(cfg, s, steps).Some?
    decreases |steps|
  {
    if steps == [] then 0
    else
      OneMoves(cfg, s, steps[0]);
      One(Sends(s, steps[0])) + Sent(cfg, Do(cfg, s, steps[0]).value, steps[1..])
  }

  ghost function Dropped<T>(cfg: Config, s: State<T>, steps: seq<Step<T>>): nat
    requires |s.threads| > 0 && Run(cfg, s, steps).Some?
    decreases |steps|
  {
    if steps == [] then 0
    else
      OneMoves(cfg, s, steps[0]);
      One(Sends(s, steps[0]) && s.signal) + Dropped(cfg, Do(cfg, s, steps[0]).value, steps[1..])
  }

  lemma OneSignalStep<T>(cfg: Config, s: State<T>, step: Step<T>)
    requires |s.threads| > 0 && Do(cfg, s, step).Some?
    ensures var s' := Do(cfg, s, step).value;
            One(step.Receive?) + One(s'.signal) + One(Sends(s, step) && s.signal) == One(Sends(s, step)) + One(s.signal)
  {
  }

  /** Sent signals are received, in the channel, or were dropped. */
  lemma {:induction false} SignalsConserved<T>(cfg: Config, s: State<T>, steps: seq<Step<T>>)
    requires |s.threads| > 0 && Run(cfg, s, steps).Some?
    ensures Receives(steps) + One(Run(cfg, s, steps).value.signal) + Dropped(cfg, s, steps) == Sent(cfg, s, steps) + One(s.signal)
    decreases |steps|
  {
    hide Do, Sends;
    if steps != [] {
      OneMoves(cfg, s, steps[0]);
      OneSignalStep(cfg, s, steps[0]);
      SignalsConserved(cfg, Do(cfg, s, steps[0]).value, steps[1..]);
    }
  }

  /** A goroutine has appended its frame and not yet dealt with the signal. */
  predicate Pending<T>(pc: Pc<T>) { pc.Appended? || pc.Signalling? }

  /** At most one goroutine is there, since it holds the mutex. */
  ghost predicate Deciding<T>(s: State<T>) {
    exists t: nat :: t < |s.threads| && Pending(s.threads[t])
  }

  lemma OneAddStep<T>(cfg: Config, s: State<T>, step: Step<T>)
    requires |s.threads| > 0 && Exclusive(s) && Do(cfg, s, step).Some?
    ensures var s' := Do(cfg, s, step).value;
            |s.added| + One(Sends(s, step)) + One(Deciding(s')) <= |s'.added| + One(Deciding(s))
  {
    OneMoves(cfg, s, step);
    var s', t := Do(cfg, s, step).value, Mover(step);
    assert Pending(s'.threads[t]) ==> Pending(s.threads[t]) || |s'.added| == |s.added| + 1;
    assert Sends(s, step) ==> Pending(s.threads[t]) && !Pending(s'.threads[t]);
    assert |s'.added| >= |s.added|;
    hide Do;
    if Deciding(s') {
      var u: nat :| u < |s'.threads| && Pending(s'.threads[u]);
      if u != t {
        assert Pending(s.threads[u]);
        assert Sends(s, step) ==> s.lock == Some(t) && s.lock == Some(u);
      }
    }
  }

  lemma {:induction false} SendsPerAdd<T>(cfg: Config, s: State<T>, steps: seq<Step<T>>)
    requires Inv(cfg, s) && Run(cfg, s, steps).Some?
    ensures var s' := Run(cfg, s, steps).value;
            |s.threads| > 0 && |s.added| + Sent(cfg, s, steps) + One(Deciding(s')) <= |s'.added| + One(Deciding(s))
    decreases |steps|
  {
    if steps != [] {
      OneMoves(cfg, s, steps[0]);
      OneAddStep(cfg, s, steps[0]);
      EveryRun(cfg, s, [steps[0]]);
      assert [steps[0]][1..] == [];
      assert Run(cfg, s, [steps[0]]) == Do(cfg, s, steps[0]);
      hide Do, Inv, Deciding, Sends;
      SendsPerAdd(cfg, Do(cfg, s, steps[0]).value, steps[1..]);
    }
  }

  /**
   In every run the loop is woken at most once for each Add: what it has received and what is in the channel
   was sent, and an Add sends at most once.
   */
  lemma WakeupsBounded<T>(cfg: Config, n: nat, steps: seq<Step<T>>, s: State<T>)
    requires Reached(cfg, n, steps, s)
    ensures Run(cfg, Start<T>(n), steps).Some?
    ensures Receives(steps) + One(s.signal) + Dropped(cfg, Start<T>(n), steps) == Sent(cfg, Start<T>(n), steps) <= |s.added|
  {
    StartsWell<T>(cfg, n);
    SignalsConserved(cfg, Start<T>(n), steps);
    SendsPerAdd(cfg, Start<T>(n), steps);
    hide Run, Sent, Dropped, Inv;
    assert !Deciding(Start<T>(n));
  }
}
