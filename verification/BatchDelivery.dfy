/**
 What the interleavings of the frame batcher mean for delivery: the signal alone suffices for a
 full buffer to be flushed, the loop alone delivers frames in the order they were added, and
 concurrent Flush calls can deliver batches out of order.
 */
module BatchDelivery {
  import opened FrameBatching
  import opened Sequences
  import opened Wrappers

  // ---------------------------------------------------------------- building runs

  lemma {:induction false} Extend<T>(cfg: Config, s: State<T>, steps: seq<Step<T>>, mid: State<T>, step: Step<T>)
    requires |s.threads| > 0 && Run(cfg, s, steps) == Some(mid) && |mid.threads| > 0 && Do(cfg, mid, step).Some?
    ensures Run(cfg, s, steps + [step]) == Do(cfg, mid, step)
    decreases |steps|
  {
    hide Do;
    if steps == [] {
      OneMoves(cfg, s, step);
      assert (steps + [step])[1..] == [];
    } else {
      OneMoves(cfg, s, steps[0]);
      assert (steps + [step])[0] == steps[0] && (steps + [step])[1..] == steps[1..] + [step];
      Extend(cfg, Do(cfg, s, steps[0]).value, steps[1..], mid, step);
    }
  }

  /** A step of goroutine t that is certain to succeed, taken at the end of a run. */
  lemma Advance<T>(cfg: Config, s: State<T>, steps: seq<Step<T>>, mid: State<T>, t: nat, pc: Pc<T>) returns (more: seq<Step<T>>, next: State<T>)
    requires |s.threads| > 0 && Run(cfg, s, steps) == Some(mid) && t < |mid.threads| && mid.threads[t] == pc
    requires !pc.Idle? && (pc.AddEntering? || pc.FlushEntering? ==> mid.lock.None?)
    ensures more == steps + [Go(t)] && Continue(cfg, mid, t) == Some(next) && Run(cfg, s, more) == Some(next)
  {
    more := steps + [Go(t)];
    next := Continue(cfg, mid, t).value;
    Extend(cfg, s, steps, mid, Go(t));
  }

  /** Only steps of goroutine t itself. */
  predicate Alone<T>(t: nat, steps: seq<Step<T>>) {
    forall k :: 0 <= k < |steps| ==> steps[k] == Go(t)
  }

  /** A goroutine about to flush gets through without anybody else, up to the delivery. */
  lemma FlushesAlone<T>(cfg: Config, s: State<T>, t: nat) returns (steps: seq<Step<T>>)
    requires t < |s.threads| && s.threads[t].FlushEntering? && s.lock.None? && s.pending != []
    ensures Alone(t, steps)
    ensures Run(cfg, s, steps) == Some(s.At(t, Delivering(s.pending)).(pending := [], cuts := s.cuts + [s.pending]))
  {
    hide Run;
    assert Run(cfg, s, []) == Some(s) by { NoSteps(cfg, s); }
    var p := s.pending;
    var a, s1 := Advance(cfg, s, [], s, t, s.threads[t]);
    var b, s2 := Advance(cfg, s, a, s1, t, Checking);
    var c, s3 := Advance(cfg, s, b, s2, t, Copying);
    var d, s4 := Advance(cfg, s, c, s3, t, Truncating(p));
    var e, s5 := Advance(cfg, s, d, s4, t, FlushLeaving(Some(p)));
    assert s5.threads == s.threads[t := Delivering(p)];
    steps := e;
  }

  lemma NoSteps<T>(cfg: Config, s: State<T>)
    requires |s.threads| > 0
    ensures Run(cfg, s, []) == Some(s)
  {
  }

  // ---------------------------------------------------------------- the signal suffices

  /** Only steps of the flush loop, without its ticker. */
  predicate ByLoop<T>(steps: seq<Step<T>>) {
    forall k :: 0 <= k < |steps| ==> steps[k].Receive? || steps[k] == Go(0)
  }

  lemma {:induction false} RunConcat<T>(cfg: Config, s: State<T>, xs: seq<Step<T>>, mid: State<T>, ys: seq<Step<T>>)
    requires |s.threads| > 0 && Run(cfg, s, xs) == Some(mid) && |mid.threads| > 0
    ensures Run(cfg, s, xs + ys) == Run(cfg, mid, ys)
    decreases |xs|
  {
    hide Do;
    if xs == [] {
      assert xs + ys == ys;
    } else {
      OneMoves(cfg, s, xs[0]);
      assert (xs + ys)[0] == xs[0] && (xs + ys)[1..] == xs[1..] + ys;
      RunConcat(cfg, Do(cfg, s, xs[0]).value, xs[1..], mid, ys);
    }
  }

  /** Gets the loop to the point where it asks for the mutex. */
  lemma LoopWakes<T>(cfg: Config, s: State<T>) returns (steps: seq<Step<T>>, woken: State<T>)
    requires Inv(cfg, s) && s.lock.None? && (s.signal || Woken(s))
    ensures ByLoop(steps) && Run(cfg, s, steps) == Some(woken)
    ensures |woken.threads| == |s.threads| && woken.threads[0].FlushEntering? && woken.threads[1..] == s.threads[1..]
    ensures woken.lock.None? && woken.pending == s.pending && woken.cuts == s.cuts && woken.added == s.added
  {
    hide Run, InFlight, Flatten;
    NoSteps(cfg, s);
    steps, woken := [], s;
    assert !s.threads[0].Inside();
    if woken.threads[0].Delivering? {
      steps, woken := Advance(cfg, s, steps, woken, 0, woken.threads[0]);
    }
    if woken.threads[0].Idle? {
      Extend(cfg, s, steps, woken, Receive);
      steps, woken := steps + [Receive], Do(cfg, woken, Receive).value;
    }
  }

  /**
   From every state with a free mutex and maxFrames frames pending, the loop alone, without its
   ticker, can cut exactly those frames and deliver them.
   */
  lemma SignalSuffices<T>(cfg: Config, n: nat, before: seq<Step<T>>, s: State<T>) returns (steps: seq<Step<T>>, s': State<T>)
    requires Reached(cfg, n, before, s) && s.lock.None? && |s.pending| >= cfg.maxFrames && s.pending != []
    ensures |s.threads| > 0 && ByLoop(steps) && Run(cfg, s, steps) == Some(s')
    ensures s'.threads == s.threads[0 := Idle] && s'.lock.None? && s'.pending == [] && s'.cuts == s.cuts + [s.pending]
    ensures cfg.callback ==> s'.delivered != [] && s'.delivered[|s'.delivered| - 1] == s.pending
  {
    NoLostWakeup(cfg, n, before, s);
    StartsWell<T>(cfg, n);
    EveryRun(cfg, Start(n), before);
    hide Run, Inv;
    assert |s.threads| > 0 by { SomeThread(cfg, s); }
    var wake, woken := LoopWakes(cfg, s);
    var flush := FlushesAlone(cfg, woken, 0);
    RunConcat(cfg, s, wake, woken, flush);
    var mid := woken.At(0, Delivering(woken.pending)).(pending := [], cuts := woken.cuts + [woken.pending]);
    steps, s' := Advance(cfg, s, wake + flush, mid, 0, Delivering(woken.pending));
    assert s'.threads == s.threads[0 := Idle];
  }

  lemma SomeThread<T>(cfg: Config, s: State<T>)
    requires Inv(cfg, s)
    ensures |s.threads| > 0
  {
  }

  /**
   Nobody is ever stuck: in every reachable state some goroutine inside the batcher can take its next step unless
   all are idle, and an idle loop can always take a tick, and the signal if there is one.
   */
  lemma NoDeadlock<T>(cfg: Config, n: nat, before: seq<Step<T>>, s: State<T>)
    requires Reached(cfg, n, before, s)
    ensures |s.threads| > 0
    ensures (exists t: nat :: t < |s.threads| && !s.threads[t].Idle?) ==> exists t: nat :: Do(cfg, s, Go(t)).Some?
    ensures s.threads[0].Idle? ==> Do(cfg, s, Tick).Some? && (Do(cfg, s, Receive).Some? <==> s.signal)
    ensures forall t: nat, x: T :: 0 < t < |s.threads| && s.threads[t].Idle? ==> Do(cfg, s, CallAdd(t, x)).Some? && Do(cfg, s, CallFlush(t)).Some?
  {
    StartsWell<T>(cfg, n);
    EveryRun(cfg, Start(n), before);
    hide Run, Conserved, HandedOutOnce, NonemptyCuts, Attended, CopiesCurrent;
    if t: nat :| t < |s.threads| && !s.threads[t].Idle? {
      var mover := if s.lock.Some? then s.lock.value else t;
      if s.lock.Some? {
        HolderInside(cfg, n, before, s);
      }
      assert mover < |s.threads| && !s.threads[mover].Idle?;
      assert Do(cfg, s, Go(mover)).Some?;
    }
  }

  /** The mutex is held by somebody. */
  lemma {:induction false} HolderExists<T>(cfg: Config, s: State<T>, steps: seq<Step<T>>)
    requires |s.threads| > 0 && (s.lock.Some? ==> s.lock.value < |s.threads|) && Run(cfg, s, steps).Some?
    ensures var s' := Run(cfg, s, steps).value; s'.lock.Some? ==> s'.lock.value < |s'.threads|
    decreases |steps|
  {
    if steps != [] {
      OneMoves(cfg, s, steps[0]);
      var next := Do(cfg, s, steps[0]).value;
      assert next.lock.Some? ==> next.lock.value < |next.threads|;
      hide Do;
      HolderExists(cfg, next, steps[1..]);
    }
  }

  lemma HolderInside<T>(cfg: Config, n: nat, before: seq<Step<T>>, s: State<T>)
    requires Reached(cfg, n, before, s) && s.lock.Some? && Exclusive(s)
    ensures s.lock.value < |s.threads| && s.threads[s.lock.value].Inside()
  {
    HolderExists(cfg, Start<T>(n), before);
    hide Run;
  }

  // ---------------------------------------------------------------- the loop alone keeps the order

  predicate NoFlushCalls<T>(steps: seq<Step<T>>) {
    forall k :: 0 <= k < |steps| ==> !steps[k].CallFlush?
  }

  /** Only the loop is inside flush, and what it holds is the only batch not delivered yet. */
  ghost predicate InOrder<T>(s: State<T>) {
    && |s.threads| > 0
    && (forall t: nat :: 0 < t < |s.threads| ==> !s.threads[t].InFlush())
    && s.delivered + s.threads[0].Held() == s.cuts
  }

  lemma KeepsOrder<T>(cfg: Config, s: State<T>, step: Step<T>)
    requires cfg.callback && InOrder(s) && !step.CallFlush? && Do(cfg, s, step).Some?
    ensures InOrder(Do(cfg, s, step).value)
  {
    OneMoves(cfg, s, step);
    LocalHandedOut(cfg, s, step);
    var s', t := Do(cfg, s, step).value, Mover(step);
    assert t > 0 ==> !s'.threads[t].InFlush();
    hide Do, Mover;
    assert forall u: nat :: 0 < u < |s'.threads| && u != t ==> s'.threads[u] == s.threads[u];
  }

  lemma {:induction false} OrderOfRun<T>(cfg: Config, s: State<T>, steps: seq<Step<T>>)
    requires cfg.callback && InOrder(s) && NoFlushCalls(steps) && Run(cfg, s, steps).Some?
    ensures InOrder(Run(cfg, s, steps).value)
    decreases |steps|
  {
    hide Do, InOrder;
    if steps != [] {
      assert |s.threads| > 0 by { InOrderThreads(s); }
      KeepsOrder(cfg, s, steps[0]);
      OneMoves(cfg, s, steps[0]);
      OrderOfRun(cfg, Do(cfg, s, steps[0]).value, steps[1..]);
    }
  }

  lemma InOrderThreads<T>(s: State<T>)
    requires InOrder(s)
    ensures |s.threads| > 0
  {
  }

  /**
   When nobody calls Flush, the callback gets the frames in exactly the order of the Add calls: what
   it has received, what the loop is about to hand over and what is pending make up the Add sequence.
   */
  lemma DeliveredInOrder<T>(cfg: Config, n: nat, steps: seq<Step<T>>, s: State<T>)
    requires cfg.callback && NoFlushCalls(steps) && Reached(cfg, n, steps, s)
    ensures |s.threads| > 0 && Flatten(s.delivered) + Flatten(s.threads[0].Held()) + s.pending == s.added
  {
    Conservation(cfg, n, steps, s);
    assert InOrder(Start<T>(n));
    OrderOfRun(cfg, Start(n), steps);
    FlattenConcat(s.delivered, s.threads[0].Held());
  }

  // ---------------------------------------------------------------- concurrent flushes do not

  /** Goroutine t adds a frame without anybody else taking a step. */
  lemma AddsAlone<T>(cfg: Config, s: State<T>, t: nat, frame: T) returns (steps: seq<Step<T>>)
    requires 0 < t < |s.threads| && s.threads[t].Idle? && s.lock.None?
    ensures var sent := |s.pending| + 1 >= cfg.maxFrames;
            Run(cfg, s, steps) == Some(s.(pending := s.pending + [frame], added := s.added + [frame], signal := s.signal || sent))
  {
    hide Run;
    NoSteps(cfg, s);
    Extend(cfg, s, [], s, CallAdd(t, frame));
    var a, s1 := [] + [CallAdd(t, frame)], s.At(t, AddEntering(frame));
    var b, s2 := Advance(cfg, s, a, s1, t, AddEntering(frame));
    var c, s3 := Advance(cfg, s, b, s2, t, Appending(frame));
    steps, s3 := Advance(cfg, s, c, s3, t, Appended);
    if s3.threads[t].Signalling? {
      steps, s3 := Advance(cfg, s, steps, s3, t, Signalling);
    }
    steps, s3 := Advance(cfg, s, steps, s3, t, AddLeaving);
    assert s3.threads == s.threads;
  }

  /**
   For every threshold and any number of callers, two batches can reach the callback in the opposite
   order of their cutting: the loop is held up in its delivery of the first while a Flush call cuts and
   delivers the second.
   */
  lemma DeliveryCanOvertake<T>(cfg: Config, n: nat, x: T, y: T) returns (steps: seq<Step<T>>, s: State<T>)
    requires cfg.callback && n >= 1
    ensures Reached(cfg, n, steps, s) && s.cuts == [[x], [y]] && s.delivered == [[y], [x]]
    ensures s.pending == [] && s.threads == Start<T>(n).threads
  {
    hide Run;
    var start := Start<T>(n);
    steps := AddsAlone(cfg, start, 1, x);
    s := start.(pending := start.pending + [x], added := start.added + [x], signal := 1 >= cfg.maxFrames);
    assert s.pending == [x];
    Extend(cfg, start, steps, s, Tick);
    steps, s := steps + [Tick], s.At(0, FlushEntering(false));
    var cut := FlushesAlone(cfg, s, 0);
    RunConcat(cfg, start, steps, s, cut);
    steps, s := steps + cut, s.At(0, Delivering([x])).(pending := [], cuts := s.cuts + [[x]]);
    var add := AddsAlone(cfg, s, 1, y);
    RunConcat(cfg, start, steps, s, add);
    steps, s := steps + add, s.(pending := s.pending + [y], added := s.added + [y]);
    assert s.pending == [y];
    Extend(cfg, start, steps, s, CallFlush(1));
    steps, s := steps + [CallFlush(1)], s.At(1, FlushEntering(false));
    cut := FlushesAlone(cfg, s, 1);
    RunConcat(cfg, start, steps, s, cut);
    steps, s := steps + cut, s.At(1, Delivering([y])).(pending := [], cuts := s.cuts + [[y]]);
    steps, s := Advance(cfg, start, steps, s, 1, Delivering([y]));
    steps, s := Advance(cfg, start, steps, s, 0, Delivering([x]));
    assert s.threads == start.threads;
  }

  // ---------------------------------------------------------------- exactly when the order is kept

  /** What was delivered is a first part of what was cut. */
  ghost predicate Prompt<T>(s: State<T>) {
    s.delivered <= s.cuts
  }

  /** In every state that n callers and the loop can reach, without Flush calls unless they are allowed. */
  ghost predicate AlwaysPrompt<T(!new)>(cfg: Config, n: nat, flushCalls: bool) {
    forall steps: seq<Step<T>>, s: State<T> ::
      Reached(cfg, n, steps, s) && (flushCalls || NoFlushCalls(steps)) ==> Prompt(s)
  }

  /** Without callers there is nobody to call Flush. */
  lemma {:induction false} NobodyFlushes<T>(cfg: Config, s: State<T>, steps: seq<Step<T>>)
    requires |s.threads| == 1 && Run(cfg, s, steps).Some?
    ensures NoFlushCalls(steps)
    decreases |steps|
  {
    if steps != [] {
      assert !steps[0].CallFlush?;
      OneMoves(cfg, s, steps[0]);
      hide Do;
      NobodyFlushes(cfg, Do(cfg, s, steps[0]).value, steps[1..]);
      assert forall k :: 0 < k < |steps| ==> steps[k] == steps[1..][k - 1];
    }
  }

  lemma PromptWithout<T>(cfg: Config, n: nat, steps: seq<Step<T>>, s: State<T>)
    requires Reached(cfg, n, steps, s) && (NoFlushCalls(steps) || n == 0 || !cfg.callback)
    ensures Prompt(s)
  {
    if cfg.callback {
      if n == 0 {
        NobodyFlushes(cfg, Start<T>(n), steps);
      }
      assert InOrder(Start<T>(n));
      hide Run;
      OrderOfRun(cfg, Start(n), steps);
      assert s.cuts[..|s.delivered|] == s.delivered;
    } else {
      StartsWell<T>(cfg, n);
      EveryRun(cfg, Start(n), steps);
      hide Run, Exclusive, CopiesCurrent, Attended, Conserved;
    }
  }

  /**
   Batches are delivered in the order of their cutting, in every run of every batcher, exactly when no
   Flush calls are made, or there is nobody to make them, or no callback to notice.
   */
  lemma OrderIff<T(!new)>(cfg: Config, n: nat, flushCalls: bool, x: T, y: T)
    requires x != y
    ensures AlwaysPrompt<T>(cfg, n, flushCalls) <==> !flushCalls || n == 0 || !cfg.callback
  {
    hide Run, NoFlushCalls;
    if !flushCalls || n == 0 || !cfg.callback {
      forall steps: seq<Step<T>>, s: State<T> | Reached(cfg, n, steps, s) && (flushCalls || NoFlushCalls(steps))
        ensures Prompt(s)
      {
        PromptWithout(cfg, n, steps, s);
      }
    } else {
      var steps, s := DeliveryCanOvertake(cfg, n, x, y);
      assert s.delivered[0] == [y] && s.cuts[0] == [x] && [x][0] != [y][0];
      assert !Prompt(s);
    }
  }
}
