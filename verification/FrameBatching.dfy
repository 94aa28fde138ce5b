/**
 The frame batcher as interleaved steps of any number of goroutines. Goroutine 0 is the flush
 loop; the others call Add and Flush. A step takes or leaves the mutex, or does one thing while
 holding it: append a frame, look at the length, send the signal, copy the frames, truncate.
 Batches are delivered outside the mutex.
 */
module FrameBatching {
  import opened Sequences
  import opened Wrappers

  /** The threshold, and whether there is a callback to deliver batches to. */
  datatype Config = Config(maxFrames: int, callback: bool)

  /** Where a goroutine is; Idle is the flush loop waiting in its select, or another one between calls. */
  datatype Pc<T> =
    | Idle
    | AddEntering(frame: T)
    | Appending(frame: T)
    | Appended
    | Signalling
    | AddLeaving
    | FlushEntering(woken: bool)
    | Checking
    | Copying
    | Truncating(copy: seq<T>)
    | FlushLeaving(cut: Option<seq<T>>)
    | Delivering(batch: seq<T>)
  {
    /** Holds the mutex. */
    predicate Inside() {
      Appending? || Appended? || Signalling? || AddLeaving? || Checking? || Copying? || Truncating? || FlushLeaving?
    }

    /** Inside Add. */
    predicate InAdd() {
      AddEntering? || Appending? || Appended? || Signalling? || AddLeaving?
    }

    /** Inside flush, from the request for the mutex to the end of the delivery. */
    predicate InFlush() {
      FlushEntering? || Checking? || Copying? || Truncating? || FlushLeaving? || Delivering?
    }

    /** Holds the mutex and is about to see to the pending frames. */
    predicate Attending() {
      Appended? || Signalling? || Checking? || Copying? || Truncating?
    }

    /** The batch that was cut and is not delivered yet. */
    function Held(): seq<seq<T>> {
      match this
      case FlushLeaving(Some(b)) => [b]
      case Delivering(b) => [b]
      case _ => []
    }
  }

  /** added, cuts and delivered record what has happened so far, in order. */
  datatype State<T> = State(
    threads: seq<Pc<T>>,
    lock: Option<nat>,
    pending: seq<T>,
    signal: bool,
    added: seq<T>,
    cuts: seq<seq<T>>,
    delivered: seq<seq<T>>)
  {
    function At(t: nat, pc: Pc<T>): State<T>
      requires t < |threads|
    {
      this.(threads := threads[t := pc])
    }
  }

  /** Tick and Receive are the two ways out of the loop's select; Go lets a goroutine take its next step. */
  datatype Step<T> = Tick | Receive | CallAdd(t: nat, frame: T) | CallFlush(t: nat) | Go(t: nat)

  function Start<T>(n: nat): State<T> {
    State(seq(n + 1, _ => Idle), None, [], false, [], [], [])
  }

  /** The state after a step, or None if the step cannot be taken now. */
  function Do<T>(cfg: Config, s: State<T>, step: Step<T>): Option<State<T>>
    requires |s.threads| > 0
  {
    match step
    case Tick =>
      if s.threads[0].Idle? then Some(s.At(0, FlushEntering(false))) else None
    case Receive =>
      if s.threads[0].Idle? && s.signal then Some(s.At(0, FlushEntering(true)).(signal := false)) else None
    case CallAdd(t, frame) =>
      if 0 < t < |s.threads| && s.threads[t].Idle? then Some(s.At(t, AddEntering(frame))) else None
    case CallFlush(t) =>
      if 0 < t < |s.threads| && s.threads[t].Idle? then Some(s.At(t, FlushEntering(false))) else None
    case Go(t) =>
      if t < |s.threads| then Continue(cfg, s, t) else None
  }

  function Continue<T>(cfg: Config, s: State<T>, t: nat): Option<State<T>>
    requires t < |s.threads|
  {
    match s.threads[t]
    case Idle => None
    case AddEntering(frame) => if s.lock.None? then Some(s.At(t, Appending(frame)).(lock := Some(t))) else None
    case Appending(frame) => Some(s.At(t, Appended).(pending := s.pending + [frame], added := s.added + [frame]))
    case Appended => Some(s.At(t, if |s.pending| >= cfg.maxFrames then Signalling else AddLeaving))
    case Signalling => Some(s.At(t, AddLeaving).(signal := true))
    case AddLeaving => Some(s.At(t, Idle).(lock := None))
    case FlushEntering(_) => if s.lock.None? then Some(s.At(t, Checking).(lock := Some(t))) else None
    case Checking => Some(s.At(t, if |s.pending| == 0 then FlushLeaving(None) else Copying))
    case Copying => Some(s.At(t, Truncating(s.pending)))
    case Truncating(copy) => Some(s.At(t, FlushLeaving(Some(copy))).(pending := [], cuts := s.cuts + [copy]))
    case FlushLeaving(None) => Some(s.At(t, Idle).(lock := None))
    case FlushLeaving(Some(b)) => Some(s.At(t, Delivering(b)).(lock := None))
    case Delivering(b) => Some(s.At(t, Idle).(delivered := if cfg.callback then s.delivered + [b] else s.delivered))
  }

  /** The goroutine that takes a step. */
  function Mover<T>(step: Step<T>): nat {
    match step
    case Tick => 0
    case Receive => 0
    case CallAdd(t, _) => t
    case CallFlush(t) => t
    case Go(t) => t
  }

  /** Only the goroutine that takes a step moves. */
  lemma OneMoves<T>(cfg: Config, s: State<T>, step: Step<T>)
    requires |s.threads| > 0 && Do(cfg, s, step).Some?
    ensures var s', t := Do(cfg, s, step).value, Mover(step);
            && t < |s.threads| == |s'.threads| && s'.threads == s.threads[t := s'.threads[t]]
  {
  }

  /** The state after a run of steps. */
  function Run<T>(cfg: Config, s: State<T>, steps: seq<Step<T>>): Option<State<T>>
    requires |s.threads| > 0
    decreases |steps|
  {
    if steps == [] then Some(s)
    else
      match Do(cfg, s, steps[0])
      case None => None
      case Some(next) => OneMoves(cfg, s, steps[0]); Run(cfg, next, steps[1..])
  }

  // ---------------------------------------------------------------- what every step keeps

  /** The mutex is held by exactly the goroutine that is inside. */
  ghost predicate Exclusive<T>(s: State<T>) {
    forall t: nat :: t < |s.threads| ==> (s.threads[t].Inside() <==> s.lock == Some(t))
  }

  /** A copy is made of a nonempty buffer, and it is still what is pending. */
  ghost predicate CopyCurrent<T>(pc: Pc<T>, pending: seq<T>) {
    (pc.Copying? || pc.Truncating? ==> pending != []) && (pc.Truncating? ==> pc.copy == pending)
  }

  ghost predicate CopiesCurrent<T>(s: State<T>) {
    forall t: nat :: t < |s.threads| ==> CopyCurrent(s.threads[t], s.pending)
  }

  predicate Full<T>(cfg: Config, s: State<T>) {
    |s.pending| >= cfg.maxFrames && s.pending != []
  }

  /** The loop was woken by the signal and has not taken the mutex yet. */
  predicate Woken<T>(s: State<T>) {
    |s.threads| > 0 && s.threads[0] == FlushEntering(true)
  }

  /** Somebody will look after a full buffer. */
  ghost predicate Attended<T>(cfg: Config, s: State<T>) {
    Full(cfg, s) ==> s.signal || Woken(s) || exists t: nat :: t < |s.threads| && s.threads[t].Attending()
  }

  ghost predicate Conserved<T>(s: State<T>) {
    Flatten(s.cuts) + s.pending == s.added
  }

  /** The batches that were cut and are still on their way to the callback. */
  ghost function InFlight<T>(threads: seq<Pc<T>>): multiset<seq<T>> {
    if threads == [] then multiset{} else multiset(threads[0].Held()) + InFlight(threads[1..])
  }

  ghost predicate HandedOutOnce<T>(cfg: Config, s: State<T>) {
    if cfg.callback then multiset(s.cuts) == multiset(s.delivered) + InFlight(s.threads) else s.delivered == []
  }

  ghost predicate NonemptyCuts<T>(s: State<T>) {
    forall k :: 0 <= k < |s.cuts| ==> s.cuts[k] != []
  }

  ghost predicate Inv<T>(cfg: Config, s: State<T>) {
    && |s.threads| > 0 && !s.threads[0].InAdd()
    && Exclusive(s) && CopiesCurrent(s) && Attended(cfg, s)
    && Conserved(s) && HandedOutOnce(cfg, s) && NonemptyCuts(s)
  }

  lemma Unfold<T>(threads: seq<Pc<T>>)
    requires threads != []
    ensures InFlight(threads) == multiset(threads[0].Held()) + InFlight(threads[1..])
  {
  }

  /** One more piece on one side is one more on the other. */
  lemma Added<X>(a: multiset<X>, m: multiset<X>, m': multiset<X>, h: multiset<X>, h': multiset<X>)
    requires m' + h == m + h'
    ensures (a + m') + h == (a + m) + h'
  {
    forall x: X
      ensures ((a + m') + h)[x] == ((a + m) + h')[x]
    {
      assert (m' + h)[x] == (m + h')[x];
    }
  }

  lemma Exchanged<X>(h: multiset<X>, h': multiset<X>, rest: multiset<X>)
    ensures (h' + rest) + h == (h + rest) + h'
  {
    forall x: X
      ensures ((h' + rest) + h)[x] == ((h + rest) + h')[x]
    {
    }
  }

  lemma {:induction false} InFlightUpdate<T>(threads: seq<Pc<T>>, t: nat, pc: Pc<T>)
    requires t < |threads|
    ensures InFlight(threads[t := pc]) + multiset(threads[t].Held()) == InFlight(threads) + multiset(pc.Held())
  {
    var moved := threads[t := pc];
    if t > 0 {
      assert moved[1..] == threads[1..][t - 1 := pc];
      InFlightUpdate(threads[1..], t - 1, pc);
      hide InFlight;
      Unfold(moved);
      Unfold(threads);
      Added(multiset(threads[0].Held()), InFlight(threads[1..]), InFlight(moved[1..]),
            multiset(threads[t].Held()), multiset(pc.Held()));
    } else {
      assert moved[1..] == threads[1..];
      hide InFlight;
      Unfold(moved);
      Unfold(threads);
      Exchanged(multiset(threads[t].Held()), multiset(pc.Held()), InFlight(threads[1..]));
    }
  }

  lemma {:induction false} NothingInFlight<T>(threads: seq<Pc<T>>)
    requires forall t :: 0 <= t < |threads| ==> threads[t].Held() == []
    ensures InFlight(threads) == multiset{}
  {
    if threads != [] {
      assert threads[0].Held() == [];
      NothingInFlight(threads[1..]);
    }
  }

  lemma StartsWell<T>(cfg: Config, n: nat)
    ensures Inv(cfg, Start<T>(n))
  {
    NothingInFlight(Start<T>(n).threads);
  }

  /** What a step does to the mutex and the pending frames, seen from the goroutine that takes it. */
  lemma LocalMutex<T>(cfg: Config, s: State<T>, step: Step<T>)
    requires |s.threads| > 0 && Exclusive(s) && CopiesCurrent(s) && Do(cfg, s, step).Some?
    ensures var s', t := Do(cfg, s, step).value, Mover(step);
            && t < |s'.threads|
            && (s'.threads[t].Inside() <==> s'.lock == Some(t))
            && (s'.lock == s.lock || s.lock == Some(t) || s.lock.None?)
            && (s'.lock == s.lock || s'.lock == Some(t) || s'.lock.None?)
            && (s'.pending != s.pending ==> s.lock == Some(t))
            && CopyCurrent(s'.threads[t], s'.pending)
  {
    if step.Go? {
      LocalMutexGo(cfg, s, step.t);
    }
    hide Continue;
  }

  lemma LocalMutexGo<T>(cfg: Config, s: State<T>, t: nat)
    requires t < |s.threads| && Exclusive(s) && CopiesCurrent(s) && Continue(cfg, s, t).Some?
    ensures var s' := Continue(cfg, s, t).value;
            && t < |s'.threads|
            && (s'.threads[t].Inside() <==> s'.lock == Some(t))
            && (s'.lock == s.lock || s.lock == Some(t) || s.lock.None?)
            && (s'.lock == s.lock || s'.lock == Some(t) || s'.lock.None?)
            && (s'.pending != s.pending ==> s.lock == Some(t))
            && CopyCurrent(s'.threads[t], s'.pending)
  {
    assert CopyCurrent(s.threads[t], s.pending);
    assert s.threads[t].Inside() <==> s.lock == Some(t);
    hide Exclusive, CopiesCurrent;
  }

  lemma KeepsMutex<T>(cfg: Config, s: State<T>, step: Step<T>)
    requires |s.threads| > 0 && Exclusive(s) && CopiesCurrent(s) && Do(cfg, s, step).Some?
    ensures Exclusive(Do(cfg, s, step).value) && CopiesCurrent(Do(cfg, s, step).value)
  {
    hide Do, Mover;
    OneMoves(cfg, s, step);
    LocalMutex(cfg, s, step);
    var s', t := Do(cfg, s, step).value, Mover(step);
    forall u: nat | u < |s'.threads| && u != t
      ensures (s'.threads[u].Inside() <==> s'.lock == Some(u)) && CopyCurrent(s'.threads[u], s'.pending)
    {
      assert s'.threads[u] == s.threads[u];
      assert CopyCurrent(s.threads[u], s.pending);
    }
  }

  lemma KeepsAttended<T>(cfg: Config, s: State<T>, step: Step<T>)
    requires |s.threads| > 0 && Exclusive(s) && Attended(cfg, s) && Do(cfg, s, step).Some?
    ensures Attended(cfg, Do(cfg, s, step).value)
  {
    var t, s' := Mover(step), Do(cfg, s, step).value;
    if Full(cfg, s') && !s'.signal && !Woken(s') && !s'.threads[t].Attending() {
      assert Full(cfg, s);
      var u: nat :| u < |s.threads| && s.threads[u].Attending();
      assert u != t;
      assert s'.threads[u].Attending();
    }
  }

  lemma KeepsConserved<T>(cfg: Config, s: State<T>, step: Step<T>)
    requires |s.threads| > 0 && CopiesCurrent(s) && Conserved(s) && NonemptyCuts(s) && Do(cfg, s, step).Some?
    ensures Conserved(Do(cfg, s, step).value) && NonemptyCuts(Do(cfg, s, step).value)
  {
    hide Flatten, Mover;
    var t, s' := Mover(step), Do(cfg, s, step).value;
    LocalConserved(cfg, s, step);
    hide Do;
    if s'.cuts != s.cuts {
      FlattenAppend(s.cuts, s.pending);
    }
  }

  /** A step adds one frame, or cuts all that is pending, or does neither. */
  lemma LocalConserved<T>(cfg: Config, s: State<T>, step: Step<T>)
    requires |s.threads| > 0 && CopiesCurrent(s) && Do(cfg, s, step).Some?
    ensures var s' := Do(cfg, s, step).value;
            || (s'.cuts == s.cuts && s'.pending == s.pending && s'.added == s.added)
            || (s'.cuts == s.cuts && exists f :: s'.pending == s.pending + [f] && s'.added == s.added + [f])
            || (s'.cuts == s.cuts + [s.pending] && s.pending != [] && s'.pending == [] && s'.added == s.added)
  {
    assert Mover(step) < |s.threads| ==> CopyCurrent(s.threads[Mover(step)], s.pending);
  }

  /** A step takes a batch into the mover's hands, hands one on, or does neither. */
  lemma LocalHandedOut<T>(cfg: Config, s: State<T>, step: Step<T>)
    requires |s.threads| > 0 && Do(cfg, s, step).Some? && Mover(step) < |s.threads|
    requires |Do(cfg, s, step).value.threads| == |s.threads|
    ensures var s', t := Do(cfg, s, step).value, Mover(step);
            var h, h' := s.threads[t].Held(), s'.threads[t].Held();
            || (h' == h && s'.cuts == s.cuts && s'.delivered == s.delivered)
            || (h == [] && |h'| == 1 && s'.cuts == s.cuts + h' && s'.delivered == s.delivered)
            || (|h| == 1 && h' == [] && s'.cuts == s.cuts && s'.delivered == if cfg.callback then s.delivered + h else s.delivered)
  {
    if step.Go? {
      LocalHandedOutGo(cfg, s, step.t);
    }
    hide Continue;
  }

  lemma LocalHandedOutGo<T>(cfg: Config, s: State<T>, t: nat)
    requires t < |s.threads| && Continue(cfg, s, t).Some?
    ensures var s' := Continue(cfg, s, t).value;
            && t < |s'.threads|
            && var h, h' := s.threads[t].Held(), s'.threads[t].Held();
               || (h' == h && s'.cuts == s.cuts && s'.delivered == s.delivered)
               || (h == [] && |h'| == 1 && s'.cuts == s.cuts + h' && s'.delivered == s.delivered)
               || (|h| == 1 && h' == [] && s'.cuts == s.cuts && s'.delivered == if cfg.callback then s.delivered + h else s.delivered)
  {
  }

  lemma KeepsHandedOut<T>(cfg: Config, s: State<T>, step: Step<T>)
    requires |s.threads| > 0 && HandedOutOnce(cfg, s) && Do(cfg, s, step).Some?
    ensures HandedOutOnce(cfg, Do(cfg, s, step).value)
  {
    hide InFlight, Do, Mover;
    var t, s' := Mover(step), Do(cfg, s, step).value;
    OneMoves(cfg, s, step);
    LocalHandedOut(cfg, s, step);
    InFlightUpdate(s.threads, t, s'.threads[t]);
    var h, h' := s.threads[t].Held(), s'.threads[t].Held();
    if cfg.callback {
      assert multiset(s.cuts + h') == multiset(s.cuts) + multiset(h');
      assert multiset(s.delivered + h) == multiset(s.delivered) + multiset(h);
      Balance(multiset(s.cuts), multiset(s'.cuts), multiset(s.delivered), multiset(s'.delivered),
              multiset(h), multiset(h'), InFlight(s.threads), InFlight(s'.threads));
    }
  }

  lemma Balance<X>(
    c: multiset<X>, c': multiset<X>, d: multiset<X>, d': multiset<X>, h: multiset<X>, h': multiset<X>, f: multiset<X>, f': multiset<X>)
    requires c == d + f && c' + (d + h) == c + (d' + h') && f' + h == f + h'
    ensures c' == d' + f'
  {
    forall x: X
      ensures c'[x] == (d' + f')[x]
    {
      assert c[x] == d[x] + f[x];
      assert (c' + (d + h))[x] == (c + (d' + h'))[x];
      assert (f' + h)[x] == (f + h')[x];
    }
  }

  lemma LoopNeverAdds<T>(cfg: Config, s: State<T>, step: Step<T>)
    requires |s.threads| > 0 && !s.threads[0].InAdd() && Do(cfg, s, step).Some?
    ensures |Do(cfg, s, step).value.threads| > 0 && !Do(cfg, s, step).value.threads[0].InAdd()
  {
    if Mover(step) > 0 {
      hide Do;
      OneMoves(cfg, s, step);
    }
  }

  lemma {:induction false} EveryRun<T>(cfg: Config, s: State<T>, steps: seq<Step<T>>)
    requires Inv(cfg, s) && Run(cfg, s, steps).Some?
    ensures Inv(cfg, Run(cfg, s, steps).value)
    decreases |steps|
  {
    hide Exclusive, CopiesCurrent, Attended, Conserved, HandedOutOnce, NonemptyCuts, Do;
    if steps != [] {
      KeepsMutex(cfg, s, steps[0]);
      KeepsAttended(cfg, s, steps[0]);
      KeepsConserved(cfg, s, steps[0]);
      KeepsHandedOut(cfg, s, steps[0]);
      OneMoves(cfg, s, steps[0]);
      LoopNeverAdds(cfg, s, steps[0]);
      EveryRun(cfg, Do(cfg, s, steps[0]).value, steps[1..]);
    }
  }

  /** Reached from the start by some interleaving of n callers and the flush loop. */
  ghost predicate Reached<T>(cfg: Config, n: nat, steps: seq<Step<T>>, s: State<T>) {
    Run(cfg, Start(n), steps) == Some(s)
  }

  // ---------------------------------------------------------------- main results

  /**
   No lost wakeup: whenever the mutex is free and at least maxFrames frames are pending, the signal is
   in the channel, or the loop has received it and not yet taken the mutex.
   */
  lemma NoLostWakeup<T>(cfg: Config, n: nat, steps: seq<Step<T>>, s: State<T>)
    requires Reached(cfg, n, steps, s) && s.lock.None? && |s.pending| >= cfg.maxFrames && s.pending != []
    ensures s.signal || Woken(s)
  {
    StartsWell<T>(cfg, n);
    EveryRun(cfg, Start(n), steps);
  }

  /** Nothing is lost, duplicated or reordered between Add and the cutting of batches. */
  lemma Conservation<T>(cfg: Config, n: nat, steps: seq<Step<T>>, s: State<T>)
    requires Reached(cfg, n, steps, s)
    ensures Flatten(s.cuts) + s.pending == s.added
    ensures forall k :: 0 <= k < |s.cuts| ==> s.cuts[k] != []
  {
    StartsWell<T>(cfg, n);
    EveryRun(cfg, Start(n), steps);
  }

  /** Once no goroutine is inside flush, the callback has had every batch exactly once. */
  lemma DeliveredOnce<T>(cfg: Config, n: nat, steps: seq<Step<T>>, s: State<T>)
    requires cfg.callback && Reached(cfg, n, steps, s)
    ensures multiset(s.delivered) <= multiset(s.cuts)
    ensures (forall t :: 0 <= t < |s.threads| ==> !s.threads[t].InFlush()) ==> multiset(s.delivered) == multiset(s.cuts)
  {
    StartsWell<T>(cfg, n);
    EveryRun(cfg, Start(n), steps);
    if forall t :: 0 <= t < |s.threads| ==> !s.threads[t].InFlush() {
      forall t | 0 <= t < |s.threads|
        ensures s.threads[t].Held() == []
      {
        assert !s.threads[t].InFlush();
      }
      NothingInFlight(s.threads);
    }
  }

  /** At most one goroutine is ever inside the mutex. */
  lemma MutualExclusion<T>(cfg: Config, n: nat, steps: seq<Step<T>>, s: State<T>, t: nat, u: nat)
    requires Reached(cfg, n, steps, s) && t < |s.threads| && u < |s.threads|
    requires s.threads[t].Inside() && s.threads[u].Inside()
    ensures t == u
  {
    StartsWell<T>(cfg, n);
    EveryRun(cfg, Start(n), steps);
  }
}
