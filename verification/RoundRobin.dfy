/** The round-robin selector: a 32-bit ticket counter over a list of backends with health flags. */
module RoundRobin {
  import opened Rounds
  import opened Sequences
  import opened WireBytes

  const MAX_FAILURES: int := 5

  /** Failures in a row, and whether the selector may hand the backend out. */
  datatype Health = Health(failed: int, healthy: bool)

  datatype Report = Success | Failure

  class Backend {
    const addr: string
    var failedReqs: int
    var healthy: bool

    constructor (addr: string)
      ensures this.addr == addr && failedReqs == 0 && !healthy
    {
      this.addr := addr;
      failedReqs := 0;
      healthy := false;
    }

    function View(): Health
      reads this
    {
      Health(failedReqs, healthy)
    }
  }

  class Selector {
    var backends: seq<Backend>
    var index: U32

    /** No address is registered twice. */
    ghost predicate Valid()
      reads this
    {
      forall i, j :: 0 <= i < j < |backends| ==> backends[i].addr != backends[j].addr
    }

    constructor ()
      ensures Valid() && backends == [] && index == 0
    {
      backends, index := [], 0;
    }

    /** How many slots the tickets are spread over: the length of the list in 32 bits. */
    function Width(): nat
      reads this
    {
      ToU32(|backends|)
    }

    /** The slot of a ticket is one of the list. */
    lemma SlotInList(ticket: U32)
      requires Width() > 0
      ensures 0 <= ticket % Width() < |backends|
    {
      WidthFits(|backends|);
      Division(ticket, Width());
    }

    /**
     Takes a ticket and looks at the backend of one slot only, which is handed out if and only if it is healthy.
     A list whose length is a multiple of 2^32 makes the remainder a division by zero, which panics after the
     ticket is drawn.
     */
    method Select() returns (chosen: Backend?, panicked: bool)
      modifies this`index
      ensures index == if backends == [] then old(index) else Ticket(old(index), 1)
      ensures panicked <==> backends != [] && Width() == 0
      ensures Width() == 0 ==> chosen == null
      ensures Width() > 0 ==>
                var slot := old(index) % Width();
                slot < |backends| && (chosen != null ==> chosen == backends[slot] && chosen.healthy)
                && (chosen == null <==> !backends[slot].healthy)
    {
      if |backends| == 0 {
        return null, false;
      }
      index := (index + 1) % TWO32;
      var ticket := (index + TWO32 - 1) % TWO32;
      assert ticket == old(index);
      var width := ToU32(|backends|);
      if width == 0 {
        return null, true;
      }
      SlotInList(ticket);
      hide ToU32;
      var backend := backends[ticket % width];
      if !backend.healthy {
        return null, false;
      }
      return backend, false;
    }

    method Register(backend: Backend)
      requires Valid()
      modifies this`backends, backend`healthy
      ensures Valid()
      ensures var known := exists i :: 0 <= i < |old(backends)| && old(backends)[i].addr == backend.addr;
              && backends == (if known then old(backends) else old(backends) + [backend])
              && backend.healthy == (!known || old(backend.healthy))
    {
      for i := 0 to |backends|
        invariant forall j :: 0 <= j < i ==> backends[j].addr != backend.addr
      {
        if backends[i].addr == backend.addr {
          return;
        }
      }
      backend.healthy := true;
      backends := backends + [backend];
    }

    /** Removes the backend with the address, and keeps the others in order. */
    method Unregister(addr: string)
      requires Valid()
      modifies this`backends
      ensures Valid() && forall i :: 0 <= i < |backends| ==> backends[i].addr != addr
      ensures backends == old(backends)
           || exists i :: 0 <= i < |old(backends)| && old(backends)[i].addr == addr
                          && backends == old(backends)[..i] + old(backends)[i + 1..]
    {
      for i := 0 to |backends|
        invariant forall j :: 0 <= j < i ==> backends[j].addr != addr
      {
        if backends[i].addr == addr {
          backends := backends[..i] + backends[i + 1..];
          return;
        }
      }
    }

    method RecordSuccess(backend: Backend)
      modifies backend`failedReqs, backend`healthy
      ensures backend.View() == Recorded(old(backend.View()), Success)
    {
      backend.failedReqs := 0;
      backend.healthy := true;
    }

    method RecordFailure(backend: Backend)
      modifies backend`failedReqs, backend`healthy
      ensures backend.View() == Recorded(old(backend.View()), Failure)
    {
      backend.failedReqs := backend.failedReqs + 1;
      if backend.failedReqs > MAX_FAILURES {
        backend.healthy := false;
      }
    }
  }

  lemma WidthFits(n: nat)
    ensures ToU32(n) <= n && (n < TWO32 ==> ToU32(n) == n) && (n == 0 ==> ToU32(n) == 0)
  {
  }

  // ---------------------------------------------------------------- tickets

  /** The ticket drawn after k others, in 32 bits. */
  function Ticket(start: U32, k: nat): U32 { (start + k) % TWO32 }

  function Slot(n: nat, start: U32, k: nat): nat
    requires n > 0
    ensures Slot(n, start, k) < n
  {
    Ticket(start, k) % n
  }

  lemma TicketAfter(start: U32, k: nat)
    ensures Ticket(start, 0) == start
    ensures Ticket(start, k + 1) == if Ticket(start, k) == TWO32 - 1 then 0 else Ticket(start, k) + 1
  {
    NextRemainder(TWO32, start + k);
  }

  /** Tickets drawn after a others are the tickets of a counter that starts there. */
  lemma {:induction false} TicketAdd(start: U32, a: nat, j: nat)
    ensures Ticket(Ticket(start, a), j) == Ticket(start, a + j)
  {
    hide Ticket;
    TicketAfter(Ticket(start, a), 0);
    if j > 0 {
      TicketAdd(start, a, j - 1);
      TicketAfter(Ticket(start, a), j - 1);
      TicketAfter(start, a + j - 1);
    }
  }

  /** How often k selections examine the slot. */
  function Hits(n: nat, start: U32, k: nat, slot: nat): nat
    requires n > 0
  {
    if k == 0 then 0 else Hits(n, start, k - 1, slot) + if Slot(n, start, k - 1) == slot then 1 else 0
  }

  /** The same count for tickets that never wrap. */
  function Passes(n: nat, from: nat, k: nat, slot: nat): nat
    requires n > 0
    decreases k
  {
    if k == 0 then 0 else (if from % n == slot then 1 else 0) + Passes(n, from + 1, k - 1, slot)
  }

  lemma {:induction false} PassesConcat(n: nat, from: nat, a: nat, b: nat, slot: nat)
    requires n > 0
    ensures Passes(n, from, a + b, slot) == Passes(n, from, a, slot) + Passes(n, from + a, b, slot)
    decreases a
  {
    if a > 0 {
      PassesConcat(n, from + 1, a - 1, b, slot);
    }
  }

  /** One more pass at the end. */
  lemma PassesNext(n: nat, from: nat, k: nat, slot: nat)
    requires n > 0
    ensures Passes(n, from, k + 1, slot) == Passes(n, from, k, slot) + if (from + k) % n == slot then 1 else 0
  {
    PassesConcat(n, from, k, 1, slot);
    assert Passes(n, from + k + 1, 0, slot) == 0;
  }

  lemma TicketIs(start: U32, k: nat)
    ensures start + k < TWO32 ==> Ticket(start, k) == start + k
    ensures start + k == TWO32 ==> Ticket(start, k) == 0
  {
  }

  lemma {:induction false} HitsBeforeWrap(n: nat, start: U32, k: nat, slot: nat)
    requires n > 0 && start + k <= TWO32
    ensures Hits(n, start, k, slot) == Passes(n, start, k, slot)
  {
    hide Passes, Ticket;
    if k > 0 {
      HitsBeforeWrap(n, start, k - 1, slot);
      PassesNext(n, start, k - 1, slot);
      TicketIs(start, k - 1);
    } else {
      NoPasses(n, start, slot);
    }
  }

  lemma NoPasses(n: nat, from: nat, slot: nat)
    requires n > 0
    ensures Passes(n, from, 0, slot) == 0
  {
  }

  lemma {:induction false} HitsSplit(n: nat, start: U32, a: nat, b: nat, slot: nat)
    requires n > 0
    ensures Hits(n, start, a + b, slot) == Hits(n, start, a, slot) + Hits(n, Ticket(start, a), b, slot)
    decreases b
  {
    hide Ticket;
    if b > 0 {
      HitsSplit(n, start, a, b - 1, slot);
      TicketAdd(start, a, b - 1);
    }
  }

  /** At a wrap the count goes on as from ticket zero. */
  lemma HitsAcrossWrap(n: nat, start: U32, k: nat, slot: nat)
    requires n > 0 && start + k >= TWO32
    ensures Hits(n, start, k, slot) == Passes(n, start, TWO32 - start, slot) + Hits(n, 0, start + k - TWO32, slot)
  {
    hide Passes, Ticket, Hits;
    var a := TWO32 - start;
    HitsSplit(n, start, a, k - a, slot);
    HitsBeforeWrap(n, start, a, slot);
    TicketIs(start, a);
  }

  /** Selections until the slot comes up next. */
  function Wait(n: nat, from: nat, slot: nat): (d: nat)
    requires slot < n
    ensures d < n
  {
    var here := from % n;
    if here <= slot then slot - here else slot + n - here
  }

  lemma NextWait(n: nat, from: nat, slot: nat)
    requires slot < n
    ensures from % n == slot <==> Wait(n, from, slot) == 0
    ensures Wait(n, from + 1, slot) == if Wait(n, from, slot) == 0 then n - 1 else Wait(n, from, slot) - 1
  {
    Division(from, n);
    NextRemainder(n, from);
  }

  /** The h-th hit is h - 1 rounds after the first one. */
  lemma {:induction false} PassesExact(n: nat, from: nat, k: nat, slot: nat)
    requires slot < n
    ensures var h, d := Passes(n, from, k, slot), Wait(n, from, slot);
            d + Times(h, n) - n < k <= d + Times(h, n)
    decreases k
  {
    hide Times, Wait;
    if k > 0 {
      NextWait(n, from, slot);
      PassesExact(n, from + 1, k - 1, slot);
      TimesNext(Passes(n, from + 1, k - 1, slot), n);
    } else {
      TimesNext(0, n);
    }
  }

  lemma PassesEven(n: nat, from: nat, k: nat, a: nat, b: nat)
    requires a < n && b < n
    ensures Passes(n, from, k, a) <= Passes(n, from, k, b) + 1
  {
    hide Times, Wait, Passes;
    PassesExact(n, from, k, a);
    PassesExact(n, from, k, b);
    var g, h := Passes(n, from, k, a), Passes(n, from, k, b);
    if g > h + 1 {
      TimesNext(h, n);
      TimesGrows(h + 1, g, n);
    }
  }

  // ---------------------------------------------------------------- fairness

  /** Without a wrap, k selections examine every slot k/n times, rounded down or up. */
  lemma FairWithoutWrap(n: nat, start: U32, k: nat, slot: nat)
    requires slot < n && start + k <= TWO32
    ensures k / n <= Hits(n, start, k, slot) <= k / n + (if k % n == 0 then 0 else 1)
  {
    hide Times, Wait, Hits, Passes;
    HitsBeforeWrap(n, start, k, slot);
    PassesExact(n, start, k, slot);
    Division(k, n);
    var h, q := Passes(n, start, k, slot), k / n;
    TimesNext(q, n);
    if h < q {
      TimesGrows(h, q, n);
    } else if h > q + 1 {
      TimesGrows(q + 1, h, n);
    }
  }

  /** Across any number of wraps the counts of two slots differ by at most one more than these. */
  lemma {:induction false} FairAcrossWraps(n: nat, start: U32, k: nat, wraps: nat, a: nat, b: nat)
    requires a < n && b < n && start + k <= (wraps + 1) * TWO32
    ensures Hits(n, start, k, a) <= Hits(n, start, k, b) + wraps + 1
    decreases wraps
  {
    hide Hits, Passes;
    if start + k <= TWO32 {
      HitsBeforeWrap(n, start, k, a);
      HitsBeforeWrap(n, start, k, b);
      PassesEven(n, start, k, a, b);
    } else {
      HitsAcrossWrap(n, start, k, a);
      HitsAcrossWrap(n, start, k, b);
      PassesEven(n, start, TWO32 - start, a, b);
      FairAcrossWraps(n, 0, start + k - TWO32, wraps - 1, a, b);
    }
  }

  /** The counts of two slots differ by at most one. */
  ghost predicate Even(n: nat, start: U32, k: nat)
    requires n > 0
  {
    forall a, b :: 0 <= a < n && 0 <= b < n ==> Hits(n, start, k, a) <= Hits(n, start, k, b) + 1
  }

  /** When the list length divides 2^32, wrapping the ticket does not change its slot. */
  lemma {:induction false} SlotWhenDivides(n: nat, start: U32, k: nat)
    requires n > 0 && TWO32 % n == 0
    ensures Slot(n, start, k) == (start + k) % n
  {
    hide Ticket;
    if k == 0 {
      TicketAfter(start, 0);
    } else {
      SlotWhenDivides(n, start, k - 1);
      TicketAfter(start, k - 1);
      NextRemainder(n, start + k - 1);
      NextRemainder(n, Ticket(start, k - 1));
      NextRemainder(n, TWO32 - 1);
      Division(start + k - 1, n);
      TimesNext(0, n);
      Remainder(n, 0, 0, 0);
    }
  }

  lemma {:induction false} HitsWhenDivides(n: nat, start: U32, k: nat, slot: nat)
    requires n > 0 && TWO32 % n == 0
    ensures Hits(n, start, k, slot) == Passes(n, start, k, slot)
  {
    hide Passes, Slot;
    if k > 0 {
      HitsWhenDivides(n, start, k - 1, slot);
      PassesNext(n, start, k - 1, slot);
      SlotWhenDivides(n, start, k - 1);
    } else {
      NoPasses(n, start, slot);
    }
  }

  /** How often the first and the last slot come up in k < n passes that begin at slot 0. */
  lemma FromSlotZero(n: nat, q: nat, k: nat)
    requires 0 < k < n
    ensures Times(q, n) >= 0 && Passes(n, Times(q, n), k, 0) >= 1 && Passes(n, Times(q, n), k, n - 1) == 0
  {
    hide Times, Passes;
    TimesNext(0, n);
    if q > 0 {
      TimesGrows(0, q, n);
    }
    var from := Times(q, n);
    Remainder(n, q, 0, from);
    PassesExact(n, from, k, 0);
    PassesExact(n, from, k, n - 1);
    var last := Passes(n, from, k, n - 1);
    if last > 0 {
      TimesGrows(0, last, n);
    }
  }

  /** When the list length does not divide 2^32, slot 0 can come up twice while the last slot waits. */
  lemma WrapUneven(n: nat)
    requires 0 < n < TWO32 && TWO32 % n != 0
    ensures var r := TWO32 % n;
            && Hits(n, TWO32 - r, r + 1, 0) >= 2
            && Hits(n, TWO32 - r, r + 1, n - 1) == 0
  {
    hide Times, Passes, Hits;
    var r, q := TWO32 % n, TWO32 / n;
    Division(TWO32, n);
    TimesNext(0, n);
    assert n > 1 && q >= 0;
    FromSlotZero(n, q, r);
    FromSlotZero(n, 0, 1);
    HitsAcrossWrap(n, TWO32 - r, r + 1, 0);
    HitsAcrossWrap(n, TWO32 - r, r + 1, n - 1);
    HitsBeforeWrap(n, 0, 1, 0);
    HitsBeforeWrap(n, 0, 1, n - 1);
  }

  /** All stretches of selections, of any length, are even exactly when the list length divides 2^32. */
  lemma EvenIff(n: nat)
    requires 0 < n < TWO32
    ensures (forall start: U32, k: nat :: Even(n, start, k)) <==> TWO32 % n == 0
  {
    hide Hits, Passes;
    if TWO32 % n == 0 {
      forall start: U32, k: nat
        ensures Even(n, start, k)
      {
        forall a, b | 0 <= a < n && 0 <= b < n
          ensures Hits(n, start, k, a) <= Hits(n, start, k, b) + 1
        {
          HitsWhenDivides(n, start, k, a);
          HitsWhenDivides(n, start, k, b);
          PassesEven(n, start, k, a, b);
        }
      }
    } else {
      WrapUneven(n);
      var r := TWO32 % n;
      assert r > 0 by { Division(TWO32, n); }
      assert !Even(n, TWO32 - r, r + 1);
    }
  }

  // ---------------------------------------------------------------- availability

  lemma {:induction false} HitWitness(n: nat, start: U32, k: nat, slot: nat) returns (j: nat)
    requires n > 0 && Hits(n, start, k, slot) > 0
    ensures j < k && Slot(n, start, j) == slot
  {
    if Slot(n, start, k - 1) == slot {
      j := k - 1;
    } else {
      j := HitWitness(n, start, k - 1, slot);
    }
  }

  /** n passes meet every slot. */
  lemma RoundMeets(n: nat, start: U32, slot: nat) returns (j: nat)
    requires slot < n && start + n <= TWO32
    ensures j < n && Slot(n, start, j) == slot
  {
    hide Times, Wait, Hits, Passes;
    TimesNext(0, n);
    HitsBeforeWrap(n, start, n, slot);
    PassesExact(n, start, n, slot);
    j := HitWitness(n, start, n, slot);
  }

  /** n selections without a wrap, or 2n - 1 in any case, examine every slot. */
  lemma EverySlotExamined(n: nat, start: U32, k: nat, slot: nat) returns (j: nat)
    requires slot < n <= TWO32 && k >= n && (start + n <= TWO32 || k >= 2 * n - 1)
    ensures j < k && Slot(n, start, j) == slot
  {
    if start + n <= TWO32 {
      j := RoundMeets(n, start, slot);
    } else {
      var a := TWO32 - start;
      hide Ticket;
      TicketIs(start, a);
      j := RoundMeets(n, 0, slot);
      TicketAdd(start, a, j);
      j := a + j;
    }
  }

  /** A report about a backend, made by whoever used it. */
  datatype Note = Note(backend: Backend, report: Report)

  ghost function Noted(notes: seq<Note>): set<Backend> {
    set i | 0 <= i < |notes| :: notes[i].backend
  }

  /** The reports about one backend. */
  ghost function About(b: Backend, notes: seq<Note>): seq<Report> {
    if notes == [] then []
    else
      var n := |notes| - 1;
      About(b, notes[..n]) + if notes[n].backend == b then [notes[n].report] else []
  }

  lemma OneMoreNote(b: Backend, notes: seq<Note>, note: Note)
    ensures About(b, notes + [note]) == About(b, notes) + if note.backend == b then [note.report] else []
  {
    assert (notes + [note])[..|notes|] == notes;
  }

  lemma OneMoreReport(h: Health, reports: seq<Report>, r: Report)
    ensures RecordedAll(h, reports + [r]) == Recorded(RecordedAll(h, reports), r)
  {
    assert (reports + [r])[..|reports|] == reports;
  }

  lemma {:induction false} NotAbout(b: Backend, notes: seq<Note>)
    requires b !in Noted(notes)
    ensures About(b, notes) == []
  {
    if notes != [] {
      var n := |notes| - 1;
      assert notes[n].backend in Noted(notes);
      assert forall i :: 0 <= i < n ==> notes[..n][i].backend in Noted(notes);
      NotAbout(b, notes[..n]);
    }
  }

  /** What a selection finds: the backend of its slot, if the reports made until then leave it healthy. */
  ghost predicate Finds(backends: seq<Backend>, was: map<Backend, Health>, ticket: U32, notes: seq<Note>, chosen: Backend?)
    requires ToU32(|backends|) > 0
  {
    var slot := ticket % ToU32(|backends|);
    && slot < |backends|
    && backends[slot] in was
    && chosen == if RecordedAll(was[backends[slot]], About(backends[slot], notes)).healthy then backends[slot] else null
  }

  /** The health of the backends before a run. */
  ghost function Healths(backends: seq<Backend>): map<Backend, Health>
    reads backends
  {
    map b | b in backends :: b.View()
  }

  /** Each backend has the health that its reports give it. */
  ghost predicate Current(backends: seq<Backend>, was: map<Backend, Health>, notes: seq<Note>)
    reads backends
  {
    forall b :: b in backends ==> b in was && b.View() == RecordedAll(was[b], About(b, notes))
  }

  lemma NoteKeepsCurrent(was: Health, before: seq<Note>, note: Note, b: Backend)
    ensures RecordedAll(was, About(b, before + [note])) ==
            if note.backend == b then Recorded(RecordedAll(was, About(b, before)), note.report) else RecordedAll(was, About(b, before))
  {
    OneMoreNote(b, before, note);
    hide About;
    if note.backend == b {
      OneMoreReport(was, About(b, before), note.report);
    } else {
      assert About(b, before + [note]) == About(b, before);
    }
    hide RecordedAll;
  }

  method TakeNote(selector: Selector, note: Note, ghost was: map<Backend, Health>, ghost before: seq<Note>)
    requires Current(selector.backends, was, before)
    modifies note.backend
    ensures Current(selector.backends, was, before + [note])
  {
    hide About, RecordedAll;
    match note.report {
      case Success => selector.RecordSuccess(note.backend);
      case Failure => selector.RecordFailure(note.backend);
    }
    forall b | b in selector.backends
      ensures b.View() == RecordedAll(was[b], About(b, before + [note]))
    {
      NoteKeepsCurrent(was[b], before, note, b);
    }
  }

  method TakeNotes(selector: Selector, notes: seq<Note>, ghost was: map<Backend, Health>, ghost before: seq<Note>)
    requires Current(selector.backends, was, before)
    modifies Noted(notes)
    ensures Current(selector.backends, was, before + notes)
  {
    hide Current;
    assert before + notes[..0] == before;
    for i := 0 to |notes|
      invariant Current(selector.backends, was, before + notes[..i])
    {
      assert notes[i].backend in Noted(notes);
      Regrouped(before, notes, i);
      TakeNote(selector, notes[i], was, before + notes[..i]);
    }
    assert notes[..|notes|] == notes;
  }

  lemma Regrouped<T>(a: seq<T>, b: seq<T>, i: nat)
    requires i < |b|
    ensures a + b[..i + 1] == (a + b[..i]) + [b[i]]
  {
  }

  /** Reports are taken down, and then a selection is made. */
  method OneTurn(selector: Selector, notes: seq<Note>, ghost was: map<Backend, Health>, ghost before: seq<Note>)
    returns (chosen: Backend?)
    requires selector.Width() > 0 && Current(selector.backends, was, before)
    modifies selector`index, Noted(notes)
    ensures Current(selector.backends, was, before + notes) && selector.index == Ticket(old(selector.index), 1)
    ensures Finds(selector.backends, was, old(selector.index), before + notes, chosen)
  {
    hide About, RecordedAll, Ticket, ToU32;
    TakeNotes(selector, notes, was, before);
    WidthFits(|selector.backends|);
    var panicked;
    chosen, panicked := selector.Select();
  }

  /** All backends that reports are about. */
  ghost function AllNoted(between: seq<seq<Note>>): set<Backend> {
    set i, j | 0 <= i < |between| && 0 <= j < |between[i]| :: between[i][j].backend
  }

  lemma NotedAmong(between: seq<seq<Note>>, j: nat)
    requires j < |between|
    ensures Noted(between[j]) <= AllNoted(between)
  {
  }

  /** Each of the first selections found what the reports made until then leave healthy. */
  ghost predicate AllFound(
    backends: seq<Backend>, was: map<Backend, Health>, start: U32, between: seq<seq<Note>>, chosen: seq<Backend?>)
    requires ToU32(|backends|) > 0
  {
    |chosen| <= |between|
    && forall j :: 0 <= j < |chosen| ==> Finds(backends, was, Ticket(start, j), Flatten(between[..j + 1]), chosen[j])
  }

  lemma OneMoreFound(
    backends: seq<Backend>, was: map<Backend, Health>, start: U32, between: seq<seq<Note>>, chosen: seq<Backend?>, next: Backend?,
    ticket: U32, made: seq<Note>)
    requires ToU32(|backends|) > 0 && |chosen| < |between| && AllFound(backends, was, start, between, chosen)
    requires ticket == Ticket(start, |chosen|) && made == Flatten(between[..|chosen| + 1]) && Finds(backends, was, ticket, made, next)
    ensures AllFound(backends, was, start, between, chosen + [next])
  {
    hide Finds, Ticket, Flatten, ToU32;
  }

  /**
   A run of selections with reports before each: a selection hands out the backend of its slot exactly if
   the reports made until then leave it healthy.
   */
  method SelectMany(selector: Selector, between: seq<seq<Note>>) returns (chosen: seq<Backend?>)
    requires selector.Width() > 0
    modifies selector`index, AllNoted(between)
    ensures selector.index == Ticket(old(selector.index), |between|) && |chosen| == |between|
    ensures AllFound(selector.backends, old(Healths(selector.backends)), old(selector.index), between, chosen)
  {
    ghost var was, start := Healths(selector.backends), selector.index;
    NothingReported(selector.backends);
    NoPieces(between);
    TicketAfter(start, 0);
    chosen := [];
    assert AllFound(selector.backends, was, start, between, chosen) && ToU32(|selector.backends|) > 0;
    hide *;
    ghost var made: seq<Note> := [];
    ghost var backends := selector.backends;
    for j := 0 to |between|
      invariant selector.backends == backends && ToU32(|backends|) > 0
      invariant |chosen| == j && selector.index == Ticket(start, j) && made == Flatten(between[..j])
      invariant Current(backends, was, made)
      invariant AllFound(backends, was, start, between, chosen)
    {
      NotedAmong(between, j);
      ghost var ticket := selector.index;
      OneMorePiece(between, j);
      TicketAdd(start, j, 1);
      var next := OneTurn(selector, between[j], was, made);
      made := made + between[j];
      assert Finds(backends, was, ticket, made, next);
      OneMoreFound(backends, was, start, between, chosen, next, ticket, made);
      chosen := chosen + [next];
    }
  }

  lemma OneMorePiece<T>(pieces: seq<seq<T>>, j: nat)
    requires j < |pieces|
    ensures Flatten(pieces[..j + 1]) == Flatten(pieces[..j]) + pieces[j]
  {
    assert pieces[..j + 1] == pieces[..j] + [pieces[j]];
    FlattenAppend(pieces[..j], pieces[j]);
  }

  lemma NoPieces<T>(pieces: seq<seq<T>>)
    ensures Flatten(pieces[..0]) == []
  {
  }

  lemma NothingReported(backends: seq<Backend>)
    ensures Current(backends, Healths(backends), [])
  {
  }

  lemma {:induction false} FlattenedNotes(between: seq<seq<Note>>, j: nat, b: Backend)
    requires j <= |between| && b !in AllNoted(between)
    ensures b !in Noted(Flatten(between[..j]))
    decreases j
  {
    if j > 0 {
      FlattenedNotes(between, j - 1, b);
      assert between[..j] == between[..j - 1] + [between[j - 1]];
      FlattenAppend(between[..j - 1], between[j - 1]);
      hide Flatten;
      var xs, ys := Flatten(between[..j - 1]), between[j - 1];
      assert forall i :: 0 <= i < |ys| ==> ys[i].backend in AllNoted(between);
      assert forall i :: 0 <= i < |xs| ==> xs[i].backend in Noted(xs);
    }
  }

  /**
   If a backend in reach of the tickets is healthy and nobody reports about it, that many selections return it at
   least once, whatever is reported about the others in between.
   */
  method SelectUntilHealthy(selector: Selector, slot: nat, between: seq<seq<Note>>) returns (chosen: seq<Backend?>)
    requires slot < selector.Width() <= |between| && slot < |selector.backends| && selector.backends[slot].healthy
    requires selector.backends[slot] !in AllNoted(between)
    requires selector.index + selector.Width() <= TWO32 || |between| >= 2 * selector.Width() - 1
    modifies selector`index, AllNoted(between)
    ensures exists j :: 0 <= j < |chosen| == |between| && chosen[j] == selector.backends[slot]
  {
    ghost var n, b, start := selector.Width(), selector.backends[slot], selector.index;
    ghost var was := Healths(selector.backends);
    hide Ticket, ToU32, Flatten, About, RecordedAll;
    ghost var j := EverySlotExamined(n, start, |between|, slot);
    FlattenedNotes(between, j + 1, b);
    NotAbout(b, Flatten(between[..j + 1]));
    Unreported(was[b]);
    chosen := SelectMany(selector, between);
    assert Finds(selector.backends, was, Ticket(start, j), Flatten(between[..j + 1]), chosen[j]);
  }

  lemma Unreported(h: Health)
    ensures RecordedAll(h, []) == h
  {
  }

  // ---------------------------------------------------------------- health

  function Recorded(h: Health, r: Report): Health {
    match r
    case Success => Health(0, true)
    case Failure => Health(h.failed + 1, h.healthy && h.failed + 1 <= MAX_FAILURES)
  }

  function RecordedAll(h: Health, reports: seq<Report>): Health {
    if reports == [] then h
    else Recorded(RecordedAll(h, reports[..|reports| - 1]), reports[|reports| - 1])
  }

  /** Failures reported since the last success. */
  function Streak(reports: seq<Report>): nat {
    if reports == [] || reports[|reports| - 1].Success? then 0 else 1 + Streak(reports[..|reports| - 1])
  }

  /** No success has been reported. */
  predicate OnlyFailures(reports: seq<Report>) {
    forall k :: 0 <= k < |reports| ==> reports[k].Failure?
  }

  /**
   Registering marks a backend healthy but keeps its old failure count f. It stays healthy exactly
   while at most five failures in a row are reported since the last success or, before any success, while
   nothing is reported or the reports together with f number at most five.
   */
  lemma {:induction false} HealthIff(f: int, reports: seq<Report>)
    ensures var h := RecordedAll(Health(f, true), reports);
            && h.failed == (if OnlyFailures(reports) then f + |reports| else Streak(reports))
            && (h.healthy <==>
                if OnlyFailures(reports) then reports == [] || f + |reports| <= 5
                else Streak(reports) <= 5)
  {
    if reports != [] {
      var n := |reports| - 1;
      HealthIff(f, reports[..n]);
      assert OnlyFailures(reports) <==> OnlyFailures(reports[..n]) && reports[n].Failure?;
    }
  }

  /** A backend is healthy exactly while at most five failures in a row have been reported since it was registered. */
  ghost predicate JudgedByReports(f: int) {
    forall reports :: RecordedAll(Health(f, true), reports).healthy <==> Streak(reports) <= 5
  }

  function FailureRun(n: nat): seq<Report> {
    seq(n, _ => Failure)
  }

  lemma {:induction false} StreakOfFailures(reports: seq<Report>)
    requires OnlyFailures(reports)
    ensures Streak(reports) == |reports|
  {
    if reports != [] {
      StreakOfFailures(reports[..|reports| - 1]);
    }
  }

  /** Registering judges a backend by its later reports alone exactly when it has no old failures. */
  lemma JudgedByReportsIff(f: int)
    ensures JudgedByReports(f) <==> f == 0
  {
    hide RecordedAll, Streak;
    if f == 0 {
      forall reports
        ensures RecordedAll(Health(f, true), reports).healthy <==> Streak(reports) <= 5
      {
        HealthIff(0, reports);
        if OnlyFailures(reports) {
          StreakOfFailures(reports);
        }
      }
    } else {
      var n := if f < 0 then 6 else if f <= 5 then 6 - f else 1;
      HealthIff(f, FailureRun(n));
      StreakOfFailures(FailureRun(n));
      assert RecordedAll(Health(f, true), FailureRun(n)).healthy != (Streak(FailureRun(n)) <= 5);
    }
  }

  /** A backend that failed six times is healthy again once it is registered anew, until its next failure. */
  lemma RegisteredAnew()
    ensures RecordedAll(Health(6, true), []).healthy && !RecordedAll(Health(6, true), [Failure]).healthy
  {
    HealthIff(6, []);
    HealthIff(6, [Failure]);
  }
}
