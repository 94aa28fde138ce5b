/**
 A reader that is asked for at most one frame after each read, as the client asks its reader: what
 is complete but was not asked for waits in the buffer until more bytes arrive. Everything here is
 about any incremental step.
 */
module SingleReads {
  import opened FrameStreams
  import opened Sequences
  import opened WireBytes
  import opened Wrappers

  /** One read: the bytes are fed and the step is taken once. */
  function TakeOne<F, E>(step: Stepper<F, E>, o: Outcome<F, E>, read: Bytes): Outcome<F, E> {
    var b := o.rest + read;
    match step(b)
    case NeedMore => Outcome(o.frames, b, None)
    case Failed(e) => Outcome(o.frames, b, Some(e))
    case Got(f, rest) => Outcome(o.frames + [f], rest, None)
  }

  /** All reads one after the other, up to the first error. */
  function Receive<F, E>(step: Stepper<F, E>, arrivals: seq<Bytes>): Outcome<F, E> {
    if arrivals == [] then Outcome([], [], None)
    else
      var before := Receive(step, arrivals[..|arrivals| - 1]);
      if before.error.Some? then before else TakeOne(step, before, arrivals[|arrivals| - 1])
  }

  lemma LastRead<F, E>(step: Stepper<F, E>, arrivals: seq<Bytes>, read: Bytes)
    ensures var before := Receive(step, arrivals);
            Receive(step, arrivals + [read]) == if before.error.Some? then before else TakeOne(step, before, read)
  {
    assert (arrivals + [read])[..|arrivals|] == arrivals;
  }

  // ---------------------------------------------------------------- nothing is lost

  /** Whatever follows, what was received and what can still be drained from the buffer make up the whole stream. */
  ghost predicate Covers<F(!new), E(!new)>(step: Stepper<F, E>, o: Outcome<F, E>, s: Bytes, x: Bytes)
    requires Consumes(step)
  {
    var all := Drain(step, s + x);
    if o.error.None? then all == After(o.frames, Drain(step, o.rest + x))
    else all.frames == o.frames && all.error == o.error
  }

  lemma OneReadCovers<F(!new), E(!new)>(step: Stepper<F, E>, o: Outcome<F, E>, s: Bytes, read: Bytes, x: Bytes)
    requires Incremental(step) && o.error.None? && Covers(step, o, s, read + x)
    ensures Covers(step, TakeOne(step, o, read), s + read, x)
  {
    hide Drain;
    var b := o.rest + read;
    Regroup(s, read, x);
    Regroup(o.rest, read, x);
    DrainCons(step, o.frames, b + x);
    if step(b).Got? {
      assert step(b + x) == Got(step(b).frame, step(b).rest + x);
    } else if step(b).Failed? {
      assert step(b + x) == step(b);
    }
  }

  lemma {:induction false} ReceivedCovers<F(!new), E(!new)>(step: Stepper<F, E>, arrivals: seq<Bytes>, x: Bytes)
    requires Incremental(step)
    ensures Covers(step, Receive(step, arrivals), Flatten(arrivals), x)
    decreases |arrivals|
  {
    if arrivals == [] {
      AfterNothing(Drain(step, [] + x));
    } else {
      var n := |arrivals| - 1;
      var init, read := arrivals[..n], arrivals[n];
      var before := Receive(step, init);
      ReceivedCovers(step, init, read + x);
      assert arrivals == init + [read];
      FlattenAppend(init, read);
      if before.error.None? {
        OneReadCovers(step, before, Flatten(init), read, x);
      } else {
        Regroup(Flatten(init), read, x);
      }
      hide Flatten, Drain;
    }
  }

  // ---------------------------------------------------------------- how far the reader is behind

  /** Frames, and the error if there is one. */
  function Items<F, E>(o: Outcome<F, E>): nat {
    |o.frames| + if o.error.Some? then 1 else 0
  }

  /** What the first i reads have completed. */
  ghost function Completed<F(!new), E(!new)>(step: Stepper<F, E>, arrivals: seq<Bytes>, i: nat): nat
    requires Consumes(step) && i <= |arrivals|
  {
    Items(Drain(step, Flatten(arrivals[..i])))
  }

  lemma CoversNow<F(!new), E(!new)>(step: Stepper<F, E>, arrivals: seq<Bytes>)
    requires Incremental(step)
    ensures var o, all := Receive(step, arrivals), Drain(step, Flatten(arrivals));
            if o.error.None? then all == After(o.frames, Drain(step, o.rest))
            else all.frames == o.frames && all.error == o.error
  {
    ReceivedCovers(step, arrivals, []);
    var o := Receive(step, arrivals);
    assert Flatten(arrivals) + [] == Flatten(arrivals) && o.rest + [] == o.rest;
  }

  lemma OneStepItems<F(!new), E(!new)>(step: Stepper<F, E>, before: Outcome<F, E>, read: Bytes, all: Outcome<F, E>)
    requires Consumes(step) && before.error.None?
    requires var o := TakeOne(step, before, read);
             if o.error.None? then all == After(o.frames, Drain(step, o.rest))
             else all.frames == o.frames && all.error == o.error
    ensures Items(TakeOne(step, before, read)) == if Items(all) > Items(before) then Items(before) + 1 else Items(all)
  {
    var b := before.rest + read;
    if step(b).NeedMore? {
      assert Drain(step, b) == Outcome([], b, None);
      assert before.frames + [] == before.frames;
    }
    hide Drain;
  }

  /** Each read takes one item if there is one. */
  lemma OneItemPerRead<F(!new), E(!new)>(step: Stepper<F, E>, init: seq<Bytes>, read: Bytes)
    requires Incremental(step)
    ensures var before, all := Items(Receive(step, init)), Items(Drain(step, Flatten(init + [read])));
            Items(Receive(step, init + [read])) == if all > before then before + 1 else all
  {
    assert Consumes(step);
    hide *;
    CoversNow(step, init + [read]);
    LastRead(step, init, read);
    var before, all := Receive(step, init), Drain(step, Flatten(init + [read]));
    if before.error.None? {
      OneStepItems(step, before, read, all);
    } else {
      SameItems(before, all);
    }
  }

  lemma SameItems<F, E>(a: Outcome<F, E>, b: Outcome<F, E>)
    requires a.frames == b.frames && a.error == b.error
    ensures Items(a) == Items(b)
  {
  }

  lemma SamePrefix<F(!new), E(!new)>(step: Stepper<F, E>, arrivals: seq<Bytes>, n: nat, i: nat)
    requires Consumes(step) && i <= n <= |arrivals|
    ensures Completed(step, arrivals, i) == Completed(step, arrivals[..n], i)
  {
    assert arrivals[..i] == arrivals[..n][..i];
  }

  lemma AllArrived<F(!new), E(!new)>(step: Stepper<F, E>, arrivals: seq<Bytes>)
    requires Consumes(step)
    ensures Completed(step, arrivals, |arrivals|) == Items(Drain(step, Flatten(arrivals)))
  {
    assert arrivals[..|arrivals|] == arrivals;
  }

  /** Closed form: what was taken is the least, over all i, of what the first i reads completed plus the reads since. */
  lemma {:induction false} TakenIsMinimum<F(!new), E(!new)>(step: Stepper<F, E>, arrivals: seq<Bytes>) returns (low: nat)
    requires Incremental(step) && step([]) == NeedMore
    ensures var n, taken := |arrivals|, Items(Receive(step, arrivals));
            && low <= n && taken == Completed(step, arrivals, low) + n - low
            && forall i :: 0 <= i <= n ==> taken <= Completed(step, arrivals, i) + n - i
    decreases |arrivals|
  {
    var n := |arrivals|;
    if n == 0 {
      low := 0;
      assert Flatten(arrivals[..0]) == [];
    } else {
      assert Consumes(step);
      hide *;
      var init := arrivals[..n - 1];
      low := TakenIsMinimum(step, init);
      assert arrivals == init + [arrivals[n - 1]];
      OneItemPerRead(step, init, arrivals[n - 1]);
      AllArrived(step, arrivals);
      forall i | 0 <= i < n
        ensures Completed(step, arrivals, i) == Completed(step, init, i)
      {
        SamePrefix(step, arrivals, n - 1, i);
      }
      if Items(Receive(step, arrivals)) == Completed(step, arrivals, n) {
        low := n;
      }
    }
  }

  /** No more is completed after the first i reads than there are reads left to take it. */
  ghost predicate KeepsUp<F(!new), E(!new)>(step: Stepper<F, E>, arrivals: seq<Bytes>)
    requires Consumes(step)
  {
    forall i :: 0 <= i <= |arrivals| ==> Completed(step, arrivals, |arrivals|) <= Completed(step, arrivals, i) + |arrivals| - i
  }

  /** One frame a read yields everything that draining yields, error and leftover included, exactly when the reads keep up. */
  lemma KeepsUpIff<F(!new), E(!new)>(step: Stepper<F, E>, arrivals: seq<Bytes>)
    requires Incremental(step) && step([]) == NeedMore
    ensures SameOutcome(Receive(step, arrivals), Drain(step, Flatten(arrivals))) <==> KeepsUp(step, arrivals)
  {
    var n := |arrivals|;
    var o, all := Receive(step, arrivals), Drain(step, Flatten(arrivals));
    var low := TakenIsMinimum(step, arrivals);
    assert arrivals[..n] == arrivals;
    assert Completed(step, arrivals, n) == Items(all);
    CoversNow(step, arrivals);
    hide Flatten;
    if Items(o) == Items(all) && o.error.None? {
      var more := Drain(step, o.rest);
      assert |more.frames| == 0 && more.error.None?;
      assert step(o.rest).NeedMore?;
      assert o.frames + [] == o.frames;
    }
  }

  /** In any case what is received is a first part of what was sent, and the rest of it is still in the buffer. */
  lemma ReceivedIsPrefix<F(!new), E(!new)>(step: Stepper<F, E>, arrivals: seq<Bytes>)
    requires Incremental(step)
    ensures var o, all := Receive(step, arrivals), Drain(step, Flatten(arrivals));
            && o.frames <= all.frames
            && (o.error.None? ==> all.frames == o.frames + Drain(step, o.rest).frames)
            && (o.error.Some? ==> o.frames == all.frames && o.error == all.error)
  {
    CoversNow(step, arrivals);
  }

  // ---------------------------------------------------------------- streams of encoded frames

  /** How many of the frames have arrived in full with the first so many bytes. */
  function Complete<F>(encode: F -> Bytes, frames: seq<F>, bytes: nat): nat {
    if frames == [] || bytes < |encode(frames[0])| then 0
    else 1 + Complete(encode, frames[1..], bytes - |encode(frames[0])|)
  }

  lemma ShortOfOne<F(!new), E(!new)>(step: Stepper<F, E>, encode: F -> Bytes, good: F -> bool, f: F, p: Bytes, x: Bytes)
    requires Incremental(step) && Decodes(step, encode, good) && good(f) && encode(f) == p + x && x != []
    ensures step(p) == NeedMore
  {
    assert p + x == encode(f) + [];
    assert DecodesAt(step, encode, good, p + x, f, []);
    assert step(p + x) == Got(f, []);
  }

  lemma {:induction false} DrainOfPrefix<F(!new), E(!new)>(
    step: Stepper<F, E>, encode: F -> Bytes, good: F -> bool, frames: seq<F>, p: Bytes, x: Bytes)
    requires Incremental(step) && Decodes(step, encode, good) && AllGood(good, frames) && step([]) == NeedMore
    requires EncodeAll(encode, frames) == p + x
    ensures Items(Drain(step, p)) == Complete(encode, frames, |p|)
    decreases |frames|
  {
    if frames == [] {
      assert p == [];
    } else {
      var f, rest := frames[0], frames[1..];
      var code := encode(f);
      assert good(f);
      assert EncodeAll(encode, frames) == code + EncodeAll(encode, rest);
      if |p| < |code| {
        assert p == (code + EncodeAll(encode, rest))[..|p|] == code[..|p|];
        assert code == p + code[|p|..];
        ShortOfOne(step, encode, good, f, p, code[|p|..]);
      } else {
        var p' := p[|code|..];
        assert (p + x)[..|code|] == p[..|code|] == code;
        assert p == code + p' && EncodeAll(encode, rest) == (p + x)[|code|..] == p' + x;
        assert DecodesAt(step, encode, good, p, f, p');
        assert forall i :: 0 <= i < |rest| ==> rest[i] == frames[i + 1];
        DrainOfPrefix(step, encode, good, rest, p', x);
      }
    }
  }

  lemma FlattenSplit<T>(pieces: seq<seq<T>>, i: nat)
    requires i <= |pieces|
    ensures Flatten(pieces) == Flatten(pieces[..i]) + Flatten(pieces[i..])
  {
    assert pieces == pieces[..i] + pieces[i..];
    FlattenConcat(pieces[..i], pieces[i..]);
  }

  /** After every i reads, the frames that are not complete yet are no more than the reads to come. */
  predicate Paced<F>(encode: F -> Bytes, frames: seq<F>, arrivals: seq<Bytes>) {
    forall i :: 0 <= i <= |arrivals| ==> |frames| <= Complete(encode, frames, |Flatten(arrivals[..i])|) + |arrivals| - i
  }

  lemma {:induction false} AllComplete<F>(encode: F -> Bytes, frames: seq<F>)
    ensures Complete(encode, frames, |EncodeAll(encode, frames)|) == |frames|
  {
    if frames != [] {
      AllComplete(encode, frames[1..]);
    }
  }

  /** For a stream of good frames the condition is one on the lengths of the frames and of the reads. */
  lemma PacedIff<F(!new), E(!new)>(
    step: Stepper<F, E>, encode: F -> Bytes, good: F -> bool, frames: seq<F>, arrivals: seq<Bytes>)
    requires Incremental(step) && Decodes(step, encode, good) && AllGood(good, frames) && step([]) == NeedMore
    requires Flatten(arrivals) == EncodeAll(encode, frames)
    ensures KeepsUp(step, arrivals) <==> Paced(encode, frames, arrivals)
  {
    var n := |arrivals|;
    forall i | 0 <= i <= n
      ensures Completed(step, arrivals, i) == Complete(encode, frames, |Flatten(arrivals[..i])|)
    {
      FlattenSplit(arrivals, i);
      DrainOfPrefix(step, encode, good, frames, Flatten(arrivals[..i]), Flatten(arrivals[i..]));
    }
    assert arrivals[..n] == arrivals;
    AllComplete(encode, frames);
    hide Completed, Complete, Flatten, Incremental, Decodes;
  }

  /** All frames of a stream are received one a read, with nothing left over, exactly when they are good and well paced. */
  lemma ReceivedIff<F(!new), E(!new)>(
    step: Stepper<F, E>, encode: F -> Bytes, good: F -> bool, frames: seq<F>, arrivals: seq<Bytes>)
    requires Incremental(step) && Decodes(step, encode, good) && step([]) == NeedMore
    requires Flatten(arrivals) == EncodeAll(encode, frames)
    ensures Receive(step, arrivals) == Outcome(frames, [], None) <==> AllGood(good, frames) && Paced(encode, frames, arrivals)
  {
    var s, o := Flatten(arrivals), Receive(step, arrivals);
    CoversNow(step, arrivals);
    DrainReadsBack(step, encode, good, s);
    if o == Outcome(frames, [], None) {
      assert Drain(step, []) == Outcome([], [], None);
      assert frames + [] == frames;
      assert AllGood(good, frames);
    }
    if AllGood(good, frames) {
      hide Receive, Paced, KeepsUp;
      assert EncodeAll(encode, frames) + [] == s;
      DrainEncoded(step, encode, good, frames, []);
      PacedIff(step, encode, good, frames, arrivals);
      KeepsUpIff(step, arrivals);
      assert Drain(step, s) == Outcome(frames, [], None);
    }
  }

  lemma {:induction false} CompleteAtLeast<F>(encode: F -> Bytes, frames: seq<F>, i: nat)
    requires i <= |frames|
    ensures Complete(encode, frames, |EncodeAll(encode, frames[..i])|) >= i
    decreases i
  {
    if i > 0 {
      assert frames[..i][0] == frames[0] && frames[..i][1..] == frames[1..][..i - 1];
      CompleteAtLeast(encode, frames[1..], i - 1);
    }
  }

  lemma {:induction false} EncodingsFlatten<F>(encode: F -> Bytes, frames: seq<F>, arrivals: seq<Bytes>)
    requires |arrivals| == |frames| && forall i :: 0 <= i < |frames| ==> arrivals[i] == encode(frames[i])
    ensures Flatten(arrivals) == EncodeAll(encode, frames)
    decreases |frames|
  {
    if frames != [] {
      EncodingsFlatten(encode, frames[1..], arrivals[1..]);
    }
  }

  /** Frames that come one a read are well paced. */
  lemma OneFramePerRead<F>(encode: F -> Bytes, frames: seq<F>, arrivals: seq<Bytes>)
    requires |arrivals| == |frames| && forall i :: 0 <= i < |frames| ==> arrivals[i] == encode(frames[i])
    ensures Flatten(arrivals) == EncodeAll(encode, frames) && Paced(encode, frames, arrivals)
  {
    EncodingsFlatten(encode, frames, arrivals);
    forall i | 0 <= i <= |arrivals|
      ensures |frames| <= Complete(encode, frames, |Flatten(arrivals[..i])|) + |arrivals| - i
    {
      EncodingsFlatten(encode, frames[..i], arrivals[..i]);
      CompleteAtLeast(encode, frames, i);
    }
  }

  lemma TwoEncoded<F>(encode: F -> Bytes, a: F, b: F)
    ensures EncodeAll(encode, [a, b]) == encode(a) + encode(b)
  {
    assert [a, b][1..] == [b] && |[b][1..]| == 0;
    assert EncodeAll(encode, [b]) == encode(b) + EncodeAll(encode, [b][1..]);
  }

  /** Two frames in one read: the second waits. */
  lemma SecondWaits<F(!new), E(!new)>(step: Stepper<F, E>, encode: F -> Bytes, good: F -> bool, a: F, b: F)
    requires Incremental(step) && Decodes(step, encode, good) && good(a)
    ensures Receive(step, [encode(a) + encode(b)]) == Outcome([a], encode(b), None)
  {
    var read := encode(a) + encode(b);
    assert DecodesAt(step, encode, good, read, a, encode(b));
    LastRead(step, [], read);
    assert [] + [read] == [read] && [] + read == read && [] + [a] == [a];
  }
}
