/**
 The frame batcher as an object: frames are appended to a backing array that is truncated and
 reused after every flush. Each call is one critical section of the mutex.
 */
module FrameBatcher {
  import opened GoFrames
  import opened Sequences
  import opened Wrappers

  type FramePtr = FrameObject?

  /** A batch given to the callback: the array, and the frames it held at that time. */
  datatype Batch = Batch(out: array<FramePtr>, was: seq<FramePtr>)

  ghost function Arrays(batches: seq<Batch>): set<object> {
    set b | b in batches :: b.out
  }

  function Contents(batches: seq<Batch>): seq<seq<FramePtr>> {
    seq(|batches|, k requires 0 <= k < |batches| => batches[k].was)
  }

  class Batcher {
    var base: array<FramePtr>
    var count: nat
    var signal: bool
    const maxFrames: nat
    ghost var added: seq<FramePtr>
    ghost var batches: seq<Batch>

    /** Every batch still holds the frames it was cut with, and with the pending ones they are all that was added. */
    ghost predicate Valid()
      reads this, base, Arrays(batches)
    {
      && count <= base.Length
      && (forall b :: b in batches ==> b.out != base && b.out[..] == b.was)
      && Flatten(Contents(batches)) + base[..count] == added
    }

    function Pending(): seq<FramePtr>
      requires count <= base.Length
      reads this, base
    {
      base[..count]
    }

    constructor (maxFrames: nat)
      ensures Valid() && fresh(base) && Pending() == [] && !signal && added == [] && batches == []
      ensures this.maxFrames == maxFrames
    {
      this.maxFrames := maxFrames;
      base := new FramePtr[maxFrames];
      count, signal := 0, false;
      added, batches := [], [];
    }

    method TriggerFlush()
      modifies this`signal
      ensures signal
    {
      if !signal {
        signal := true;
      }
    }

    /** Appends in place while there is room and otherwise moves to a larger array. */
    method Append(frame: FramePtr, spare: nat)
      requires count <= base.Length
      modifies this`base, this`count, base
      ensures count <= base.Length && (base == old(base) || fresh(base))
      ensures Pending() == old(Pending()) + [frame]
    {
      if count == base.Length {
        var bigger := new FramePtr[count + 1 + spare];
        for i := 0 to count
          invariant bigger[..i] == base[..i]
          invariant count == old(count) && base == old(base) && base[..] == old(base[..])
          modifies bigger
        {
          bigger[i] := base[i];
        }
        base := bigger;
      }
      base[count] := frame;
      count := count + 1;
    }

    /** No batch handed out earlier changes, although the array may be one that held its frames before. */
    method Add(frame: FramePtr, spare: nat)
      requires Valid()
      modifies this`base, this`count, this`signal, this`added, base
      ensures Valid() && (base == old(base) || fresh(base))
      ensures Pending() == old(Pending()) + [frame] && added == old(added) + [frame]
      ensures signal == (old(signal) || |Pending()| >= maxFrames)
    {
      Append(frame, spare);
      added := added + [frame];
      if count >= maxFrames {
        TriggerFlush();
      }
    }

    /** Cuts all pending frames into an array of their own; None if there are none. */
    method Flush() returns (cut: Option<array<FramePtr>>)
      requires Valid()
      modifies this`count, this`batches
      ensures Valid() && Pending() == []
      ensures cut.None? <==> old(Pending()) == []
      ensures cut.None? ==> batches == old(batches)
      ensures cut.Some? ==> fresh(cut.value) && batches == old(batches) + [Batch(cut.value, old(Pending()))]
    {
      if count == 0 {
        return None;
      }
      var out := new FramePtr[count];
      for i := 0 to count
        invariant out[..i] == base[..i]
        invariant count == old(count) && base[..] == old(base[..])
        modifies out
      {
        out[i] := base[i];
      }
      assert out[..] == base[..count];
      ghost var batch := Batch(out, base[..count]);
      FlattenAppend(Contents(batches), batch.was);
      assert Contents(batches + [batch]) == Contents(batches) + [batch.was];
      batches := batches + [batch];
      count := 0;
      return Some(out);
    }

    /** One turn of the flush loop after a signal. */
    method Wake() returns (cut: Option<array<FramePtr>>)
      requires Valid() && signal
      modifies this`signal, this`count, this`batches
      ensures Valid() && !signal && Pending() == []
      ensures cut.None? ==> old(Pending()) == [] && batches == old(batches)
      ensures cut.Some? ==> fresh(cut.value) && batches == old(batches) + [Batch(cut.value, old(Pending()))]
    {
      signal := false;
      cut := Flush();
    }
  }

  /** One critical section: an Add, where a growing array gets some spare room, or a flush. */
  datatype Section = Adding(frame: FramePtr, spare: nat) | Flushing

  function Frames(sections: seq<Section>): seq<FramePtr> {
    if sections == [] then [] else (if sections[0].Adding? then [sections[0].frame] else []) + Frames(sections[1..])
  }

  /** Any sequence of critical sections: when it ends, every batch still holds the frames it was cut with. */
  method Carry(b: Batcher, sections: seq<Section>)
    requires b.Valid()
    modifies b, b.base
    ensures b.Valid() && b.added == old(b.added) + Frames(sections)
    ensures |old(b.batches)| <= |b.batches| && b.batches[..|old(b.batches)|] == old(b.batches)
    ensures Flatten(Contents(b.batches)) + b.Pending() == old(b.added) + Frames(sections)
    ensures forall k :: 0 <= k < |b.batches| ==> b.batches[k].out[..] == b.batches[k].was
  {
    hide Flatten, Contents;
    for i := 0 to |sections|
      invariant b.Valid() && (b.base == old(b.base) || fresh(b.base))
      invariant b.added + Frames(sections[i..]) == old(b.added) + Frames(sections)
      invariant |old(b.batches)| <= |b.batches| && b.batches[..|old(b.batches)|] == old(b.batches)
    {
      assert sections[i..][0] == sections[i] && sections[i..][1..] == sections[i + 1..];
      match sections[i]
      case Adding(frame, spare) =>
        Regroup(b.added, [frame], Frames(sections[i + 1..]));
        b.Add(frame, spare);
      case Flushing => var _ := b.Flush();
    }
  }
}
