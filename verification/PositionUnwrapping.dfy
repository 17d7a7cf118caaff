/** The unwrapper that turns wrapped position samples into a continuous track. */
module PositionUnwrapping {
  import opened Bytes
  import opened RealFacts

  datatype Track = Track(span: real, offset: real, last: Option<real>)

  function Fresh(span: real): Track {
    Track(span, 0.0, None)
  }

  function Updated(t: Track, wrapped: real): Track {
    var delta := if t.last.Some? then wrapped - t.last.value else 0.0;
    var turn :=
      if t.last.None? then 0.0
      else if delta > t.span / 2.0 then -t.span
      else if delta < -t.span / 2.0 then t.span
      else 0.0;
    Track(t.span, t.offset + turn, Some(wrapped))
  }

  function PositionOf(t: Track): Option<real> {
    if t.last.None? then None else Some(t.last.value + t.offset)
  }

  /** The track after a run of samples. */
  function Fed(t: Track, samples: seq<real>): Track
    decreases |samples|
  {
    if samples == [] then t else Fed(Updated(t, samples[0]), samples[1..])
  }

  /** What the updates of a run return. */
  function Outputs(t: Track, samples: seq<real>): (r: seq<real>)
    ensures |r| == |samples|
    decreases |samples|
  {
    if samples == [] then []
    else
      var next := Updated(t, samples[0]);
      [samples[0] + next.offset] + Outputs(next, samples[1..])
  }

  class PositionUnwrapper {
    const span: real
    var offset: real
    var lastWrapped: Option<real>

    ghost function State(): Track
      reads this
    {
      Track(span, offset, lastWrapped)
    }

    constructor (span: real)
      ensures this.span == span && State() == Fresh(span)
    {
      this.span := span;
      offset := 0.0;
      lastWrapped := None;
    }

    method Update(wrapped: real) returns (continuous: real)
      modifies this
      ensures State() == Updated(old(State()), wrapped)
      ensures [continuous] == Outputs(old(State()), [wrapped])
    {
      if lastWrapped.Some? {
        var delta := wrapped - lastWrapped.value;
        if delta > span / 2.0 {
          offset := offset - span;
        } else if delta < -span / 2.0 {
          offset := offset + span;
        }
      }
      lastWrapped := Some(wrapped);
      continuous := wrapped + offset;
    }

    method Position() returns (position: Option<real>)
      ensures position == PositionOf(State())
    {
      if lastWrapped.None? {
        return None;
      }
      position := Some(lastWrapped.value + offset);
    }

    method Reset()
      modifies this
      ensures State() == Fresh(span)
    {
      lastWrapped := None;
      offset := 0.0;
    }
  }

  // --------------------------------------------------------- characterisation

  predicate Within(span: real, x: real) {
    -span / 2.0 <= x <= span / 2.0
  }

  predicate AtMostHalf(span: real, from: real, to: real) {
    -span / 2.0 <= to - from <= span / 2.0
  }

  predicate InRange(span: real, samples: seq<real>) {
    forall k :: 0 <= k < |samples| ==> Within(span, samples[k])
  }

  /** position() is the latest output. */
  lemma {:induction false} PositionIsLastOutput(t: Track, samples: seq<real>)
    requires samples != []
    ensures PositionOf(Fed(t, samples)) == Some(Outputs(t, samples)[|samples| - 1])
    decreases |samples|
  {
    var next := Updated(t, samples[0]);
    if |samples| == 1 {
      assert Fed(next, samples[1..]) == next;
    } else {
      PositionIsLastOutput(next, samples[1..]);
    }
  }

  /** Every output is its sample plus a whole number of spans. */
  lemma {:induction false} OutputsAreCongruent(t: Track, turns: int, samples: seq<real>) returns (shifts: seq<int>)
    requires t.offset == Times(turns as real, t.span)
    ensures |shifts| == |samples|
    ensures forall k :: 0 <= k < |samples| ==>
              Outputs(t, samples)[k] == samples[k] + Times(shifts[k] as real, t.span)
    decreases |samples|
  {
    if samples == [] {
      shifts := [];
    } else {
      var next := Updated(t, samples[0]);
      var now := OffsetAfter(t, turns, samples[0]);
      hide Times;
      var rest := OutputsAreCongruent(next, now, samples[1..]);
      shifts := [now] + rest;
    }
  }

  /** One in-range sample moves the continuous position by at most half a span. */
  lemma UpdateMovesAtMostHalf(t: Track, wrapped: real)
    requires t.span > 0.0 && t.last.Some? && Within(t.span, t.last.value) && Within(t.span, wrapped)
    ensures AtMostHalf(t.span, PositionOf(t).value, wrapped + Updated(t, wrapped).offset)
  {
  }

  /** A turn is counted exactly when the sample has moved by more than half a span, against that move. */
  lemma TurnsAreCounted(t: Track, wrapped: real)
    requires t.span > 0.0 && t.last.Some?
    ensures
      var moved := wrapped - t.last.value;
      var turned := Updated(t, wrapped).offset - t.offset;
      && (turned == 0.0 <==> -t.span / 2.0 <= moved <= t.span / 2.0)
      && (turned == -t.span <==> moved > t.span / 2.0)
      && (turned == t.span <==> moved < -t.span / 2.0)
  {
  }

  /** Before the first sample there is no position; the first sample is the first position. */
  lemma {:induction false} StartsUnwrapped(span: real, samples: seq<real>)
    ensures PositionOf(Fed(Fresh(span), samples)) == None <==> samples == []
    ensures samples != [] ==> Outputs(Fresh(span), samples)[0] == samples[0]
  {
    if samples != [] {
      PositionIsLastOutput(Fresh(span), samples);
    }
  }

  /** Successive outputs differ by at most half a span. */
  lemma {:induction false} OutputStepsAreShort(t: Track, samples: seq<real>, k: nat)
    requires t.span > 0.0 && InRange(t.span, samples) && k + 1 < |samples|
    ensures AtMostHalf(t.span, Outputs(t, samples)[k], Outputs(t, samples)[k + 1])
    decreases k
  {
    var next := Updated(t, samples[0]);
    FirstOutput(t, samples);
    FirstOutput(next, samples[1..]);
    LaterInRange(t.span, samples);
    LaterInRange(t.span, samples[1..]);
    hide Updated, Outputs, InRange, Within, AtMostHalf;
    if k == 0 {
      UpdateMovesAtMostHalf(next, samples[1]);
    } else {
      OutputStepsAreShort(next, samples[1..], k - 1);
    }
  }

  /** `track` agrees with the samples up to whole spans. */
  predicate Congruent(span: real, samples: seq<real>, track: seq<real>, shifts: seq<int>)
    requires |track| == |shifts| == |samples|
  {
    forall k :: 0 <= k < |track| ==> track[k] == samples[k] + Times(shifts[k] as real, span)
  }

  predicate Short(span: real, from: real, to: real) {
    -span / 2.0 < to - from < span / 2.0
  }

  function Previous(start: real, track: seq<real>, k: nat): real
    requires k <= |track|
  {
    if k == 0 then start else track[k - 1]
  }

  /** All steps, the one from `start` included, are strictly shorter than half a span. */
  predicate ShortSteps(span: real, start: real, track: seq<real>) {
    forall k :: 0 <= k < |track| ==> Short(span, Previous(start, track, k), track[k])
  }

  lemma LaterShortSteps(span: real, start: real, track: seq<real>)
    requires track != [] && ShortSteps(span, start, track)
    ensures Short(span, start, track[0])
    ensures ShortSteps(span, track[0], track[1..])
  {
    hide Short;
    assert Previous(start, track, 0) == start;
    forall k | 0 <= k < |track| - 1
      ensures Short(span, Previous(track[0], track[1..], k), track[1..][k])
    {
      assert Short(span, Previous(start, track, k + 1), track[k + 1]);
    }
  }

  lemma LaterCongruent(span: real, samples: seq<real>, track: seq<real>, shifts: seq<int>)
    requires |track| == |shifts| == |samples| && track != []
    requires Congruent(span, samples, track, shifts)
    ensures track[0] == samples[0] + Times(shifts[0] as real, span)
    ensures Congruent(span, samples[1..], track[1..], shifts[1..])
  {
    hide Times;
  }

  lemma LaterInRange(span: real, samples: seq<real>)
    requires samples != [] && InRange(span, samples)
    ensures Within(span, samples[0]) && InRange(span, samples[1..])
  {
    hide Within;
  }

  /** The number of spans in the offset after one more sample. */
  lemma OffsetAfter(t: Track, turns: int, wrapped: real) returns (now: int)
    requires t.offset == Times(turns as real, t.span)
    ensures Updated(t, wrapped).offset == Times(now as real, t.span)
  {
    Units(t.span);
    Distribute(turns as real, 1.0, t.span);
    var next := Updated(t, wrapped);
    now := if next.offset == t.offset then turns else if next.offset == t.offset - t.span then turns - 1 else turns + 1;
    hide Times;
    assert next.offset == Times(now as real, t.span);
  }

  /** Two moves to congruent values, one of at most half a span and one shorter, end in the same place. */
  lemma SameDestination(span: real, from: real, sample: real, a: int, b: int)
    requires span > 0.0
    requires AtMostHalf(span, from, sample + Times(a as real, span))
    requires Short(span, from, sample + Times(b as real, span))
    ensures a == b
  {
    hide Times;
    Distribute(b as real, a as real, span);
    assert b as real - a as real == (b - a) as real;
    SmallMultiple(b - a, span);
  }

  lemma {:induction false} ContinuationIsUnique(
      t: Track, turns: int, samples: seq<real>, track: seq<real>, shifts: seq<int>)
    requires t.span > 0.0 && t.last.Some? && Within(t.span, t.last.value) && InRange(t.span, samples)
    requires t.offset == Times(turns as real, t.span)
    requires |track| == |shifts| == |samples|
    requires Congruent(t.span, samples, track, shifts) && ShortSteps(t.span, PositionOf(t).value, track)
    ensures track == Outputs(t, samples)
    decreases |samples|
  {
    hide Times, Within, InRange, Congruent, ShortSteps, Short, Outputs, Updated;
    if samples == [] {
      NoOutputs(t);
    } else {
      var next := Updated(t, samples[0]);
      LaterInRange(t.span, samples);
      LaterCongruent(t.span, samples, track, shifts);
      LaterShortSteps(t.span, PositionOf(t).value, track);
      UpdateMovesAtMostHalf(t, samples[0]);
      var now := OffsetAfter(t, turns, samples[0]);
      SameDestination(t.span, PositionOf(t).value, samples[0], now, shifts[0]);
      FirstOutput(t, samples);
      ContinuationIsUnique(next, now, samples[1..], track[1..], shifts[1..]);
      assert track == [track[0]] + track[1..];
    }
  }

  lemma NoOutputs(t: Track)
    ensures Outputs(t, []) == []
  {
  }

  lemma FirstOutput(t: Track, samples: seq<real>)
    requires samples != []
    ensures
      var next := Updated(t, samples[0]);
      && Outputs(t, samples) == [samples[0] + next.offset] + Outputs(next, samples[1..])
      && next.span == t.span && next.last == Some(samples[0])
  {
    UpdatedParts(t, samples[0]);
    hide Updated;
  }

  lemma UpdatedParts(t: Track, wrapped: real)
    ensures Updated(t, wrapped).span == t.span && Updated(t, wrapped).last == Some(wrapped)
  {
  }

  /**
    * Among all tracks that start at the first sample, agree with the samples up to whole spans and
    * move by less than half a span at a time, the unwrapper's output is the only one.
    */
  lemma UnwrapIsUnique(span: real, samples: seq<real>, track: seq<real>, shifts: seq<int>)
    requires span > 0.0 && samples != [] && InRange(span, samples)
    requires |track| == |shifts| == |samples|
    requires Congruent(span, samples, track, shifts) && track[0] == samples[0]
    requires ShortSteps(span, samples[0], track)
    ensures track == Outputs(Fresh(span), samples)
  {
    hide Times, Within, InRange, Congruent, ShortSteps, Outputs;
    var next := Updated(Fresh(span), samples[0]);
    Units(span);
    LaterInRange(span, samples);
    LaterCongruent(span, samples, track, shifts);
    LaterShortSteps(span, samples[0], track);
    FirstOutput(Fresh(span), samples);
    ContinuationIsUnique(next, 0, samples[1..], track[1..], shifts[1..]);
    assert track == [track[0]] + track[1..];
  }
}
