/**
  * Drift-free tracking: a true position is wrapped, quantised to 16 bits, decoded and unwrapped
  * again. Counted in code steps, everything but the rounding is integer arithmetic.
  */
module Tracking {
  import opened Bytes
  import opened RealFacts
  import opened Scaling
  import opened Protocol
  import opened PositionUnwrapping

  /** What the host decodes when the motor is at continuous position p. */
  function Reported(p: real, limit: real): real
    requires limit > 0.0
  {
    Quantised(Remainder(p, 2.0 * limit), limit)
  }

  function Reports(ps: seq<real>, limit: real): (r: seq<real>)
    requires limit > 0.0
    ensures |r| == |ps|
  {
    if ps == [] then [] else [Reported(ps[0], limit)] + Reports(ps[1..], limit)
  }

  function Step(limit: real): real
    requires limit > 0.0
  {
    Lsb(-limit, limit)
  }

  /** The code of p on the unwrapped line: codes go on counting past either end of the range. */
  function LineCode(p: real, limit: real): int
    requires limit > 0.0 && Step(limit) > 0.0
  {
    (Over(p + limit, Step(limit)) + 0.5).Floor
  }

  lemma StepFacts(limit: real)
    requires limit > 0.0
    ensures Step(limit) > 0.0
    ensures Times(65535.0, Step(limit)) == 2.0 * limit
    ensures Times(32767.5, Step(limit)) == limit && Times(-32767.5, Step(limit)) == -limit
  {
    LsbFacts(-limit, limit, 16);
    WidthBound(16);
    hide Lsb, TopCode;
  }

  lemma TimesTimes(k: int, n: int, s: real)
    ensures Times(k as real, Times(n as real, s)) == Times((k * n) as real, s)
  {
    assert (k * n) as real == k as real * n as real;
  }

  /** Adding the wraps removed by the remainder to the transmitted code gives the code on the line. */
  lemma {:induction false} CodeOnLine(p: real, limit: real)
    requires limit > 0.0
    ensures Step(limit) > 0.0
    ensures FloatToUint(Remainder(p, 2.0 * limit), -limit, limit) as int + 65535 * Turns(p, 2.0 * limit)
        == LineCode(p, limit)
  {
    var s, n := Step(limit), Turns(p, 2.0 * limit);
    var w := Remainder(p, 2.0 * limit);
    assert w == p - Times(n as real, 2.0 * limit);
    StepFacts(limit);
    RemainderBound(p, 2.0 * limit);
    ScaledValue(w, -limit, limit, 16);
    CodeValue(w, -limit, limit, 16);
    hide Times, Over, Lsb, Scaled, FloatToUint, TopCode, Remainder, Turns;
    var u, x := Scaled(w, -limit, limit, 16), Over(p + limit, s);
    Cancel(p + limit, s);
    TimesTimes(n, 65535, s);
    Distribute(x, (n * 65535) as real, s);
    Ordered(u, x - (n * 65535) as real, s);
    assert u + 0.5 == x + 0.5 - (n * 65535) as real;
  }

  /** The reported value lies on the grid of the line, whole spans apart. */
  lemma ReportedOnLine(p: real, limit: real)
    requires limit > 0.0
    ensures Step(limit) > 0.0
    ensures Reported(p, limit) == Times(LineCode(p, limit) as real, Step(limit)) - limit
          - Times(Turns(p, 2.0 * limit) as real, 2.0 * limit)
    ensures Reported(p, limit) == Times((LineCode(p, limit) - 65535 * Turns(p, 2.0 * limit)) as real,
        Step(limit)) - limit
    ensures 0 <= LineCode(p, limit) - 65535 * Turns(p, 2.0 * limit) <= 65535
  {
    var s, n := Step(limit), Turns(p, 2.0 * limit);
    CodeOnLine(p, limit);
    var code := FloatToUint(Remainder(p, 2.0 * limit), -limit, limit);
    DecodedValue(code, -limit, limit, 16);
    StepFacts(limit);
    hide Times, Over, Lsb, FloatToUint, UintToFloat, Remainder, Turns, LineCode;
    TimesTimes(n, 65535, s);
    Distribute(LineCode(p, limit) as real, (n * 65535) as real, s);
    assert (LineCode(p, limit) - 65535 * n) as real == LineCode(p, limit) as real - (n * 65535) as real;
  }

  /** Rounding to the line is within half a step, and above the position at a tie. */
  lemma LineError(p: real, limit: real)
    requires limit > 0.0
    ensures Step(limit) > 0.0
    ensures -Step(limit) / 2.0 < Times(LineCode(p, limit) as real, Step(limit)) - limit - p <= Step(limit) / 2.0
  {
    var s := Step(limit);
    StepFacts(limit);
    var x, line := Over(p + limit, s), LineCode(p, limit);
    assert -0.5 < line as real - x <= 0.5;
    hide Times, Over, Lsb, LineCode;
    Cancel(p + limit, s);
    Distribute(line as real, x, s);
    Units(s);
    Ordered(-0.5, line as real - x, s);
    Ordered(0.5, line as real - x, s);
  }

  /** Motion of at most 32767 steps changes the line code by at most 32767. */
  lemma LineStep(p: real, q: real, limit: real)
    requires limit > 0.0
    requires -Times(32767.0, Step(limit)) <= q - p <= Times(32767.0, Step(limit))
    ensures Step(limit) > 0.0
    ensures -32767 <= LineCode(q, limit) - LineCode(p, limit) <= 32767
  {
    var s := Step(limit);
    StepFacts(limit);
    var x, y := Over(p + limit, s), Over(q + limit, s);
    assert y - x <= 32767.0 && x - y <= 32767.0 by {
      hide Times, Over, Lsb;
      Cancel(p + limit, s);
      Cancel(q + limit, s);
      Distribute(y, x, s);
      Distribute(x, y, s);
      Ordered(32767.0, y - x, s);
      Ordered(32767.0, x - y, s);
    }
  }

  /** A track that last saw the report of p and whose offset is a whole number of spans. */
  predicate Follows(t: Track, p: real, turns: int, limit: real)
    requires limit > 0.0
  {
    && t.span == 2.0 * limit
    && t.last == Some(Reported(p, limit))
    && t.offset == Times(turns as real, t.span)
  }

  /** In code steps: which way the wrap test of the unwrapper goes. */
  lemma WrapTest(a: int, b: int, limit: real)
    requires limit > 0.0
    ensures
      var s := Step(limit);
      var delta := (Times(b as real, s) - limit) - (Times(a as real, s) - limit);
      (delta > limit <==> b - a > 32767) && (delta < -limit <==> b - a < -32767)
  {
    var s := Step(limit);
    StepFacts(limit);
    hide Times, Lsb;
    Distribute(b as real, a as real, s);
    Ordered(32767.5, b as real - a as real, s);
    Ordered(b as real - a as real, -32767.5, s);
  }

  /** The codes of p and q on the line are at most 32767 apart. */
  predicate CodesClose(p: real, q: real, limit: real)
    requires limit > 0.0
  {
    StepFacts(limit);
    -32767 <= LineCode(q, limit) - LineCode(p, limit) <= 32767
  }

  /**
    * One update shifts the offset by a whole number of spans, and counts exactly the wraps the
    * remainder removed if and only if the codes on the line are at most 32767 apart.
    */
  lemma {:induction false} FollowStep(t: Track, p: real, q: real, turns: int, limit: real) returns (shift: int)
    requires limit > 0.0 && Follows(t, p, turns, limit)
    ensures Follows(Updated(t, Reported(q, limit)), q, turns + shift, limit)
    ensures shift == Turns(q, 2.0 * limit) - Turns(p, 2.0 * limit) <==> CodesClose(p, q, limit)
  {
    hide Times, Step, LineCode, Turns, Reported;
    var m, n := Turns(p, 2.0 * limit), Turns(q, 2.0 * limit);
    ReportedOnLine(p, limit);
    ReportedOnLine(q, limit);
    var a, b := LineCode(p, limit) - 65535 * m, LineCode(q, limit) - 65535 * n;
    WrapTest(a, b, limit);
    Units(2.0 * limit);
    Distribute(turns as real, 1.0, 2.0 * limit);
    shift := if b - a > 32767 then -1 else if b - a < -32767 then 1 else 0;
    assert Updated(t, Reported(q, limit)).offset == Times((turns + shift) as real, 2.0 * limit);
  }

  predicate SmallSteps(ps: seq<real>, limit: real)
    requires limit > 0.0
  {
    forall k :: 0 < k < |ps| ==> -Times(32767.0, Step(limit)) <= ps[k] - ps[k - 1] <= Times(32767.0, Step(limit))
  }

  predicate CloseCodes(ps: seq<real>, limit: real)
    requires limit > 0.0
  {
    forall k :: 0 < k < |ps| ==> CodesClose(ps[k - 1], ps[k], limit)
  }

  lemma SmallStepsAreClose(ps: seq<real>, limit: real)
    requires limit > 0.0 && SmallSteps(ps, limit)
    ensures CloseCodes(ps, limit)
  {
    hide Times, Step, LineCode;
    forall k | 0 < k < |ps|
      ensures CodesClose(ps[k - 1], ps[k], limit)
    {
      LineStep(ps[k - 1], ps[k], limit);
    }
  }

  /** x is the position p plus `turns` spans, within half a step. */
  predicate Near(x: real, p: real, turns: int, limit: real)
    requires limit > 0.0
  {
    -Step(limit) / 2.0 < x - (p + Times(turns as real, 2.0 * limit)) <= Step(limit) / 2.0
  }

  /** Every output is the true position plus the same whole number of spans, within half a step. */
  predicate Tracks(out: seq<real>, ps: seq<real>, turns: int, limit: real)
    requires limit > 0.0
  {
    |out| == |ps| && forall k :: 0 <= k < |ps| ==> Near(out[k], ps[k], turns, limit)
  }

  /** What a following track returns is near for the turns it has counted, and for no other number. */
  lemma FollowedOutput(t: Track, p: real, turns: int, other: int, limit: real)
    requires limit > 0.0 && Follows(t, p, turns, limit)
    ensures Near(Reported(p, limit) + t.offset, p, other, limit) <==> other == turns - Turns(p, 2.0 * limit)
  {
    ReportedOnLine(p, limit);
    LineError(p, limit);
    StepFacts(limit);
    hide Times, Lsb, LineCode, Turns, Reported;
    var count, n := turns - Turns(p, 2.0 * limit), other;
    Distribute(turns as real, Turns(p, 2.0 * limit) as real, 2.0 * limit);
    assert count as real == turns as real - Turns(p, 2.0 * limit) as real;
    Distribute(count as real, n as real, 2.0 * limit);
    assert (count - n) as real == count as real - n as real;
    Units(Step(limit));
    Ordered(65535.0, 1.0, Step(limit));
    if Near(Reported(p, limit) + t.offset, p, n, limit) {
      SmallMultiple(count - n, 2.0 * limit);
    }
  }

  lemma {:induction false} TrackingContinues(t: Track, p: real, turns: int, ps: seq<real>, limit: real)
    requires limit > 0.0 && Follows(t, p, turns, limit)
    ensures Tracks(Outputs(t, Reports(ps, limit)), ps, turns - Turns(p, 2.0 * limit), limit)
      <==> CloseCodes([p] + ps, limit)
    decreases |ps|
  {
    hide Times, Step, Turns, Reported, Updated, CloseCodes, Tracks, Near, CodesClose;
    var count := turns - Turns(p, 2.0 * limit);
    if ps == [] {
      NothingTracks(p, count, limit);
    } else {
      var q := ps[0];
      var shift := FollowStep(t, p, q, turns, limit);
      var next := Updated(t, Reported(q, limit));
      FollowedOutput(next, q, turns + shift, count, limit);
      TrackingContinues(next, q, turns + shift, ps[1..], limit);
      TracksCons(ps, Outputs(t, Reports(ps, limit)), count, limit);
      CloseCodesCons(p, ps, limit);
    }
  }

  lemma CloseCodesCons(p: real, ps: seq<real>, limit: real)
    requires limit > 0.0 && ps != []
    ensures CloseCodes([p] + ps, limit) <==> CodesClose(p, ps[0], limit) && CloseCodes([ps[0]] + ps[1..], limit)
  {
    hide CodesClose;
    var all := [p] + ps;
    assert all[1..] == ps == [ps[0]] + ps[1..];
    assert forall k :: 0 < k < |ps| ==> ps[k - 1] == all[k] && ps[k] == all[k + 1];
    if CloseCodes(ps, limit) && CodesClose(p, ps[0], limit) {
      forall k | 0 < k < |all|
        ensures CodesClose(all[k - 1], all[k], limit)
      {
        assert k > 1 ==> CodesClose(ps[k - 2], ps[k - 1], limit);
      }
    }
    if CloseCodes(all, limit) {
      assert CodesClose(all[0], all[1], limit);
      forall k | 0 < k < |ps|
        ensures CodesClose(ps[k - 1], ps[k], limit)
      {
        assert CodesClose(all[k], all[k + 1], limit);
      }
    }
  }

  /**
    * Exactly which runs are followed: the unwrapped reports are the true positions, offset by one
    * fixed number of spans, if and only if successive codes on the line differ by at most 32767.
    */
  lemma {:induction false} TrackingIsExact(ps: seq<real>, limit: real)
    requires limit > 0.0 && ps != []
    ensures Tracks(Outputs(Fresh(2.0 * limit), Reports(ps, limit)), ps, -Turns(ps[0], 2.0 * limit), limit)
      <==> CloseCodes(ps, limit)
  {
    hide Times, Step, Turns, Reported, CloseCodes, Tracks, Near;
    var count := -Turns(ps[0], 2.0 * limit);
    var first := Updated(Fresh(2.0 * limit), Reported(ps[0], limit));
    Units(2.0 * limit);
    assert [ps[0]] + ps[1..] == ps;
    FollowedOutput(first, ps[0], 0, count, limit);
    TrackingContinues(first, ps[0], 0, ps[1..], limit);
    TracksCons(ps, Outputs(Fresh(2.0 * limit), Reports(ps, limit)), count, limit);
  }

  /**
    * If successive true positions differ by at most 32767 code steps (half the span less half a
    * step), the unwrapped reports follow them for ever, offset by one fixed number of spans.
    */
  lemma {:induction false} TrackingIsDriftFree(ps: seq<real>, limit: real)
    requires limit > 0.0 && ps != [] && SmallSteps(ps, limit)
    ensures Tracks(Outputs(Fresh(2.0 * limit), Reports(ps, limit)), ps, -Turns(ps[0], 2.0 * limit), limit)
  {
    hide *;
    SmallStepsAreClose(ps, limit);
    TrackingIsExact(ps, limit);
  }

  lemma NothingTracks(p: real, turns: int, limit: real)
    requires limit > 0.0
    ensures Tracks([], [], turns, limit) && CloseCodes([p] + [], limit)
  {
  }

  lemma TracksCons(ps: seq<real>, out: seq<real>, turns: int, limit: real)
    requires limit > 0.0 && ps != [] && |out| == |ps|
    ensures Tracks(out, ps, turns, limit)
      <==> Near(out[0], ps[0], turns, limit) && Tracks(out[1..], ps[1..], turns, limit)
  {
    hide Near;
    assert forall k :: 0 <= k < |ps| - 1 ==> out[1..][k] == out[k + 1] && ps[1..][k] == ps[k + 1];
    if Tracks(out[1..], ps[1..], turns, limit) && Near(out[0], ps[0], turns, limit) {
      forall k | 0 <= k < |ps|
        ensures Near(out[k], ps[k], turns, limit)
      {
        assert k > 0 ==> Near(out[1..][k - 1], ps[1..][k - 1], turns, limit);
      }
    }
  }

  lemma NoTurns(p: real, limit: real)
    requires limit > 0.0 && -limit < p < limit
    ensures Turns(p, 2.0 * limit) == 0
  {
    Units(2.0 * limit);
    hide Times, Turns;
    RemainderUnique(p, 2.0 * limit, 0);
  }

  lemma LineCodeAt(p: real, x: real, limit: real)
    requires limit > 0.0 && p == Times(x, Step(limit)) - limit
    ensures Step(limit) > 0.0 && LineCode(p, limit) == (x + 0.5).Floor
  {
    var s := Step(limit);
    StepFacts(limit);
    hide Times, Over, Lsb;
    Cancel(p + limit, s);
    Ordered(Over(p + limit, s), x, s);
  }

  /**
    * The bound is sharp in both directions: between some two positions any longer step below half
    * a span is taken the wrong way round, upwards and downwards.
    */
  lemma {:induction false} LongerStepsAreMistaken(step: real, limit: real) returns (p: real)
    requires limit > 0.0 && Times(32767.0, Step(limit)) < step < limit
    ensures Near(Outputs(Fresh(2.0 * limit), Reports([p, p + step], limit))[1], p + step, -1, limit)
    ensures Near(Outputs(Fresh(2.0 * limit), Reports([p + step, p], limit))[1], p, 1, limit)
    ensures Turns(p, 2.0 * limit) == 0 && Turns(p + step, 2.0 * limit) == 0
    ensures !CodesClose(p, p + step, limit)
  {
    hide Times, Over, Step, LineCode, Turns, Reported, Reports, Outputs;
    var s := Step(limit);
    StepFacts(limit);
    var excess := Over(step, s) - 32767.0;
    var x := 0.5 - excess / 2.0;
    p := Times(x, s) - limit;
    var q := p + step;
    var y := x + 32767.0 + excess;
    assert 0.0 < excess < 0.5 && q == Times(y, s) - limit && -limit < p && p < limit && -limit < q && q < limit by {
      Cancel(step, s);
      Ordered(32767.0, Over(step, s), s);
      Ordered(Over(step, s), 32767.5, s);
      Distribute(x, 32767.0 + excess, s);
      Units(s);
      Ordered(0.0, x, s);
      Ordered(x, 65535.0, s);
      Ordered(0.0, y, s);
      Ordered(y, 65535.0, s);
    }
    LineCodeAt(p, x, limit);
    LineCodeAt(q, y, limit);
    NoTurns(p, limit);
    NoTurns(q, limit);
    MistakenStep(p, q, limit);
    MistakenStep(q, p, limit);
  }

  /** Two positions inside the range whose codes are further apart are taken to be a span closer. */
  lemma MistakenStep(p: real, q: real, limit: real)
    requires limit > 0.0 && Step(limit) > 0.0
    requires Turns(p, 2.0 * limit) == 0 && Turns(q, 2.0 * limit) == 0
    ensures LineCode(q, limit) - LineCode(p, limit) == 32768 ==>
              Near(Outputs(Fresh(2.0 * limit), Reports([p, q], limit))[1], q, -1, limit)
    ensures LineCode(q, limit) - LineCode(p, limit) == -32768 ==>
              Near(Outputs(Fresh(2.0 * limit), Reports([p, q], limit))[1], q, 1, limit)
  {
    hide Times, Step, LineCode, Turns, Reported, Reports, Outputs;
    ReportedOnLine(p, limit);
    ReportedOnLine(q, limit);
    LineError(q, limit);
    WrapTest(LineCode(p, limit), LineCode(q, limit), limit);
    Units(2.0 * limit);
    TwoOutputs(p, q, limit);
  }

  lemma TwoOutputs(p: real, q: real, limit: real)
    requires limit > 0.0
    ensures
      var first := Updated(Fresh(2.0 * limit), Reported(p, limit));
      var second := Updated(first, Reported(q, limit));
      Outputs(Fresh(2.0 * limit), Reports([p, q], limit))
          == [Reported(p, limit) + first.offset, Reported(q, limit) + second.offset]
  {
    hide Reported, Updated;
    assert [p, q][1..] == [q];
    var samples := Reports([p, q], limit);
    assert [q][1..] == [];
    assert Reports([q], limit) == [Reported(q, limit)];
    assert samples[1..] == [Reported(q, limit)];
  }
}
