/**
  * What the parser's output means on the byte stream itself: a greedy left-to-right tiling into
  * frames and rejected bytes, and how far damage to the stream can reach.
  */
module AtTiling {
  import opened Bytes
  import opened Can
  import opened AtFraming

  function Announced(s: seq<u8>, i: nat): nat {
    HEADER_SIZE + TAIL_SIZE + if i + 6 < |s| then s[i + 6] else 0
  }

  /** A complete well-formed frame occupies s[i..i + Announced(s, i)]. */
  predicate FrameAt(s: seq<u8>, i: nat) {
    var end := i + Announced(s, i);
    && i + HEADER_SIZE + TAIL_SIZE <= |s|
    && s[i] == LETTER_A && s[i + 1] == LETTER_T && s[i + 6] <= 8
    && end <= |s| && s[end - 2] == CR && s[end - 1] == LF
  }

  /** Enough bytes have arrived to know that no frame starts at i. */
  predicate Rejected(s: seq<u8>, i: nat) {
    && i + HEADER_SIZE + TAIL_SIZE <= |s|
    && (s[i] == LETTER_A && s[i + 1] == LETTER_T && s[i + 6] <= 8 ==> i + Announced(s, i) <= |s|)
    && !FrameAt(s, i)
  }

  predicate Framed(s: seq<u8>, starts: seq<nat>, i: nat) {
    exists k :: 0 <= k < |starts| && starts[k] <= i < starts[k] + Announced(s, starts[k])
  }

  /**
    * `starts` cuts s[from..stop] into disjoint, ordered, well-formed frames; every byte of it in no
    * frame is rejected, and the byte at `stop` is neither a frame start nor rejected.
    */
  predicate Tiling(s: seq<u8>, from: nat, starts: seq<nat>, stop: nat) {
    && from <= stop <= |s|
    && (forall k :: 0 <= k < |starts| ==>
          FrameAt(s, starts[k]) && from <= starts[k] && starts[k] + Announced(s, starts[k]) <= stop)
    && (forall j, k :: 0 <= j < k < |starts| ==> starts[j] + Announced(s, starts[j]) <= starts[k])
    && (forall i :: from <= i < stop && !Framed(s, starts, i) ==> Rejected(s, i))
    && !FrameAt(s, stop) && !Rejected(s, stop)
  }

  predicate AllTaken(s: seq<u8>, starts: seq<nat>) {
    forall k :: 0 <= k < |starts| ==> starts[k] <= |s| && Judge(s[starts[k]..]).Take?
  }

  function FramesAt(s: seq<u8>, starts: seq<nat>): seq<CanFrame>
    requires AllTaken(s, starts)
  {
    seq(|starts|, k requires 0 <= k < |starts| => Decoded(s[starts[k]..]))
  }

  /** The parser takes exactly the frames and skips exactly the rejected bytes. */
  lemma JudgeMeaning(s: seq<u8>, i: nat)
    requires i <= |s|
    ensures Judge(s[i..]).Take? <==> FrameAt(s, i)
    ensures Judge(s[i..]).Take? ==> Judge(s[i..]).size == Announced(s, i)
    ensures Judge(s[i..]).Skip? <==> Rejected(s, i)
  {
    var b := s[i..];
    assert forall j :: 0 <= j < |b| ==> b[j] == s[i + j];
  }

  /** A rejected byte starts no frame whatever bytes arrive later, and a frame stays a frame. */
  lemma DecisionsAreFinal(s: seq<u8>, more: seq<u8>, i: nat)
    ensures Rejected(s, i) ==> Rejected(s + more, i)
    ensures FrameAt(s, i) ==> FrameAt(s + more, i) && Announced(s + more, i) == Announced(s, i)
  {
    assert forall j :: 0 <= j < |s| ==> (s + more)[j] == s[j];
  }

  lemma FramedCons(s: seq<u8>, start: nat, starts: seq<nat>, i: nat)
    ensures Framed(s, [start] + starts, i) <==>
            start <= i < start + Announced(s, start) || Framed(s, starts, i)
  {
    var all := [start] + starts;
    if start <= i < start + Announced(s, start) {
      assert all[0] == start;
    } else if Framed(s, starts, i) {
      var k :| 0 <= k < |starts| && starts[k] <= i < starts[k] + Announced(s, starts[k]);
      assert all[k + 1] == starts[k];
    } else {
      assert forall k :: 0 < k < |all| ==> all[k] == starts[k - 1];
    }
  }

  lemma ExtendTiling(s: seq<u8>, from: nat, starts: seq<nat>, stop: nat)
    requires from < |s|
    requires FrameAt(s, from) ==> Tiling(s, from + Announced(s, from), starts, stop)
    requires Rejected(s, from) ==> Tiling(s, from + 1, starts, stop)
    requires FrameAt(s, from) || Rejected(s, from)
    ensures Tiling(s, from, if FrameAt(s, from) then [from] + starts else starts, stop)
  {
    hide FrameAt, Rejected, Framed, Announced;
    if FrameAt(s, from) {
      forall i | from <= i < stop && !Framed(s, [from] + starts, i)
        ensures Rejected(s, i)
      {
        FramedCons(s, from, starts, i);
      }
    }
  }

  lemma EmptyTiling(s: seq<u8>, from: nat)
    requires from <= |s| && !FrameAt(s, from) && !Rejected(s, from)
    ensures Tiling(s, from, [], from)
  {
  }

  lemma TilingFrames(s: seq<u8>, from: nat, starts: seq<nat>, stop: nat)
    requires Tiling(s, from, starts, stop)
    ensures stop <= |s| && AllTaken(s, starts)
    ensures Judge(s[stop..]) == NeedMore
  {
    JudgeMeaning(s, stop);
    forall k | 0 <= k < |starts|
      ensures starts[k] <= |s| && Judge(s[starts[k]..]).Take?
    {
      JudgeMeaning(s, starts[k]);
    }
  }

  lemma NoFramesAt(s: seq<u8>)
    ensures AllTaken(s, []) && FramesAt(s, []) == []
  {
  }

  lemma FramesAtCons(s: seq<u8>, from: nat, tail: seq<nat>)
    requires from <= |s| && Judge(s[from..]).Take?
    requires AllTaken(s, tail)
    ensures AllTaken(s, [from] + tail)
    ensures FramesAt(s, [from] + tail) == [Decoded(s[from..])] + FramesAt(s, tail)
  {
    hide Judge, Decoded;
  }

  /** One step of `Drain`, by position in the stream. */
  lemma DrainStep(s: seq<u8>, from: nat)
    requires from <= |s|
    ensures match Judge(s[from..])
            case NeedMore => Drain(s[from..]) == Drained([], s[from..])
            case Skip => from < |s| && Drain(s[from..]) == Drain(s[from + 1..])
            case Take(size) =>
              && 0 < size && from + size <= |s|
              && var tail := Drain(s[from + size..]);
              Drain(s[from..]) == Drained([Decoded(s[from..])] + tail.frames, tail.rest)
  {
    hide Judge, Decoded;
    match Judge(s[from..])
    case NeedMore =>
    case Skip => assert s[from..][1..] == s[from + 1..];
    case Take(size) => assert s[from..][size..] == s[from + size..];
  }

  /** The drained output is a tiling: the emitted frames are its slices, the leftover starts at its stop. */
  predicate DrainsAs(s: seq<u8>, from: nat, starts: seq<nat>, stop: nat) {
    && Tiling(s, from, starts, stop)
    && AllTaken(s, starts)
    && Drain(s[from..]) == Drained(FramesAt(s, starts), s[stop..])
  }

  lemma DrainsAsExtended(s: seq<u8>, from: nat, tail: seq<nat>, stop: nat)
    requires from <= |s|
    ensures !FrameAt(s, from) && !Rejected(s, from) ==> DrainsAs(s, from, [], from)
    ensures Rejected(s, from) && DrainsAs(s, from + 1, tail, stop) ==> DrainsAs(s, from, tail, stop)
    ensures FrameAt(s, from) && DrainsAs(s, from + Announced(s, from), tail, stop) ==>
        DrainsAs(s, from, [from] + tail, stop)
  {
    JudgeMeaning(s, from);
    DrainStep(s, from);
    hide Judge, Decoded, Drain, Tiling, FrameAt, Rejected, FramesAt, AllTaken, Announced;
    if FrameAt(s, from) {
      if DrainsAs(s, from + Announced(s, from), tail, stop) {
        ExtendTiling(s, from, tail, stop);
        FramesAtCons(s, from, tail);
      }
    } else if Rejected(s, from) {
      if DrainsAs(s, from + 1, tail, stop) {
        ExtendTiling(s, from, tail, stop);
      }
    } else {
      EmptyTiling(s, from);
      NoFramesAt(s);
    }
  }

  lemma {:induction false} DrainIsTiling(s: seq<u8>, from: nat) returns (starts: seq<nat>, stop: nat)
    requires from <= |s|
    ensures DrainsAs(s, from, starts, stop)
    decreases |s| - from
  {
    JudgeMeaning(s, from);
    hide *;
    if FrameAt(s, from) {
      assert Judge(s[from..]).Take?;
      starts, stop := DrainIsTiling(s, from + Announced(s, from));
      DrainsAsExtended(s, from, starts, stop);
      starts := [from] + starts;
    } else if Rejected(s, from) {
      assert Judge(s[from..]).Skip?;
      starts, stop := DrainIsTiling(s, from + 1);
      DrainsAsExtended(s, from, starts, stop);
    } else {
      starts, stop := [], from;
      DrainsAsExtended(s, from, starts, stop);
    }
  }

  lemma LaterStart(s: seq<u8>, from: nat, starts: seq<nat>, stop: nat, k: nat)
    requires Tiling(s, from, starts, stop) && 0 < k < |starts|
    ensures from < starts[k]
  {
    assert from <= starts[0] && starts[0] + Announced(s, starts[0]) <= starts[k];
    assert Announced(s, starts[0]) > 0;
  }

  lemma FramesTakeRoom(s: seq<u8>, from: nat, starts: seq<nat>, stop: nat)
    requires Tiling(s, from, starts, stop)
    ensures starts != [] ==> from < stop
  {
    if starts != [] {
      assert FrameAt(s, starts[0]) && from <= starts[0];
    }
  }

  lemma TilingHead(s: seq<u8>, from: nat, starts: seq<nat>, stop: nat)
    requires Tiling(s, from, starts, stop)
    ensures FrameAt(s, from) ==>
              && from < from + Announced(s, from) <= |s| && starts != [] && starts[0] == from
              && Tiling(s, from + Announced(s, from), starts[1..], stop)
    ensures Rejected(s, from) ==> from < |s| && Tiling(s, from + 1, starts, stop)
    ensures !FrameAt(s, from) && !Rejected(s, from) ==> stop == from && starts == []
  {
    if FrameAt(s, from) {
      assert Framed(s, starts, from);
      var k :| 0 <= k < |starts| && starts[k] <= from < starts[k] + Announced(s, starts[k]);
      forall j | 0 < j < |starts|
        ensures from < starts[j]
      {
        LaterStart(s, from, starts, stop, j);
      }
      assert k == 0;
      var tail := starts[1..];
      assert starts == [from] + tail;
      forall i | from + Announced(s, from) <= i < stop && !Framed(s, tail, i)
        ensures Rejected(s, i)
      {
        FramedCons(s, from, tail, i);
      }
    } else if Rejected(s, from) {
      assert forall k :: 0 <= k < |starts| ==> starts[k] != from;
    } else {
      assert from < stop ==> !Framed(s, starts, from);
      FramesTakeRoom(s, from, starts, stop);
    }
  }

  /** There is only one greedy tiling of a stream. */
  lemma {:induction false} TilingIsUnique(s: seq<u8>, from: nat, a: seq<nat>, p: nat, b: seq<nat>, q: nat)
    requires Tiling(s, from, a, p) && Tiling(s, from, b, q)
    ensures a == b && p == q
    decreases |s| - from
  {
    TilingHead(s, from, a, p);
    TilingHead(s, from, b, q);
    hide Tiling, Rejected, FrameAt, Announced;
    if FrameAt(s, from) {
      TilingIsUnique(s, from + Announced(s, from), a[1..], p, b[1..], q);
      assert a == [a[0]] + a[1..] && b == [b[0]] + b[1..];
    } else if Rejected(s, from) {
      TilingIsUnique(s, from + 1, a, p, b, q);
    }
  }

  /** Any tiling of the whole stream, however found, tells what the parser delivers and keeps. */
  lemma {:induction false} TilingDecidesDrain(s: seq<u8>, starts: seq<nat>, stop: nat)
    requires Tiling(s, 0, starts, stop)
    ensures AllTaken(s, starts)
    ensures Drain(s) == Drained(FramesAt(s, starts), s[stop..])
    ensures |s| - stop <= MAX_PENDING
  {
    assert s[0..] == s;
    var found, end := DrainIsTiling(s, 0);
    TilingIsUnique(s, 0, starts, stop, found, end);
    TilingFrames(s, 0, starts, stop);
  }

  // --------------------------------------------------------- resynchronisation

  /** A full frame whose encoding contains the pair "AT" only at its start. */
  predicate Clean(frame: CanFrame) {
    && Full(frame)
    && var e := Encoded(frame); forall j :: 1 <= j < |e| - 1 ==> !(e[j] == LETTER_A && e[j + 1] == LETTER_T)
  }

  predicate AllClean(frames: seq<CanFrame>)
  {
    forall i :: 0 <= i < |frames| ==> Clean(frames[i])
  }

  predicate HasPair(s: seq<u8>) {
    exists i :: 0 <= i < |s| - 1 && s[i] == LETTER_A && s[i + 1] == LETTER_T
  }

  predicate EndsWith<T(==)>(whole: seq<T>, suffix: seq<T>) {
    |suffix| <= |whole| && whole[|whole| - |suffix|..] == suffix
  }

  lemma EndsWithCons<T>(x: T, whole: seq<T>, suffix: seq<T>)
    requires EndsWith(whole, suffix)
    ensures EndsWith([x] + whole, suffix)
  {
    assert ([x] + whole)[|whole| + 1 - |suffix|..] == whole[|whole| - |suffix|..];
  }

  lemma DropOfSum(a: seq<u8>, b: seq<u8>, c: seq<u8>, n: nat)
    requires n <= |a + b|
    ensures (a + (b + c))[n..] == if n <= |a| then a[n..] + (b + c) else b[n - |a|..] + c
  {
  }

  lemma CleanIsFull(frames: seq<CanFrame>)
    requires AllClean(frames)
    ensures AllFull(frames)
    ensures frames != [] ==> AllClean(frames[1..]) && AllFull(frames[1..])
    ensures frames != [] ==> EncodedAll(frames) == Encoded(frames[0]) + EncodedAll(frames[1..])
                             && |Encoded(frames[0])| == 17
                             && Encoded(frames[0])[0] == LETTER_A && Encoded(frames[0])[16] == LF
  {
    if frames != [] {
      assert Clean(frames[0]);
    }
  }

  /** Entering a clean frame in its middle costs that frame only. */
  lemma {:induction false} SkipBrokenFrame(frame: CanFrame, at: nat, frames: seq<CanFrame>)
    requires Clean(frame) && 1 <= at <= 17 && AllClean(frames) && frames != []
    ensures AllFull(frames)
    ensures Drain(Encoded(frame)[at..] + EncodedAll(frames)) == Drained(frames, [])
    decreases 17 - at
  {
    CleanIsFull(frames);
    CleanIsFull([frame]);
    var e := Encoded(frame);
    var b := e[at..] + EncodedAll(frames);
    hide Encoded, EncodedAll, Decoded;
    if at == 17 {
      assert b == EncodedAll(frames);
      DrainEncodedAll(frames);
    } else {
      assert b[0] == e[at] && (at < 16 ==> b[1] == e[at + 1]);
      assert b[1..] == e[at + 1..] + EncodedAll(frames);
      SkipBrokenFrame(frame, at + 1, frames);
    }
  }

  /** Every frame from the second on comes out, in order, as the last output; with a second one nothing stays behind. */
  predicate Recovers(d: Drained, frames: seq<CanFrame>)
    requires frames != []
  {
    EndsWith(d.frames, frames[1..]) && (|frames| > 1 ==> d.rest == [])
  }

  lemma RecoversCons(frame: CanFrame, d: Drained, frames: seq<CanFrame>)
    requires frames != [] && Recovers(d, frames)
    ensures Recovers(Drained([frame] + d.frames, d.rest), frames)
  {
    EndsWithCons(frame, d.frames, frames[1..]);
  }

  lemma RecoversWhole(frames: seq<CanFrame>)
    requires frames != []
    ensures Recovers(Drained(frames, []), frames)
    ensures Recovers(Drained(frames[1..], []), frames)
  {
  }

  /** A parser that enters the first frame in its middle. */
  lemma EnteredInside(at: nat, frames: seq<CanFrame>)
    requires AllClean(frames) && frames != [] && 1 <= at <= 17
    ensures AllFull(frames) && AllFull(frames[1..]) && |Encoded(frames[0])| == 17
    ensures Recovers(Drain(Encoded(frames[0])[at..] + EncodedAll(frames[1..])), frames)
  {
    CleanIsFull(frames);
    if |frames| > 1 {
      SkipBrokenFrame(frames[0], at, frames[1..]);
      RecoversWhole(frames);
    }
  }

  /** After any garbage at most the first of a run of clean frames is lost. */
  lemma {:induction false} Resynchronisation(garbage: seq<u8>, frames: seq<CanFrame>)
    requires AllClean(frames) && frames != []
    ensures AllFull(frames)
    ensures Recovers(Drain(garbage + EncodedAll(frames)), frames)
    decreases |garbage|
  {
    CleanIsFull(frames);
    var first, others := Encoded(frames[0]), EncodedAll(frames[1..]);
    var b := garbage + (first + others);
    DrainHead(b);
    hide *;
    if garbage == [] {
      assert b == first + others;
      DrainEncodedAll(frames);
      RecoversWhole(frames);
    } else if Judge(b).Skip? {
      DropOfSum(garbage, first, others, 1);
      Resynchronisation(garbage[1..], frames);
    } else if Judge(b).Take? {
      var size := Judge(b).size;
      DropOfSum(garbage, first, others, size);
      if size <= |garbage| {
        Resynchronisation(garbage[size..], frames);
      } else {
        EnteredInside(size - |garbage|, frames);
      }
      RecoversCons(Decoded(b), Drain(b[size..]), frames);
    }
  }

  /** Garbage without the pair "AT" costs nothing and adds nothing. */
  lemma {:induction false} HarmlessGarbage(garbage: seq<u8>, frames: seq<CanFrame>)
    requires AllClean(frames) && frames != [] && !HasPair(garbage)
    ensures AllFull(frames)
    ensures Drain(garbage + EncodedAll(frames)) == Drained(frames, [])
    decreases |garbage|
  {
    CleanIsFull(frames);
    var stream := EncodedAll(frames);
    var b := garbage + stream;
    if garbage == [] {
      assert b == stream;
      DrainEncodedAll(frames);
    } else {
      hide Encoded, EncodedAll, Decoded;
      assert b[0] == garbage[0];
      assert b[1] == if |garbage| > 1 then garbage[1] else stream[0];
      assert b[1..] == garbage[1..] + stream;
      forall i | 0 <= i < |garbage| - 2
        ensures !(garbage[1..][i] == LETTER_A && garbage[1..][i + 1] == LETTER_T)
      {
        assert garbage[1..][i] == garbage[i + 1] && garbage[1..][i + 1] == garbage[i + 1 + 1];
      }
      HarmlessGarbage(garbage[1..], frames);
    }
  }
}
