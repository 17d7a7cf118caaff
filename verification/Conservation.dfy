/** What no run over the simulator loses or invents, whatever its deadlines: commands, states and responses. */
module Conservation {
  import opened Bytes
  import opened Can
  import opened Protocol
  import opened Stub
  import opened StubTrace
  import opened Driver
  import opened Fleet

  /**
    * The simulator is where the commands sent so far put it, and its responses to them are those
    * received so far followed by those still queued.
    */
  predicate Conserved(limits: Limits, clock: nat -> real, link: Link<World>) {
    var ran := Run(limits, NEW_STUB, HistoryOf(link.log, clock));
    && link.state.sends == |HistoryOf(link.log, clock)|
    && link.state.stub == ran.(responses := link.state.stub.responses)
    && HeardIn(link.log) + link.state.stub.responses == ran.responses
  }

  /** Lockstep is conservation with nothing queued and every frame sent answered at once. */
  lemma InStepIsConserved(limits: Limits, clock: nat -> real, link: Link<World>)
    ensures InStep(limits, clock, link)
      <==> Conserved(limits, clock, link) && link.state.stub.responses == [] && Alternates(link.log)
  {
    hide Run, HistoryOf, HeardIn, Alternates;
    assert HeardIn(link.log) + [] == HeardIn(link.log);
  }

  lemma LogGrows(log: seq<Entry>, clock: nat -> real, frame: CanFrame)
    ensures
      var before := HistoryOf(log, clock);
      HistoryOf(log + [SentOut(frame)], clock) == before + [Event(clock(|before|), Command(frame))]
    ensures HeardIn(log + [SentOut(frame)]) == HeardIn(log)
    ensures HistoryOf(log + [Got(frame)], clock) == HistoryOf(log, clock)
    ensures HeardIn(log + [Got(frame)]) == HeardIn(log) + [frame]
  {
    SnocParts(log, SentOut(frame));
    SnocParts(log, Got(frame));
  }

  lemma SubmitConserves(
    limits: Limits, clock: nat -> real, patience: nat -> nat, link: Link<World>, frame: CanFrame)
    requires Conserved(limits, clock, link)
    ensures
      var (next, ok) := Submitted(StubPort(limits, clock, patience), link, frame);
      ok && Conserved(limits, clock, next)
  {
    hide Run, HistoryOf, HeardIn, Effect, Response, Supported, TargetOf, Stub.Sent;
    var events := HistoryOf(link.log, clock);
    var ran := Run(limits, NEW_STUB, events);
    var now := clock(|events|);
    LogGrows(link.log, clock, frame);
    RunSnoc(limits, NEW_STUB, events, Event(now, Command(frame)));
    SentAddsToQueue(limits, ran, frame, now);
    SentAddsToQueue(limits, link.state.stub, frame, now);
    var own := Stub.Sent(limits, ran.(responses := []), frame, now).responses;
    assert HeardIn(link.log) + link.state.stub.responses + own
        == HeardIn(link.log) + (link.state.stub.responses + own);
  }

  lemma ListenConserves(limits: Limits, clock: nat -> real, patience: nat -> nat, link: Link<World>)
    requires Conserved(limits, clock, link)
    ensures
      var (next, heard) := Listened(StubPort(limits, clock, patience), link);
      && !heard.Broken? && Conserved(limits, clock, next)
      && (heard.Silence? <==> link.state.stub.responses == [])
  {
    hide Run, HistoryOf, HeardIn;
    var queue := link.state.stub.responses;
    if queue == [] {
      assert link.log + [] == link.log;
    } else {
      LogGrows(link.log, clock, queue[0]);
      assert HeardIn(link.log) + [queue[0]] + queue[1..] == HeardIn(link.log) + queue;
    }
  }

  lemma {:induction false} AwaitConserves(
    limits: Limits, clock: nat -> real, patience: nat -> nat, config: Config, cache: Option<Feedback>,
    link: Link<World>, expected: u8, passes: nat)
    requires Conserved(limits, clock, link)
    ensures Conserved(
      limits, clock, Await(StubPort(limits, clock, patience), config, cache, link, expected, passes).link)
    decreases passes
  {
    hide Conserved, StubPort, SourceOf, CommTypeOf, Cached, Listened;
    if passes > 0 {
      ListenConserves(limits, clock, patience, link);
      var (next, heard) := Listened(StubPort(limits, clock, patience), link);
      if heard.Frame? {
        AwaitConserves(limits, clock, patience, config, cache, next, expected, passes - 1);
        AwaitConserves(limits, clock, patience, config, Cached(config, cache, heard.frame), next, expected, passes - 1);
      }
    }
  }

  lemma {:induction false} PerformedConserves(
    limits: Limits, clock: nat -> real, patience: nat -> nat, config: Config, cache: Option<Feedback>,
    link: Link<World>, steps: seq<Exchange>)
    requires steps != [] && Conserved(limits, clock, link)
    ensures Conserved(
      limits, clock, Performed(StubPort(limits, clock, patience), config, cache, link, steps).link)
    decreases |steps|
  {
    hide Conserved, StubPort, Await, Submitted, WellFormedAnswer;
    var port := StubPort(limits, clock, patience);
    SubmitConserves(limits, clock, patience, link, steps[0].frame);
    AwaitConserves(limits, clock, patience, config, cache, Submitted(port, link, steps[0].frame).0, steps[0].expected,
      port.patience(link.exchanges));
    var x := Transceived(port, config, cache, link, steps[0].frame, steps[0].expected);
    if |steps| > 1 && x.result.Ok? && WellFormedAnswer(x.result.value) {
      PerformedConserves(limits, clock, patience, config, x.cache, x.link, steps[1..]);
    }
  }

  /**
    * Conservation: in every run of any client over any motor objects, whether or not deadlines
    * expire, no command and no response is lost, invented or reordered.
    */
  lemma {:induction false} ConservedForever(
    limits: Limits, clock: nat -> real, patience: nat -> nat,
    fleet: nat -> Config, client: seq<Reply> -> Request, n: nat)
    ensures Conserved(
      limits, clock,
      Conducted(StubPort(limits, clock, patience), fleet, client, NewSession(NEW_WORLD), n).0.link)
    decreases n
  {
    hide Performed, StubPort, Conserved, StepsOf, Concluded, CacheOf;
    var port := StubPort(limits, clock, patience);
    if n == 0 {
      NothingConducted(port, fleet, client, NewSession(NEW_WORLD));
      NothingYet(limits, clock);
    } else {
      ConservedForever(limits, clock, patience, fleet, client, n - 1);
      var (s, replies) := Conducted(port, fleet, client, NewSession(NEW_WORLD), n - 1);
      var r := client(replies);
      PerformedConserves(
        limits, clock, patience, fleet(r.who), CacheOf(s, r.who), s.link, StepsOf(fleet(r.who), r.op));
    }
  }

  lemma NothingYet(limits: Limits, clock: nat -> real)
    ensures Conserved(limits, clock, NewSession(NEW_WORLD).link)
  {
  }

  // ------------------------------------------------- the commands of any call

  lemma {:induction false} AwaitSendsNothing<S>(
    port: Port<S>, clock: nat -> real, config: Config, cache: Option<Feedback>, link: Link<S>, expected: u8,
    passes: nat)
    ensures HistoryOf(Await(port, config, cache, link, expected, passes).link.log, clock) == HistoryOf(link.log, clock)
    decreases passes
  {
    hide HistoryOf, SourceOf, CommTypeOf, Cached;
    if passes > 0 {
      var (next, heard) := Listened(port, link);
      if heard.Frame? {
        LogGrows(link.log, clock, heard.frame);
        AwaitSendsNothing(port, clock, config, cache, next, expected, passes - 1);
        AwaitSendsNothing(port, clock, config, Cached(config, cache, heard.frame), next, expected, passes - 1);
      } else {
        assert link.log + [] == link.log;
      }
    }
  }

  lemma FirstAndMore<T>(x: T, rest: seq<T>, more: nat)
    requires more <= |rest|
    ensures ([x] + rest)[..1] == [x] && ([x] + rest)[..1 + more] == [x] + rest[..more]
  {
  }

  lemma TransceivedSendsOne<S>(
    port: Port<S>, clock: nat -> real, config: Config, cache: Option<Feedback>, link: Link<S>, frame: CanFrame,
    expected: u8)
    ensures
      var before := HistoryOf(link.log, clock);
      HistoryOf(Transceived(port, config, cache, link, frame, expected).link.log, clock)
      == before + [Event(clock(|before|), Command(frame))]
  {
    hide HistoryOf, Await;
    LogGrows(link.log, clock, frame);
    AwaitSendsNothing(
      port, clock, config, cache, Submitted(port, link, frame).0, expected, port.patience(link.exchanges));
  }

  /** Over any transport the commands a call sends are the first m of its exchanges, m at least one. */
  lemma {:induction false} PerformedSendsPrefix<S>(
    port: Port<S>, clock: nat -> real, config: Config, cache: Option<Feedback>, link: Link<S>, steps: seq<Exchange>)
    returns (m: nat)
    requires steps != []
    ensures 1 <= m <= |steps|
    ensures
      var before := HistoryOf(link.log, clock);
      HistoryOf(Performed(port, config, cache, link, steps).link.log, clock)
      == before + CommandsOf(steps, clock, |before|)[..m]
    decreases |steps|
  {
    hide HistoryOf, Transceived, CommandsOf, WellFormedAnswer;
    var before := HistoryOf(link.log, clock);
    var e := Event(clock(|before|), Command(steps[0].frame));
    var rest := CommandsOf(steps[1..], clock, |before| + 1);
    var x := Transceived(port, config, cache, link, steps[0].frame, steps[0].expected);
    TransceivedSendsOne(port, clock, config, cache, link, steps[0].frame, steps[0].expected);
    CommandsOfCons(steps, clock, |before|);
    FirstAndMore(e, rest, 0);
    m := 1;
    if x.result.Ok? && WellFormedAnswer(x.result.value) && |steps| > 1 {
      var more := PerformedSendsPrefix(port, clock, config, x.cache, x.link, steps[1..]);
      m := 1 + more;
      FirstAndMore(e, rest, more);
      assert before + [e] + rest[..more] == before + ([e] + rest[..more]);
    }
  }
}
