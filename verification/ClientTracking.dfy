/**
  * Tracking as an application sees it: the positions its calls return, fed to an unwrapper, against
  * the true positions of the simulated motor, over direct calls and over the serial line.
  */
module ClientTracking {
  import opened Bytes
  import opened Can
  import opened RealFacts
  import opened Scaling
  import opened Protocol
  import opened PositionUnwrapping
  import opened Tracking
  import opened Stub
  import opened StubTrace
  import opened StubMotion
  import opened Driver
  import opened Fleet
  import opened CallEffects
  import opened Transparency

  /** The next reply of a client brings a feedback of motor `id`. */
  predicate Brings(fleet: nat -> Config, client: seq<Reply> -> Request, before: seq<Reply>, reply: Reply, id: u8) {
    fleet(client(before).who).motorId == id && reply.Reported?
  }

  /** The positions of motor `id` that a client is told, in order. */
  function PositionsTold(fleet: nat -> Config, client: seq<Reply> -> Request, replies: seq<Reply>, id: u8): seq<real>
    decreases |replies|
  {
    if replies == [] then []
    else
      PositionsTold(fleet, client, Init(replies), id) +
      if Brings(fleet, client, Init(replies), Last(replies), id) then [Last(replies).feedback.position] else []
  }

  function Marked(marks: seq<nat>, told: bool, mark: nat): seq<nat> {
    if told then marks + [mark] else marks
  }

  /** How many commands the simulator had received each time the client was told a position. */
  function Marks(
    limits: Limits, clock: nat -> real, patience: nat -> nat, fleet: nat -> Config,
    client: seq<Reply> -> Request, n: nat, id: u8): seq<nat>
  {
    if n == 0 then []
    else
      var port := StubPort(limits, clock, patience);
      var (s, replies) := Conducted(port, fleet, client, NewSession(NEW_WORLD), n - 1);
      var (after, reply) := Served(port, fleet, s, client(replies));
      Marked(Marks(limits, clock, patience, fleet, client, n - 1, id),
        Brings(fleet, client, replies, reply, id), |HistoryOf(after.link.log, clock)|)
  }

  /** The marks lie in the history in ascending order, each just after a command answered with feedback. */
  predicate MarksFit(events: seq<Event>, marks: seq<nat>, id: u8) {
    && (forall k :: 0 <= k < |marks| ==> 0 < marks[k] <= |events| && Samples(events[marks[k] - 1], id))
    && (forall j, k :: 0 <= j < k < |marks| ==> marks[j] < marks[k])
  }

  /** The true positions of the motor at the marks. */
  function Truths(limits: Limits, events: seq<Event>, marks: seq<nat>, id: u8): (ps: seq<real>)
    requires MarksFit(events, marks, id)
    ensures |ps| == |marks|
  {
    seq(|marks|, k requires 0 <= k < |marks| => MotorOf(Run(limits, NEW_STUB, events[..marks[k]]), id).position)
  }

  /** Every object driving motor `id` is configured with the limits the motor has. */
  ghost predicate Configured(limits: Limits, fleet: nat -> Config, id: u8) {
    forall who: nat :: fleet(who).motorId == id ==> fleet(who).limits == limits
  }

  lemma TruthsGrow(limits: Limits, events: seq<Event>, more: seq<Event>, marks: seq<nat>, id: u8)
    requires MarksFit(events, marks, id)
    ensures MarksFit(events + more, marks, id)
    ensures Truths(limits, events + more, marks, id) == Truths(limits, events, marks, id)
  {
    hide Run, Samples;
    forall k | 0 <= k < |marks|
      ensures (events + more)[..marks[k]] == events[..marks[k]]
    {
    }
  }

  lemma TruthsSnoc(limits: Limits, events: seq<Event>, marks: seq<nat>, id: u8)
    requires MarksFit(events, marks, id) && (marks != [] ==> Last(marks) < |events|)
    requires events != [] && Samples(Last(events), id)
    ensures MarksFit(events, marks + [|events|], id)
    ensures Truths(limits, events, marks + [|events|], id)
         == Truths(limits, events, marks, id) + [MotorOf(Run(limits, NEW_STUB, events), id).position]
  {
    hide Run, Samples;
    assert events[..|events|] == events;
    var all := marks + [|events|];
    forall j, k | 0 <= j < k < |all|
      ensures all[j] < all[k]
    {
      assert j < |marks| - 1 ==> marks[j] < Last(marks);
    }
  }

  lemma MarksBelow(events: seq<Event>, marks: seq<nat>, id: u8, n: nat)
    requires MarksFit(events, marks, id) && |events| < n
    ensures marks != [] ==> Last(marks) < n
  {
    hide Samples;
  }

  lemma LastCommandSamples(config: Config, op: Op, before: seq<Event>, clock: nat -> real)
    requires ReturnsFeedback(op)
    ensures
      var events := before + CommandsOf(StepsOf(config, op), clock, |before|);
      |before| < |events| && Samples(Last(events), config.motorId)
  {
    hide StepsOf, Supported, TargetOf, CommTypeOf, Full;
    StepsAreAnswerable(config, op);
    LastExpectation(config, op);
    HistoryGrowsByOne(before, StepsOf(config, op), clock);
  }

  /** One more call: the positions told and the true positions at the marks grow alike. */
  lemma ToldGrows(
    limits: Limits, clock: nat -> real, patience: nat -> nat, config: Config,
    cache: Option<Feedback>, link: Link<World>, op: Op, marks: seq<nat>, id: u8)
    requires InStep(limits, clock, link) && forall n :: patience(n) > 0
    requires config.motorId == id ==> config.limits == limits
    requires MarksFit(HistoryOf(link.log, clock), marks, id)
    ensures
      var c := Call(StubPort(limits, clock, patience), config, cache, link, op);
      var before, after := HistoryOf(link.log, clock), HistoryOf(c.link.log, clock);
      var told := config.motorId == id && c.reply.Reported?;
      var marked := Marked(marks, told, |after|);
      && MarksFit(after, marked, id)
      && Reports(Truths(limits, after, marked, id), limits.position)
         == Reports(Truths(limits, before, marks, id), limits.position)
            + if told then [c.reply.feedback.position] else []
  {
    hide Call, InStep, StubPort, HistoryOf, Run, MarksFit, Truths, Reports, Tells, CommandsOf, StepsOf, Samples,
      ReturnsFeedback;
    var c := Call(StubPort(limits, clock, patience), config, cache, link, op);
    var before, after := HistoryOf(link.log, clock), HistoryOf(c.link.log, clock);
    CallsSucceed(limits, clock, patience, config, cache, link, op);
    TruthsGrow(limits, before, CommandsOf(StepsOf(config, op), clock, |before|), marks, id);
    if config.motorId == id && c.reply.Reported? {
      RepliesTell(limits, clock, patience, config, cache, link, op);
      LastCommandSamples(config, op, before, clock);
      MarksBelow(before, marks, id, |after|);
      TruthsSnoc(limits, after, marks, id);
      StateOfHistory(limits, clock, c.link, id);
      ToldPosition(config, MotorOf(c.link.state.stub, id), c.reply.feedback);
      ReportsSnoc(Truths(limits, after, marks, id), MotorOf(Run(limits, NEW_STUB, after), id).position,
        limits.position);
    }
  }

  lemma ToldSnoc(fleet: nat -> Config, client: seq<Reply> -> Request, replies: seq<Reply>, reply: Reply, id: u8)
    ensures PositionsTold(fleet, client, replies + [reply], id)
         == PositionsTold(fleet, client, replies, id)
            + if Brings(fleet, client, replies, reply, id) then [reply.feedback.position] else []
  {
    SnocParts(replies, reply);
  }

  /** The positions told are the reports of the true positions at the marks. */
  lemma {:induction false} ToldAreReports(
    limits: Limits, clock: nat -> real, patience: nat -> nat, fleet: nat -> Config,
    client: seq<Reply> -> Request, n: nat, id: u8)
    requires Configured(limits, fleet, id) && forall n :: patience(n) > 0
    ensures
      var (s, replies) := Conducted(StubPort(limits, clock, patience), fleet, client, NewSession(NEW_WORLD), n);
      var events := HistoryOf(s.link.log, clock);
      var marks := Marks(limits, clock, patience, fleet, client, n, id);
      && MarksFit(events, marks, id)
      && PositionsTold(fleet, client, replies, id) == Reports(Truths(limits, events, marks, id), limits.position)
    decreases n
  {
    hide Call, InStep, StubPort, HistoryOf, MarksFit, Truths, Reports, PositionsTold, Marked, CacheOf;
    var port := StubPort(limits, clock, patience);
    if n == 0 {
      NothingConducted(port, fleet, client, NewSession(NEW_WORLD));
      NothingTold(limits, clock, fleet, client, id);
    } else {
      var (s, replies) := Conducted(port, fleet, client, NewSession(NEW_WORLD), n - 1);
      var r := client(replies);
      var c := Call(port, fleet(r.who), CacheOf(s, r.who), s.link, r.op);
      var marks := Marks(limits, clock, patience, fleet, client, n - 1, id);
      ToldAreReports(limits, clock, patience, fleet, client, n - 1, id);
      LockstepForever(limits, clock, patience, fleet, client, n - 1);
      ToldGrows(limits, clock, patience, fleet(r.who), CacheOf(s, r.who), s.link, r.op, marks, id);
      ToldSnoc(fleet, client, replies, c.reply, id);
    }
  }

  lemma ToldPosition(config: Config, s: MotorState, fb: Feedback)
    requires Tells(config, s, fb)
    ensures fb.position == Tracking.Reported(s.position, config.limits.position)
  {
  }

  lemma StateOfHistory(limits: Limits, clock: nat -> real, link: Link<World>, id: u8)
    requires InStep(limits, clock, link)
    ensures MotorOf(link.state.stub, id) == MotorOf(Run(limits, NEW_STUB, HistoryOf(link.log, clock)), id)
  {
    hide Run, HistoryOf, HeardIn, Alternates;
  }

  lemma NothingTold(limits: Limits, clock: nat -> real, fleet: nat -> Config, client: seq<Reply> -> Request, id: u8)
    ensures PositionsTold(fleet, client, [], id) == []
    ensures
      var events := HistoryOf(NewSession(NEW_WORLD).link.log, clock);
      MarksFit(events, [], id) && Reports(Truths(limits, events, [], id), limits.position) == []
  {
  }

  /**
    * An application that unwraps the positions its calls return follows the true motor, for any
    * client sharing the simulator with any others, if and only if the true positions at those calls
    * are never more than 32767 codes apart.
    */
  lemma {:induction false} ClientIsTracked(
    limits: Limits, clock: nat -> real, patience: nat -> nat, fleet: nat -> Config,
    client: seq<Reply> -> Request, n: nat, id: u8)
    requires Configured(limits, fleet, id) && forall n :: patience(n) > 0
    requires Marks(limits, clock, patience, fleet, client, n, id) != []
    ensures
      var (s, replies) := Conducted(StubPort(limits, clock, patience), fleet, client, NewSession(NEW_WORLD), n);
      var events := HistoryOf(s.link.log, clock);
      var marks := Marks(limits, clock, patience, fleet, client, n, id);
      && MarksFit(events, marks, id)
      && var ps := Truths(limits, events, marks, id);
         Tracks(Outputs(Fresh(2.0 * limits.position), PositionsTold(fleet, client, replies, id)), ps,
           -Turns(ps[0], 2.0 * limits.position), limits.position)
         <==> CloseCodes(ps, limits.position)
  {
    hide *;
    ToldAreReports(limits, clock, patience, fleet, client, n, id);
    var s := Conducted(StubPort(limits, clock, patience), fleet, client, NewSession(NEW_WORLD), n).0;
    var marks := Marks(limits, clock, patience, fleet, client, n, id);
    TrackingIsExact(Truths(limits, HistoryOf(s.link.log, clock), marks, id), limits.position);
  }

  // ------------------------------------------------------ bounded velocity runs

  /** Event i is no jump and no step back in time, and the speed commanded until then is at most `speed`. */
  predicate TameAt(events: seq<Event>, id: u8, speed: real, i: nat)
    requires 0 < i < |events|
  {
    && !Jumps(events[..i], events[i], id)
    && events[i - 1].time <= events[i].time
    && -speed <= SpeedBy(events[..i], id) <= speed
  }

  predicate Tame(events: seq<Event>, id: u8, speed: real, from: nat) {
    forall i :: 0 < i && from <= i < |events| ==> TameAt(events, id, speed, i)
  }

  /** Successive marks are at most `gap` apart in time. */
  predicate Frequent(events: seq<Event>, marks: seq<nat>, id: u8, gap: real)
    requires MarksFit(events, marks, id)
  {
    forall k :: 0 < k < |marks| ==> events[marks[k] - 1].time - events[marks[k - 1] - 1].time <= gap
  }

  lemma TamePrefix(events: seq<Event>, id: u8, speed: real, from: nat, n: nat)
    requires n <= |events| && Tame(events, id, speed, from)
    ensures Tame(events[..n], id, speed, from)
  {
    hide Jumps, SpeedBy;
    forall i | 0 < i && from <= i < n
      ensures TameAt(events[..n], id, speed, i)
    {
      assert TameAt(events, id, speed, i) && events[..n][..i] == events[..i];
    }
  }

  /** Over any events on the bus a tame motor moves by at most speed times the time that passes. */
  lemma {:induction false} BoundedMotion(limits: Limits, events: seq<Event>, id: u8, speed: real, from: nat)
    requires 0 < from <= |events| && Tame(events, id, speed, from)
    ensures
      var dt := Last(events).time - events[from - 1].time;
      var moved := PositionAt(MotorOf(Run(limits, NEW_STUB, events), id), Last(events).time)
                 - PositionAt(MotorOf(Run(limits, NEW_STUB, events[..from]), id), events[from - 1].time);
      dt >= 0.0 && -Times(speed, dt) <= moved <= Times(speed, dt)
    decreases |events|
  {
    hide Run, PositionAt, SpeedBy, Jumps, Times, Speed, EnabledBy, ModeBy, LastWritten;
    Units(speed);
    Commute(speed, 0.0);
    if |events| == from {
      assert events[..from] == events;
    } else {
      var init, e := Init(events), Last(events);
      var n := |init|;
      assert TameAt(events, id, speed, n);
      assert events[..n] == init && init[..from] == events[..from];
      TamePrefix(events, id, speed, from, n);
      BoundedMotion(limits, init, id, speed, from);
      var s := MotorOf(Run(limits, NEW_STUB, init), id);
      HistoryDeterminesRegisters(limits, init, id);
      SpeedIsSpeedBy(s, init, id);
      EventAtOwnTime(limits, events, id);
      PositionAtIsLinear(s, Last(init).time, e.time);
      var early, late := Last(init).time - events[from - 1].time, e.time - Last(init).time;
      TimesAbs(Speed(s), late, speed, late);
      Distribute(early, late, speed);
      Commute(early, speed);
      Commute(late, speed);
      Commute(early + late, speed);
      assert early + late == e.time - events[from - 1].time;
    }
  }

  /** Just after a command answered with feedback the stored position is the position at that time. */
  lemma StoredAtSample(limits: Limits, events: seq<Event>, id: u8)
    requires events != [] && Samples(Last(events), id)
    ensures
      var s := MotorOf(Run(limits, NEW_STUB, events), id);
      s.position == PositionAt(s, Last(events).time)
  {
    hide Run, PositionAt, SampledPositions, Samples;
    SampleBookkeeping(limits, events, id);
    PositionAtLastUpdate(MotorOf(Run(limits, NEW_STUB, events), id));
  }

  lemma TameStep(
    limits: Limits, events: seq<Event>, id: u8, speed: real, gap: real, i: nat, j: nat)
    requires 0 < i < j <= |events| && Samples(events[i - 1], id) && Samples(events[j - 1], id)
    requires Tame(events, id, speed, i) && events[j - 1].time - events[i - 1].time <= gap && speed >= 0.0
    ensures
      var p := MotorOf(Run(limits, NEW_STUB, events[..i]), id).position;
      var q := MotorOf(Run(limits, NEW_STUB, events[..j]), id).position;
      -Times(speed, gap) <= q - p <= Times(speed, gap)
  {
    hide Run, Times, PositionAt, Tame, Samples;
    var a, b := events[..i], events[..j];
    assert b[..i] == a;
    TamePrefix(events, id, speed, i, j);
    BoundedMotion(limits, b, id, speed, i);
    StoredAtSample(limits, a, id);
    StoredAtSample(limits, b, id);
    var dt := Last(b).time - b[i - 1].time;
    Mono(dt, gap, speed);
    Commute(dt, speed);
    Commute(gap, speed);
  }

  lemma {:induction false} TameTruthsTakeSmallSteps(
    limits: Limits, events: seq<Event>, marks: seq<nat>, id: u8, speed: real, gap: real)
    requires MarksFit(events, marks, id) && marks != []
    requires Tame(events, id, speed, marks[0]) && Frequent(events, marks, id, gap)
    requires speed >= 0.0 && Times(speed, gap) <= Times(32767.0, Step(limits.position))
    ensures SmallSteps(Truths(limits, events, marks, id), limits.position)
  {
    hide Run, Times, Step, TameAt, Samples;
    var ps := Truths(limits, events, marks, id);
    forall k | 0 < k < |ps|
      ensures -Times(32767.0, Step(limits.position)) <= ps[k] - ps[k - 1] <= Times(32767.0, Step(limits.position))
    {
      assert marks[0] <= marks[k - 1] < marks[k];
      TameStep(limits, events, id, speed, gap, marks[k - 1], marks[k]);
    }
  }

  /**
    * The documented guarantee for an RS02 at the level of an application: as long as the motor is
    * commanded at most 44 rad/s, is neither re-zeroed nor sent to a CSP target, and the application
    * gets a position at least every 280 ms, unwrapping those positions follows the motor.
    */
  lemma {:induction false} Rs02ClientIsTracked(
    clock: nat -> real, patience: nat -> nat, fleet: nat -> Config, client: seq<Reply> -> Request, n: nat, id: u8)
    requires forall n :: patience(n) > 0
    requires GetLimits(RS02).Some? && Configured(GetLimits(RS02).value, fleet, id)
    requires
      var limits := GetLimits(RS02).value;
      var events := HistoryOf(
        Conducted(StubPort(limits, clock, patience), fleet, client, NewSession(NEW_WORLD), n).0.link.log, clock);
      var marks := Marks(limits, clock, patience, fleet, client, n, id);
      && marks != [] && MarksFit(events, marks, id)
      && Tame(events, id, 44.0, marks[0]) && Frequent(events, marks, id, 0.28)
    ensures
      var limits := GetLimits(RS02).value;
      var (s, replies) := Conducted(StubPort(limits, clock, patience), fleet, client, NewSession(NEW_WORLD), n);
      var marks := Marks(limits, clock, patience, fleet, client, n, id);
      var ps := Truths(limits, HistoryOf(s.link.log, clock), marks, id);
      Tracks(Outputs(Fresh(2.0 * limits.position), PositionsTold(fleet, client, replies, id)), ps,
        -Turns(ps[0], 2.0 * limits.position), limits.position)
  {
    hide *;
    Rs02Bound();
    var limits := GetLimits(RS02).value;
    var s := Conducted(StubPort(limits, clock, patience), fleet, client, NewSession(NEW_WORLD), n).0;
    var events := HistoryOf(s.link.log, clock);
    var marks := Marks(limits, clock, patience, fleet, client, n, id);
    TameTruthsTakeSmallSteps(limits, events, marks, id, 44.0, 0.28);
    SmallStepsAreClose(Truths(limits, events, marks, id), limits.position);
    ClientIsTracked(limits, clock, patience, fleet, client, n, id);
  }

  /** The same over the serial line: what an application is told there is followed by the same unwrapper. */
  lemma {:induction false} SerialClientIsTracked(
    limits: Limits, clock: nat -> real, patience: nat -> nat, device: Device, fleet: nat -> Config,
    client: seq<Reply> -> Request, n: nat, id: u8)
    requires Configured(limits, fleet, id) && InTime(device) && forall n :: patience(n) > 0
    requires Marks(limits, clock, patience, fleet, client, n, id) != []
    ensures
      var (s, replies) := Conducted(SerialPort(limits, clock, patience, device), fleet, client,
          NewSession(NEW_SERIAL_WORLD), n);
      var events := HistoryOf(s.link.log, clock);
      var marks := Marks(limits, clock, patience, fleet, client, n, id);
      && MarksFit(events, marks, id)
      && var ps := Truths(limits, events, marks, id);
         Tracks(Outputs(Fresh(2.0 * limits.position), PositionsTold(fleet, client, replies, id)), ps,
           -Turns(ps[0], 2.0 * limits.position), limits.position)
         <==> CloseCodes(ps, limits.position)
  {
    hide *;
    SerialIsTransparent(limits, clock, patience, device, fleet, client, n);
    ClientIsTracked(limits, clock, patience, fleet, client, n, id);
  }
}
