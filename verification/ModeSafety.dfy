/** Mode-change safety: what every run of every client keeps, whatever the deadlines and the transport do. */
module ModeSafety {
  import opened Bytes
  import opened Can
  import opened Protocol
  import opened Stub
  import opened StubTrace
  import opened Driver
  import opened Fleet
  import opened Conservation

  /** The client leaves run_mode to set_run_mode. */
  predicate ModeDisciplined(op: Op) {
    && (op.WriteParamFloat? ==> op.index != RUN_MODE)
    && (op.WriteParamByte? ==> op.index != RUN_MODE)
  }

  predicate WritesMode(e: Event) {
    e.action.Command? && CommTypeOf(e.action.frame) == WRITE_PARAM && IndexOf(e.action.frame) == RUN_MODE
  }

  predicate Stops(e: Event) {
    e.action.Command? && Supported(e.action.frame) && CommTypeOf(e.action.frame) == STOP
  }

  predicate StoppedBefore(events: seq<Event>, i: nat)
    requires i < |events| && events[i].action.Command?
  {
    i > 0 && Stops(events[i - 1]) && TargetOf(events[i - 1].action.frame) == TargetOf(events[i].action.frame)
  }

  /** Every write to run_mode directly follows a stop of the same motor. */
  predicate StopsFirst(events: seq<Event>) {
    forall i :: 0 <= i < |events| && WritesMode(events[i]) ==> StoppedBefore(events, i)
  }

  lemma StepsStopFirst(config: Config, op: Op, clock: nat -> real, n: nat)
    requires ModeDisciplined(op)
    ensures StopsFirst(CommandsOf(StepsOf(config, op), clock, n))
  {
    hide IndexOf, CommTypeOf, TargetOf, Supported, StepsOf, Full;
    var steps := StepsOf(config, op);
    var events := CommandsOf(steps, clock, n);
    StepsAreAnswerable(config, op);
    forall i | 0 <= i < |events| && WritesMode(events[i])
      ensures StoppedBefore(events, i)
    {
      ModeWriteFollowsStop(config, op, i);
      assert Answerable(config, steps[i]) && Answerable(config, steps[i - 1]);
      assert events[i - 1].action == Command(steps[i - 1].frame);
    }
  }

  lemma ModeWriteFollowsStop(config: Config, op: Op, i: nat)
    requires ModeDisciplined(op) && i < |StepsOf(config, op)|
    requires
      var frame := StepsOf(config, op)[i].frame;
      CommTypeOf(frame) == WRITE_PARAM && IndexOf(frame) == RUN_MODE
    ensures i == 1 && CommTypeOf(StepsOf(config, op)[0].frame) == STOP
  {
    StepIsAnswerable(config, op, i);
    StopAnswerable(config, false);
    hide CommTypeOf, IndexOf, Answerable, WriteStep, ReadStep, StopStep;
  }

  lemma StopsFirstConcat(a: seq<Event>, b: seq<Event>)
    requires StopsFirst(a) && StopsFirst(b)
    ensures StopsFirst(a + b)
  {
    hide Stops, TargetOf, CommTypeOf, IndexOf;
    var all := a + b;
    forall i | 0 <= i < |all| && WritesMode(all[i])
      ensures all[i].action.Command? && StoppedBefore(all, i)
    {
      if i < |a| {
        assert WritesMode(a[i]) && StoppedBefore(a, i);
      } else {
        assert WritesMode(b[i - |a|]) && StoppedBefore(b, i - |a|);
        assert all[i - 1] == b[i - |a| - 1];
      }
    }
  }

  lemma StopsFirstPrefix(events: seq<Event>, m: nat)
    requires StopsFirst(events) && m <= |events|
    ensures StopsFirst(events[..m])
  {
    hide Stops, TargetOf, CommTypeOf, IndexOf;
    forall i | 0 <= i < m && WritesMode(events[..m][i])
      ensures events[..m][i].action.Command? && StoppedBefore(events[..m], i)
    {
      assert WritesMode(events[i]) && StoppedBefore(events, i);
    }
  }

  /** Over any transport, however its calls end, a disciplined client stops a motor before every mode write. */
  lemma {:induction false} DisciplinedRunsStopFirst<S>(
    port: Port<S>, clock: nat -> real, fleet: nat -> Config, client: seq<Reply> -> Request, start: S, n: nat)
    requires forall replies :: ModeDisciplined(client(replies).op)
    ensures StopsFirst(HistoryOf(Conducted(port, fleet, client, NewSession(start), n).0.link.log, clock))
    decreases n
  {
    hide Performed, StopsFirst, HistoryOf, ModeDisciplined, StepsOf, CommandsOf, Concluded, CacheOf;
    if n == 0 {
      NothingConducted(port, fleet, client, NewSession(start));
      EmptyStopsFirst(clock);
    } else {
      DisciplinedRunsStopFirst(port, clock, fleet, client, start, n - 1);
      var (s, replies) := Conducted(port, fleet, client, NewSession(start), n - 1);
      var r := client(replies);
      assert ModeDisciplined(r.op);
      var steps := StepsOf(fleet(r.who), r.op);
      var before := HistoryOf(s.link.log, clock);
      var m := PerformedSendsPrefix(port, clock, fleet(r.who), CacheOf(s, r.who), s.link, steps);
      StepsStopFirst(fleet(r.who), r.op, clock, |before|);
      StopsFirstPrefix(CommandsOf(steps, clock, |before|), m);
      StopsFirstConcat(before, CommandsOf(steps, clock, |before|)[..m]);
    }
  }

  lemma EmptyStopsFirst(clock: nat -> real)
    ensures StopsFirst(HistoryOf([], clock))
  {
  }

  /** In a history that stops before every mode write, a motor's mode changes only while it is disabled. */
  lemma ModeChangesWhileDisabled(limits: Limits, events: seq<Event>, i: nat, id: u8)
    requires StopsFirst(events) && i < |events|
    ensures
      var before := MotorOf(Run(limits, NEW_STUB, events[..i]), id);
      var after := MotorOf(Run(limits, NEW_STUB, events[..i + 1]), id);
      before.runMode != after.runMode ==> !before.enabled && !after.enabled
  {
    hide Run, CommTypeOf, IndexOf, ValueOf, TargetOf, Supported;
    var past, now := events[..i], events[..i + 1];
    HistoryDeterminesRegisters(limits, past, id);
    HistoryDeterminesRegisters(limits, now, id);
    assert Init(now) == past && Last(now) == events[i];
    if Writes(events[i], id, RUN_MODE) {
      assert StoppedBefore(events, i);
      assert Last(past) == events[i - 1];
    }
  }

  /**
    * For clients that change the run mode only through set_run_mode, no motor's mode ever changes
    * while it is enabled, at any command of any run, whether or not deadlines expire.
    */
  lemma {:induction false} ModeChangeSafety(
    limits: Limits, clock: nat -> real, patience: nat -> nat,
    fleet: nat -> Config, client: seq<Reply> -> Request, n: nat, i: nat, id: u8)
    requires forall replies :: ModeDisciplined(client(replies).op)
    requires
      var (s, replies) := Conducted(StubPort(limits, clock, patience), fleet, client, NewSession(NEW_WORLD), n);
      i < |HistoryOf(s.link.log, clock)|
    ensures
      var (s, replies) := Conducted(StubPort(limits, clock, patience), fleet, client, NewSession(NEW_WORLD), n);
      var events := HistoryOf(s.link.log, clock);
      var before := MotorOf(Run(limits, NEW_STUB, events[..i]), id);
      var after := MotorOf(Run(limits, NEW_STUB, events[..i + 1]), id);
      && Conserved(limits, clock, s.link)
      && (before.runMode != after.runMode ==> !before.enabled && !after.enabled)
  {
    hide *;
    ConservedForever(limits, clock, patience, fleet, client, n);
    DisciplinedRunsStopFirst(StubPort(limits, clock, patience), clock, fleet, client, NEW_WORLD, n);
    var (s, replies) := Conducted(StubPort(limits, clock, patience), fleet, client, NewSession(NEW_WORLD), n);
    ModeChangesWhileDisabled(limits, HistoryOf(s.link.log, clock), i, id);
  }
}
