/** The match clock: a five-phase timed state machine that drives the shared state. */
module MatchController {
  import opened Units
  import Encoder = ControlDataEncoder
  import opened DaemonState

  datatype Phase = Idle | Auto | AutoTeleopGap | Teleop | MatchEnded

  /** Whole milliseconds. */
  datatype Durations = Durations(autoPeriod: nat, autoTeleopGap: nat, teleopPeriod: nat)

  /** The clock's own fields; `matchStart` and `phaseStart` are nanoseconds. */
  datatype Clock = Clock(phase: Phase, matchStart: int, phaseStart: int)

  datatype Event =
    | StartMatch(now: int)
    | SkipToTeleop(now: int)
    | StopMatch
    | Tick(now: int)

  datatype Snapshot = Snapshot(phase: Phase, elapsedInPhase: int, totalElapsed: int, remainingInPhase: int)

  const INITIAL_CLOCK := Clock(Idle, 0, 0)

  function DurationFor(d: Durations, p: Phase): nat {
    match p
    case Auto => d.autoPeriod
    case AutoTeleopGap => d.autoTeleopGap
    case Teleop => d.teleopPeriod
    case Idle => 0
    case MatchEnded => 0
  }

  function Successor(p: Phase): Phase {
    match p
    case Auto => AutoTeleopGap
    case AutoTeleopGap => Teleop
    case Teleop => MatchEnded
    case Idle => Idle
    case MatchEnded => MatchEnded
  }

  predicate Running(p: Phase) {
    p != Idle && p != MatchEnded
  }

  predicate Enabling(p: Phase) {
    p == Auto || p == Teleop
  }

  function ModeOf(p: Phase): Encoder.RobotMode {
    match p
    case Auto => Encoder.RobotMode.Auto
    case Teleop => Encoder.RobotMode.Teleop
    case _ => Encoder.RobotMode.Unknown
  }

  predicate Overdue(d: Durations, c: Clock, now: int) {
    now - c.phaseStart >= MsToNs(DurationFor(d, c.phase))
  }

  /** One event on the clock's fields. */
  function Step(d: Durations, c: Clock, e: Event): Clock {
    match e
    case StartMatch(now) => Clock(Auto, now, now)
    case SkipToTeleop(now) =>
      Clock(Teleop, now - MsToNs(d.autoPeriod) - MsToNs(d.autoTeleopGap), now)
    case StopMatch => INITIAL_CLOCK
    case Tick(now) =>
      if Running(c.phase) && Overdue(d, c, now)
      then Clock(Successor(c.phase), c.matchStart, c.phaseStart + MsToNs(DurationFor(d, c.phase)))
      else c
  }

  function PhaseWrites(p: Phase): seq<Write> {
    [SetEnabled(Enabling(p)), SetMode(ModeOf(p))]
  }

  lemma TwoCalls(calls: seq<Write>, a: Write, b: Write)
    ensures calls + [a] + [b] == calls + [a, b]
  {
  }

  /** Nanoseconds left in the phase, never negative. */
  function TimeLeft(d: Durations, c: Clock, now: int): int {
    Max(MsToNs(DurationFor(d, c.phase)) - (now - c.phaseStart), 0)
  }

  function SecondsLeft(d: Durations, c: Clock, now: int): int {
    CeilToSeconds(TimeLeft(d, c, now))
  }

  /** What the robot is told: the seconds left in an Auto or Teleop period, 0 in any other phase. */
  function MatchTime(d: Durations, c: Clock, now: int): int {
    if Enabling(c.phase) then Int32(SecondsLeft(d, c, now)) else 0
  }

  /** The setter calls one event makes, in order. */
  function Writes(d: Durations, c: Clock, e: Event): seq<Write> {
    var c' := Step(d, c, e);
    match e
    case StopMatch => PhaseWrites(Idle) + [SetMatchTime(0)]
    case Tick(now) =>
      if Running(c.phase) then PhaseWrites(c'.phase) + [SetMatchTime(MatchTime(d, c', now))] else []
    case _ => PhaseWrites(c'.phase) + [SetMatchTime(MatchTime(d, c', e.now))]
  }

  function SnapshotOf(d: Durations, c: Clock, now: int): Snapshot {
    if c.phase == Idle then Snapshot(Idle, 0, 0, 0)
    else
      var elapsed := TruncToMs(now - c.phaseStart);
      Snapshot(c.phase, elapsed, TruncToMs(now - c.matchStart),
               Max(DurationFor(d, c.phase) - elapsed, 0))
  }

  class MatchController {
    const state: DaemonState
    const durations: Durations
    var phase: Phase
    var matchStart: int
    var phaseStart: int

    ghost function Fields(): Clock
      reads this
    {
      Clock(phase, matchStart, phaseStart)
    }

    constructor (state: DaemonState, durations: Durations)
      ensures this.state == state && this.durations == durations && Fields() == INITIAL_CLOCK
    {
      this.state, this.durations := state, durations;
      phase, matchStart, phaseStart := Idle, 0, 0;
    }

    method ApplyPhase(p: Phase)
      requires state.Valid()
      modifies this`phase, state
      ensures state.Valid() && phase == p && state.calls == old(state.calls) + PhaseWrites(p)
    {
      TwoCalls(state.calls, SetEnabled(Enabling(p)), SetMode(ModeOf(p)));
      match p {
        case Auto =>
          state.SetEnabled(true);
          state.SetMode(Encoder.RobotMode.Auto);
        case Teleop =>
          state.SetEnabled(true);
          state.SetMode(Encoder.RobotMode.Teleop);
        case _ =>
          state.SetEnabled(false);
          state.SetMode(Encoder.RobotMode.Unknown);
      }
      phase := p;
    }

    method PublishMatchTime(now: int)
      requires state.Valid()
      modifies state
      ensures state.Valid()
      ensures state.calls == old(state.calls) + [SetMatchTime(MatchTime(durations, Fields(), now))]
    {
      var seconds := 0;
      if phase == Auto || phase == Teleop {
        var remaining := MsToNs(DurationFor(durations, phase)) - (now - phaseStart);
        if remaining < 0 {
          remaining := 0;
        }
        seconds := Int32(CeilToSeconds(remaining));
      }
      state.SetMatchTime(seconds);
    }

    method StartMatch(now: int)
      requires state.Valid()
      modifies this, state
      ensures state.Valid() && Fields() == Step(durations, old(Fields()), Event.StartMatch(now))
      ensures state.calls == old(state.calls) + Writes(durations, old(Fields()), Event.StartMatch(now))
    {
      matchStart := now;
      phaseStart := now;
      ApplyPhase(Auto);
      PublishMatchTime(now);
    }

    method StopMatch()
      requires state.Valid()
      modifies this, state
      ensures state.Valid() && Fields() == Step(durations, old(Fields()), Event.StopMatch)
      ensures state.calls == old(state.calls) + Writes(durations, old(Fields()), Event.StopMatch)
    {
      ApplyPhase(Idle);
      matchStart := 0;
      phaseStart := 0;
      state.SetMatchTime(0);
    }

    method SkipToTeleop(now: int)
      requires state.Valid()
      modifies this, state
      ensures state.Valid() && Fields() == Step(durations, old(Fields()), Event.SkipToTeleop(now))
      ensures state.calls == old(state.calls) + Writes(durations, old(Fields()), Event.SkipToTeleop(now))
    {
      matchStart := now - MsToNs(durations.autoPeriod) - MsToNs(durations.autoTeleopGap);
      phaseStart := now;
      ApplyPhase(Teleop);
      PublishMatchTime(now);
    }

    method Tick(now: int)
      requires state.Valid()
      modifies this, state
      ensures state.Valid() && Fields() == Step(durations, old(Fields()), Event.Tick(now))
      ensures state.calls == old(state.calls) + Writes(durations, old(Fields()), Event.Tick(now))
    {
      if phase == Idle || phase == MatchEnded {
        return;
      }
      var elapsed := now - phaseStart;
      var duration := MsToNs(DurationFor(durations, phase));
      if elapsed < duration {
        // Re-assert in case manual control changed the shared state.
        ApplyPhase(phase);
        PublishMatchTime(now);
        return;
      }
      // Advance from the deadline, not from the observed time.
      phaseStart := phaseStart + duration;
      match phase {
        case Auto => ApplyPhase(AutoTeleopGap);
        case AutoTeleopGap => ApplyPhase(Teleop);
        case Teleop => ApplyPhase(MatchEnded);
      }
      PublishMatchTime(now);
    }

    method TakeSnapshot(now: int) returns (s: Snapshot)
      ensures s == SnapshotOf(durations, Fields(), now)
    {
      if phase == Idle {
        return Snapshot(phase, 0, 0, 0);
      }
      var elapsed := TruncToMs(now - phaseStart);
      var total := TruncToMs(now - matchStart);
      var remaining := DurationFor(durations, phase) - elapsed;
      if remaining < 0 {
        remaining := 0;
      }
      return Snapshot(phase, elapsed, total, remaining);
    }
  }
}
