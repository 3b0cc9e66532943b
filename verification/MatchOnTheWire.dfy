/** From the scheduler to the robot: what the tester decodes after a tick of a match on time. */
module MatchOnTheWire {
  import opened Protobuf
  import opened PeriodicTask
  import opened DaemonState
  import opened MatchController
  import opened MatchTimeline
  import opened MatchOnSchedule
  import Encoder = ControlDataEncoder
  import Tester = DaemonTester
  import Publisher = ControlDataPublisher

  /** A decoded word that tells the robot to be enabled or not, in the mode with this number, with the
      e-stop and alliance of `v`. */
  predicate Commands(word: nat, enabled: bool, mode: nat, v: Control) {
    && (word % 2 == 1 <==> enabled)
    && word / 2 % 4 == mode
    && (word / 8 % 2 == 1 <==> v.eStop)
    && word / 16 % 2 == 0                          // no field management system
    && word / 32 % 2 == 1                          // a driver station
    && (word / 64 % 2 == 1 <==> enabled)           // the watchdog
    && word / 128 % 2 == 0
    && word / 256 % 16 == v.alliance % 16
  }

  /** Enabled in Auto during Auto, in Teleop during Teleop, and otherwise disabled. */
  predicate Tells(v: Control, inAuto: bool, inTeleop: bool) {
    && (v.enabled <==> inAuto || inTeleop)
    && v.mode == if inAuto then Encoder.RobotMode.Auto
                 else if inTeleop then Encoder.RobotMode.Teleop else Encoder.RobotMode.Unknown
  }

  lemma ToldIsCommanded(v: Control, inAuto: bool, inTeleop: bool)
    requires Tells(v, inAuto, inTeleop)
    ensures Commands(Encoder.Layout(ViewOf(v)), inAuto || inTeleop,
                     if inAuto then 1 else if inTeleop then 2 else 0, v)
  {
    Encoder.LayoutDigits(ViewOf(v));
  }

  predicate InAuto(d: Durations, t: int) {
    t < d.autoPeriod * 1_000_000
  }

  predicate InTeleop(d: Durations, t: int) {
    && (d.autoPeriod + d.autoTeleopGap) * 1_000_000 <= t
    && t < (d.autoPeriod + d.autoTeleopGap + d.teleopPeriod) * 1_000_000
  }

  lemma OnTimeTickTells(d: Durations, es: seq<Event>, t0: int, period: nat, env: seq<Round>, w: nat, c: nat, v: Control)
    requires Scheduled(es, t0, period, env) && Bounded(env, 0, w, c) && w + c <= period
    requires Outlasts(d, period + w)
    requires es != [] && es[|es| - 1].Tick? && Running(Run(d, es[..|es| - 1]).phase)
    ensures var clock, e := Run(d, es[..|es| - 1]), es[|es| - 1];
      var v', t := Replay(v, Writes(d, clock, e)), e.now - clock.matchStart;
      Tells(v', InAuto(d, t), InTeleop(d, t)) && v'.eStop == v.eStop && v'.alliance == v.alliance
  {
    var e, clock := es[|es| - 1], Run(d, es[..|es| - 1]);
    RunAligned(d, es[..|es| - 1]);
    TickTowardsIdeal(d, clock, e.now);
    MatchOnTime(d, es, t0, period, env, w, c);
    IdealByTime(d, e.now - clock.matchStart);
    EventTellsRobot(d, clock, e, v);
    EventReasserts(d, clock, e, v);
  }

  /** After a tick of a running match on a bounded scheduler, whatever other threads had written
      before it, the message published next tells the robot what the time since the match start
      says: enabled in mode 1 during Auto, in mode 2 during Teleop, and disabled in mode 0 in the gap
      and after the end. */
  lemma TickReachesRobot(d: Durations, es: seq<Event>, t0: int, period: nat, env: seq<Round>, w: nat, c: nat,
                         v: Control, before: seq<Field>, after: seq<Field>)
    requires Scheduled(es, t0, period, env) && Bounded(env, 0, w, c) && w + c <= period
    requires Outlasts(d, period + w)
    requires es != [] && es[|es| - 1].Tick? && Running(Run(d, es[..|es| - 1]).phase)
    requires Publisher.OtherFields(before) && Publisher.OtherFields(after)
    ensures var now, clock := es[|es| - 1].now, Run(d, es[..|es| - 1]);
      var v' := Replay(v, Writes(d, clock, es[|es| - 1]));
      var m := Publisher.EncodeControlData(ViewOf(v'), before, after, 256);
      var t := now - clock.matchStart;
      m != [] ==>
        var decoded := Tester.Scan(m, |m|);
        && decoded.Word?
        && Commands(decoded.word, InAuto(d, t) || InTeleop(d, t),
                    if InAuto(d, t) then 1 else if InTeleop(d, t) then 2 else 0, v)
  {
    var e, clock := es[|es| - 1], Run(d, es[..|es| - 1]);
    var v', t := Replay(v, Writes(d, clock, e)), e.now - clock.matchStart;
    OnTimeTickTells(d, es, t0, period, env, w, c, v);
    ToldIsCommanded(v', InAuto(d, t), InTeleop(d, t));
    Publisher.PublishedWordDecodes(ViewOf(v'), before, after, 256);
  }

  lemma IdealByTime(d: Durations, t: int)
    ensures Ideal(d, t) == Phase.Auto <==> InAuto(d, t)
    ensures Ideal(d, t) == Phase.Teleop <==> InTeleop(d, t)
  {
  }
}
