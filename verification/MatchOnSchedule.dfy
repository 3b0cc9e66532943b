/** The match clock driven by the periodic loop, and what other threads can observe meanwhile. */
module MatchOnSchedule {
  import opened Units
  import opened PeriodicTask
  import opened DaemonState
  import opened MatchController
  import opened MatchTimeline
  import Encoder = ControlDataEncoder

  // ---- On time under a bounded scheduler -----------------------------------------------------

  function TickTimes(es: seq<Event>): seq<int> {
    if es == [] then []
    else
      var before, e := TickTimes(es[..|es| - 1]), es[|es| - 1];
      if e.Tick? then before + [e.now] else before
  }

  predicate Ordered(es: seq<Event>, t0: int) {
    es == [] ||
    var before, e := es[..|es| - 1], es[|es| - 1];
    Ordered(before, t0) && (!e.StopMatch? ==> LastTime(before, t0) <= e.now)
  }

  /** The ticks are those of the periodic loop started at `t0`; the other events come from other
      threads, at any time. */
  predicate Scheduled(es: seq<Event>, t0: int, period: nat, env: seq<Round>) {
    && Ordered(es, t0)
    && |TickTimes(es)| <= |env|
    && TickTimes(es) == Starts(t0, period, env, |TickTimes(es)|)
  }

  lemma {:induction false} ScheduledIsOnCadence(es: seq<Event>, t0: int, period: nat, env: seq<Round>, w: nat, c: nat)
    requires Scheduled(es, t0, period, env) && Bounded(env, 0, w, c) && w + c <= period
    ensures OnCadence(es, t0, period + w)
    ensures var n := |TickTimes(es)|;
      LastTick(es, t0) == if n == 0 then t0 else Start(t0, period, env, n - 1)
  {
    if es != [] {
      var before, e := es[..|es| - 1], es[|es| - 1];
      var n := |TickTimes(before)|;
      if e.Tick? {
        assert TickTimes(before) == TickTimes(es)[..n];
        assert TickTimes(es)[n] == e.now == Start(t0, period, env, n);
        TickGap(t0, period, env, n, w, c);
      }
      ScheduledIsOnCadence(before, t0, period, env, w, c);
    }
  }

  lemma TickGap(t0: int, period: nat, env: seq<Round>, n: nat, w: nat, c: nat)
    requires n < |env| && Bounded(env, 0, w, c) && w + c <= period
    ensures Start(t0, period, env, n)
         <= (if n == 0 then t0 else Start(t0, period, env, n - 1)) + period + w
  {
    StaysOnTime(t0, period, env, n, w, c);
    if n > 0 {
      IntervalIsPeriodPlusLateness(t0, period, env, n);
    }
  }

  /** If wake-ups are at most `w` late, ticks take at most `c`, the two fit in the period, and every
      phase outlasts `period + w`, then the phase is the ideal one after every tick of the run, and
      a boundary is acted on less than `period + w` after its ideal instant. */
  lemma MatchOnTime(d: Durations, es: seq<Event>, t0: int, period: nat, env: seq<Round>, w: nat, c: nat)
    requires Scheduled(es, t0, period, env) && Bounded(env, 0, w, c) && w + c <= period
    requires Outlasts(d, period + w)
    requires es != [] && es[|es| - 1].Tick? && Run(d, es).phase != Idle
    ensures var now := es[|es| - 1].now;
      var before, after := Run(d, es[..|es| - 1]), Run(d, es);
      && after.phase == Ideal(d, now - after.matchStart)
      && (after.phase != before.phase ==>
            after.matchStart + MsToNs(Earlier(d, after.phase)) <= now
            < after.matchStart + MsToNs(Earlier(d, after.phase)) + period + w)
  {
    ScheduledIsOnCadence(es, t0, period, env, w, c);
    OnTime(d, es, t0, period + w);
    RunAligned(d, es);
  }

  // ---- After a stall -------------------------------------------------------------------------

  lemma {:induction false} OrderedUpTo(es: seq<Event>, t0: int)
    requires Ordered(es, t0)
    ensures forall e <- es :: e.StopMatch? || e.now <= LastTime(es, t0)
  {
    if es != [] {
      OrderedUpTo(es[..|es| - 1], t0);
      assert es == es[..|es| - 1] + [es[|es| - 1]];
    }
  }

  lemma NeverAheadOfLastTime(d: Durations, es: seq<Event>, t0: int)
    requires Ordered(es, t0) && Run(d, es).phase != Idle
    ensures Rank(Run(d, es).phase) <= Rank(Ideal(d, LastTime(es, t0) - Run(d, es).matchStart))
  {
    OrderedUpTo(es, t0);
    NeverAhead(d, es, LastTime(es, t0));
  }

  /** A stall that ends with tick `m` is forgotten by tick `k`: from then on ticks are at most `w`
      late. */
  predicate Recovered(t0: int, period: nat, env: seq<Round>, m: nat, k: nat, w: nat, c: nat) {
    && m <= k < |env| && w + c < period
    && Bounded(env, m + 1, w, c) && env[m].cost <= c
    && k - m >= (Max(Lateness(t0, period, env, m) - w, 0) + (period - w - c) - 1) / (period - w - c)
  }

  lemma RecoveredGap(t0: int, period: nat, env: seq<Round>, m: nat, k: nat, w: nat, c: nat, n: nat)
    requires Recovered(t0, period, env, m, k, w, c) && k < n < |env|
    ensures Start(t0, period, env, n) <= Start(t0, period, env, n - 1) + period + w
  {
    StallForgotten(t0, period, env, m, n, w, c);
    IntervalIsPeriodPlusLateness(t0, period, env, n);
  }

  /** On the ideal timeline, or at least one phase on for every tick since tick `k`. */
  predicate CatchingUp(d: Durations, c: Clock, seen: int, ticks: int) {
    c.phase != Idle ==> c.phase == Ideal(d, seen - c.matchStart) || Rank(c.phase) >= 1 + ticks
  }

  /** A tick at most `gap` after the last event keeps to the ideal timeline or makes up a phase. */
  lemma TickCatchesUp(d: Durations, c: Clock, seen: int, now: int, gap: nat, ticks: nat)
    requires Aligned(d, c) && seen <= now <= seen + gap && Outlasts(d, gap)
    requires c.phase != Idle ==> Rank(c.phase) <= Rank(Ideal(d, seen - c.matchStart))
    requires CatchingUp(d, c, seen, ticks)
    ensures CatchingUp(d, Step(d, c, Event.Tick(now)), now, ticks + 1)
  {
    if c.phase != Idle {
      if c.phase == Ideal(d, seen - c.matchStart) {
        TickOnTime(d, c, seen, now, gap);
      } else {
        TickTowardsIdeal(d, c, now);
        IdealMonotone(d, seen - c.matchStart, now - c.matchStart);
        RankInjective(c.phase, Ideal(d, now - c.matchStart));
      }
    }
  }

  lemma RankInjective(p: Phase, q: Phase)
    ensures Rank(p) == Rank(q) ==> p == q
  {
  }

  lemma CommandSynchronises(d: Durations, c: Clock, e: Event, gap: nat)
    requires !e.Tick? && Outlasts(d, gap)
    ensures var c' := Step(d, c, e);
      c'.phase != Idle ==> !e.StopMatch? && c'.phase == Ideal(d, e.now - c'.matchStart)
  {
  }

  /** What the last event adds to a scheduled run. */
  lemma ScheduledBefore(es: seq<Event>, t0: int, period: nat, env: seq<Round>)
    requires Scheduled(es, t0, period, env) && es != []
    ensures var before, e := es[..|es| - 1], es[|es| - 1];
      && Scheduled(before, t0, period, env)
      && (e.Tick? ==>
            && |TickTimes(es)| == |TickTimes(before)| + 1
            && e.now == Start(t0, period, env, |TickTimes(before)|))
  {
    var before, e := es[..|es| - 1], es[|es| - 1];
    var n := |TickTimes(before)|;
    if e.Tick? {
      assert TickTimes(before) == TickTimes(es)[..n];
      assert TickTimes(es)[n] == e.now;
    }
  }

  lemma {:induction false} LastTickNotAfter(es: seq<Event>, t0: int, period: nat, env: seq<Round>)
    requires Scheduled(es, t0, period, env) && TickTimes(es) != []
    ensures Start(t0, period, env, |TickTimes(es)| - 1) <= LastTime(es, t0)
  {
    ScheduledBefore(es, t0, period, env);
    if !es[|es| - 1].Tick? {
      LastTickNotAfter(es[..|es| - 1], t0, period, env);
    }
  }

  lemma GapAfterRecovery(es: seq<Event>, t0: int, period: nat, env: seq<Round>, m: nat, k: nat, w: nat, c: nat)
    requires Scheduled(es, t0, period, env) && Recovered(t0, period, env, m, k, w, c)
    requires es != [] && es[|es| - 1].Tick? && |TickTimes(es)| > k + 1
    ensures es[|es| - 1].now <= LastTime(es[..|es| - 1], t0) + period + w
  {
    var before := es[..|es| - 1];
    ScheduledBefore(es, t0, period, env);
    LastTickNotAfter(before, t0, period, env);
    RecoveredGap(t0, period, env, m, k, w, c, |TickTimes(before)|);
  }

  lemma RunTickCatchesUp(d: Durations, before: seq<Event>, t0: int, now: int, gap: nat, ticks: nat)
    requires Ordered(before, t0) && LastTime(before, t0) <= now <= LastTime(before, t0) + gap && Outlasts(d, gap)
    requires CatchingUp(d, Run(d, before), LastTime(before, t0), ticks)
    ensures CatchingUp(d, Step(d, Run(d, before), Event.Tick(now)), now, ticks + 1)
  {
    RunAligned(d, before);
    if Run(d, before).phase != Idle {
      NeverAheadOfLastTime(d, before, t0);
    }
    TickCatchesUp(d, Run(d, before), LastTime(before, t0), now, gap, ticks);
  }

  lemma {:induction false} CatchesUp(d: Durations, es: seq<Event>, t0: int, period: nat, env: seq<Round>,
                                     m: nat, k: nat, w: nat, c: nat)
    requires Scheduled(es, t0, period, env) && Recovered(t0, period, env, m, k, w, c)
    requires Outlasts(d, period + w) && |TickTimes(es)| > k
    ensures CatchingUp(d, Run(d, es), LastTime(es, t0), |TickTimes(es)| - 1 - k)
  {
    var before, e := es[..|es| - 1], es[|es| - 1];
    var n := |TickTimes(before)|;
    ScheduledBefore(es, t0, period, env);
    if !e.Tick? {
      CatchesUp(d, before, t0, period, env, m, k, w, c);
      CommandSynchronises(d, Run(d, before), e, period + w);
    } else if n > k {
      CatchesUp(d, before, t0, period, env, m, k, w, c);
      GapAfterRecovery(es, t0, period, env, m, k, w, c);
      RunTickCatchesUp(d, before, t0, e.now, period + w, n - 1 - k);
    }
  }

  /** However long a stall of the clock's thread, three ticks after the lateness has decayed the
      phase is exactly the ideal one, at every later tick, whatever the other threads commanded. */
  lemma MatchOnTimeAfterStall(d: Durations, es: seq<Event>, t0: int, period: nat, env: seq<Round>,
                              m: nat, k: nat, w: nat, c: nat)
    requires Scheduled(es, t0, period, env) && Recovered(t0, period, env, m, k, w, c)
    requires Outlasts(d, period + w) && |TickTimes(es)| > k + 3
    requires es != [] && es[|es| - 1].Tick? && Run(d, es).phase != Idle
    ensures Run(d, es).phase == Ideal(d, es[|es| - 1].now - Run(d, es).matchStart)
  {
    CatchesUp(d, es, t0, period, env, m, k, w, c);
    NeverAheadOfLastTime(d, es, t0);
    RankInjective(Run(d, es).phase, Ideal(d, es[|es| - 1].now - Run(d, es).matchStart));
  }

  // ---- What a snapshot can show --------------------------------------------------------------

  /** Every setter call the controller makes over a run. */
  function AllWrites(d: Durations, es: seq<Event>): seq<Write> {
    if es == [] then []
    else
      var before := es[..|es| - 1];
      AllWrites(d, before) + Writes(d, Run(d, before), es[|es| - 1])
  }

  predicate Shows(v: Control, p: Phase) {
    v.enabled == Enabling(p) && v.mode == ModeOf(p)
  }

  /** Whatever other writers left behind, an event that writes at all re-asserts its phase and
      match time, and no event touches e-stop or alliance. Idle and ended matches write nothing
      on a tick. */
  lemma EventReasserts(d: Durations, c: Clock, e: Event, v: Control)
    ensures var v' := Replay(v, Writes(d, c, e));
      && v'.eStop == v.eStop && v'.alliance == v.alliance
      && (e.Tick? && !Running(c.phase) ==> v' == v)
      && (!e.Tick? || Running(c.phase) ==> Shows(v', Step(d, c, e).phase))
      && (e.Tick? && Running(c.phase) ==> v'.matchTime == MatchTime(d, Step(d, c, e), e.now))
  {
    var ws := Writes(d, c, e);
    if |ws| == 3 {
      ReplayThree(v, ws[0], ws[1], ws[2]);
      assert ws == [ws[0], ws[1], ws[2]];
    }
  }

  /** Every command, and every tick of a running match, leaves the robot enabled exactly in Auto and
      Teleop, with that mode, and disabled with mode Unknown otherwise, whatever others wrote. */
  lemma EventTellsRobot(d: Durations, c: Clock, e: Event, v: Control)
    requires e.Tick? ==> c.phase == Phase.Auto || c.phase == AutoTeleopGap || c.phase == Phase.Teleop
    ensures var v', p := Replay(v, Writes(d, c, e)), Step(d, c, e).phase;
      && (v'.enabled <==> p == Phase.Auto || p == Phase.Teleop)
      && (v'.mode == Encoder.RobotMode.Auto <==> p == Phase.Auto)
      && (v'.mode == Encoder.RobotMode.Teleop <==> p == Phase.Teleop)
      && (v'.mode == Encoder.RobotMode.Unknown <==> p != Phase.Auto && p != Phase.Teleop)
  {
    EventReasserts(d, c, e, v);
  }

  /** Starting enables the robot in Auto with the whole period left, whatever came before. */
  lemma StartTellsRobot(d: Durations, c: Clock, now: int, v: Control)
    ensures var v' := Replay(v, Writes(d, c, StartMatch(now)));
      && v' == v.(enabled := true, mode := Encoder.RobotMode.Auto, matchTime := v'.matchTime)
      && (d.autoPeriod <= 0x7FFF_FFFF * 1_000 ==> (v'.matchTime - 1) * 1_000 < d.autoPeriod <= v'.matchTime * 1_000)
  {
    CommandReplay(d, c, StartMatch(now), v);
    PeriodInSeconds(d.autoPeriod);
  }

  /** Skipping does so in Teleop. */
  lemma SkipTellsRobot(d: Durations, c: Clock, now: int, v: Control)
    ensures var v' := Replay(v, Writes(d, c, SkipToTeleop(now)));
      && v' == v.(enabled := true, mode := Encoder.RobotMode.Teleop, matchTime := v'.matchTime)
      && (d.teleopPeriod <= 0x7FFF_FFFF * 1_000 ==>
            (v'.matchTime - 1) * 1_000 < d.teleopPeriod <= v'.matchTime * 1_000)
  {
    CommandReplay(d, c, SkipToTeleop(now), v);
    PeriodInSeconds(d.teleopPeriod);
  }

  /** Stopping disables it, with no mode and no time left. */
  lemma StopTellsRobot(d: Durations, c: Clock, v: Control)
    ensures Replay(v, Writes(d, c, StopMatch))
         == v.(enabled := false, mode := Encoder.RobotMode.Unknown, matchTime := 0)
  {
    CommandReplay(d, c, StopMatch, v);
  }

  lemma CommandReplay(d: Durations, c: Clock, e: Event, v: Control)
    requires !e.Tick?
    ensures var c' := Step(d, c, e);
      Replay(v, Writes(d, c, e))
      == v.(enabled := Enabling(c'.phase), mode := ModeOf(c'.phase),
            matchTime := if e.StopMatch? then 0 else MatchTime(d, c', e.now))
  {
    var ws := Writes(d, c, e);
    ReplayThree(v, ws[0], ws[1], ws[2]);
    assert ws == [ws[0], ws[1], ws[2]];
  }

  lemma PeriodInSeconds(ms: nat)
    ensures var s := Int32(CeilToSeconds(MsToNs(ms)));
      ms <= 0x7FFF_FFFF * 1_000 ==> (s - 1) * 1_000 < ms <= s * 1_000
  {
    CeilCovers(MsToNs(ms));
    SecondsCover(ms, CeilToSeconds(MsToNs(ms)));
  }

  lemma SecondsCover(ms: nat, s: int)
    requires (s - 1) * 1_000_000_000 < ms * 1_000_000 <= s * 1_000_000_000
    ensures (s - 1) * 1_000 < ms <= s * 1_000
    ensures ms <= 0x7FFF_FFFF * 1_000 ==> Int32(s) == s
  {
  }

  lemma ReplayThree(v: Control, w0: Write, w1: Write, w2: Write)
    ensures Replay(v, [w0]) == Apply(v, w0)
    ensures Replay(v, [w0, w1]) == Apply(Apply(v, w0), w1)
    ensures Replay(v, [w0, w1, w2]) == Apply(Apply(Apply(v, w0), w1), w2)
  {
    assert [w0, w1, w2][..2] == [w0, w1];
    assert [w0, w1][..1] == [w0];
    assert [w0][..0] == [];
  }

  lemma {:induction false} RunShowsPhase(d: Durations, es: seq<Event>)
    ensures var v := Replay(INITIAL, AllWrites(d, es));
      Shows(v, Run(d, es).phase) && !v.eStop && v.alliance == 0
  {
    if es != [] {
      var before, e := es[..|es| - 1], es[|es| - 1];
      RunShowsPhase(d, before);
      var c := Run(d, before);
      EventReasserts(d, c, e, Replay(INITIAL, AllWrites(d, before)));
      ReplayAppends(INITIAL, AllWrites(d, before), Writes(d, c, e));
    }
  }

  /** What is visible while the clock goes from `p` to `q`, with the state going from `before` to
      `after`: the enable bit changes first, then the mode, and the match time last. Enabled with an
      unknown mode is seen only while becoming enabled. */
  predicate BetweenPhases(v: Control, before: Control, after: Control, p: Phase, q: Phase) {
    && (Shows(v, p) || Shows(v, q) || (v.enabled == Enabling(q) && v.mode == ModeOf(p)))
    && (v.enabled && v.mode == Encoder.RobotMode.Unknown ==> !Enabling(p) && Enabling(q))
    && (v.matchTime == before.matchTime || v == after)
    && !v.eStop && v.alliance == 0
  }

  lemma MidEvent(d: Durations, c: Clock, e: Event, v: Control, k: nat)
    requires Shows(v, c.phase) && !v.eStop && v.alliance == 0 && k <= |Writes(d, c, e)|
    ensures BetweenPhases(Replay(v, Writes(d, c, e)[..k]), v, Replay(v, Writes(d, c, e)),
                          c.phase, Step(d, c, e).phase)
  {
    if |Writes(d, c, e)| == 3 {
      ReplayPrefix(v, Writes(d, c, e), k);
    }
  }

  lemma ReplayPrefix(v: Control, ws: seq<Write>, k: nat)
    requires |ws| == 3 && k <= 3
    ensures Replay(v, ws) == Apply(Apply(Apply(v, ws[0]), ws[1]), ws[2])
    ensures Replay(v, ws[..k])
         == if k == 0 then v
            else if k == 1 then Apply(v, ws[0])
            else if k == 2 then Apply(Apply(v, ws[0]), ws[1])
            else Replay(v, ws)
  {
    ReplayThree(v, ws[0], ws[1], ws[2]);
    assert ws == [ws[0], ws[1], ws[2]];
    assert ws[..k] == if k == 0 then [] else if k == 1 then [ws[0]] else if k == 2 then [ws[0], ws[1]] else ws;
  }

  /** What event `j` adds to the clock and to the setter calls. */
  lemma EventAt(d: Durations, es: seq<Event>, j: nat)
    requires j < |es|
    ensures Run(d, es[..j + 1]) == Step(d, Run(d, es[..j]), es[j])
    ensures AllWrites(d, es[..j + 1]) == AllWrites(d, es[..j]) + Writes(d, Run(d, es[..j]), es[j])
  {
    assert es[..j + 1][..j] == es[..j];
  }

  /** The setter calls of the first `j` events come first. */
  lemma {:induction false} WritesUpTo(d: Durations, es: seq<Event>, j: nat)
    requires j <= |es|
    ensures AllWrites(d, es[..j]) <= AllWrites(d, es)
  {
    if j < |es| {
      var before := es[..|es| - 1];
      assert before[..j] == es[..j];
      WritesUpTo(d, before, j);
    } else {
      assert es[..j] == es;
    }
  }

  /** Setter call `k` falls to event `j`. */
  predicate During(d: Durations, es: seq<Event>, j: nat, k: nat)
    requires j < |es|
  {
    |AllWrites(d, es[..j])| <= k <= |AllWrites(d, es[..j + 1])|
  }

  lemma PrefixSplits(all: seq<Write>, earlier: seq<Write>, ws: seq<Write>, k: nat)
    requires earlier + ws <= all && |earlier| <= k <= |earlier + ws|
    ensures all[..k] == earlier + ws[..k - |earlier|]
  {
  }

  /** With only the controller writing, a snapshot taken while event `j` is in flight shows what is
      between the phases before and after that event. */
  lemma {:induction false} SnapshotDuring(d: Durations, es: seq<Event>, j: nat, k: nat)
    requires j < |es| && k <= |AllWrites(d, es)| && During(d, es, j, k)
    ensures BetweenPhases(Replay(INITIAL, AllWrites(d, es)[..k]),
                          Replay(INITIAL, AllWrites(d, es[..j])), Replay(INITIAL, AllWrites(d, es[..j + 1])),
                          Run(d, es[..j]).phase, Run(d, es[..j + 1]).phase)
  {
    var earlier, c := AllWrites(d, es[..j]), Run(d, es[..j]);
    EventAt(d, es, j);
    WritesUpTo(d, es, j + 1);
    RunShowsPhase(d, es[..j]);
    SnapshotAmid(d, c, es[j], AllWrites(d, es), earlier, k);
  }

  /** The same for the setter calls of one event amid those of a run. */
  lemma SnapshotAmid(d: Durations, c: Clock, e: Event, all: seq<Write>, earlier: seq<Write>, k: nat)
    requires earlier + Writes(d, c, e) <= all && |earlier| <= k <= |earlier + Writes(d, c, e)|
    requires var v := Replay(INITIAL, earlier); Shows(v, c.phase) && !v.eStop && v.alliance == 0
    ensures BetweenPhases(Replay(INITIAL, all[..k]), Replay(INITIAL, earlier),
                          Replay(INITIAL, earlier + Writes(d, c, e)), c.phase, Step(d, c, e).phase)
  {
    var ws := Writes(d, c, e);
    PrefixSplits(all, earlier, ws, k);
    ReplayAppends(INITIAL, earlier, ws[..k - |earlier|]);
    ReplayAppends(INITIAL, earlier, ws);
    MidEvent(d, c, e, Replay(INITIAL, earlier), k - |earlier|);
  }

  /** Every moment of a run falls to one of its events. */
  lemma {:induction false} SomeEventInFlight(d: Durations, es: seq<Event>, n: nat, k: nat)
    requires 0 < n <= |es| && k <= |AllWrites(d, es[..n])|
    ensures exists j: nat | j < n :: During(d, es, j, k)
  {
    if n > 1 && k <= |AllWrites(d, es[..n - 1])| {
      SomeEventInFlight(d, es, n - 1, k);
    } else {
      assert During(d, es, n - 1, k) by {
        assert n == 1 ==> es[..n - 1] == [];
      }
    }
  }

  /** Whenever a snapshot is taken, some event is in flight at that moment, and the snapshot lies
      between the phases before and after every such event. */
  lemma {:induction false} SnapshotBetweenPhases(d: Durations, es: seq<Event>, k: nat)
    requires es != [] && k <= |AllWrites(d, es)|
    ensures exists j: nat | j < |es| :: During(d, es, j, k)
    ensures forall j: nat | j < |es| && During(d, es, j, k) ::
              BetweenPhases(Replay(INITIAL, AllWrites(d, es)[..k]),
                            Replay(INITIAL, AllWrites(d, es[..j])), Replay(INITIAL, AllWrites(d, es[..j + 1])),
                            Run(d, es[..j]).phase, Run(d, es[..j + 1]).phase)
  {
    assert es[..|es|] == es;
    SomeEventInFlight(d, es, |es|, k);
    forall j: nat | j < |es| && During(d, es, j, k)
      ensures BetweenPhases(Replay(INITIAL, AllWrites(d, es)[..k]),
                            Replay(INITIAL, AllWrites(d, es[..j])), Replay(INITIAL, AllWrites(d, es[..j + 1])),
                            Run(d, es[..j]).phase, Run(d, es[..j + 1]).phase)
    {
      SnapshotDuring(d, es, j, k);
    }
  }
}
