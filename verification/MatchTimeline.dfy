/** Whole runs of the match clock against the ideal timeline: the phase as a pure function of the
    time since the match started. */
module MatchTimeline {
  import opened Units
  import opened MatchController

  function RunFrom(d: Durations, c: Clock, es: seq<Event>): Clock {
    if es == [] then c else Step(d, RunFrom(d, c, es[..|es| - 1]), es[|es| - 1])
  }

  function Run(d: Durations, es: seq<Event>): Clock {
    RunFrom(d, INITIAL_CLOCK, es)
  }

  function Ticks(ts: seq<int>): seq<Event> {
    seq(|ts|, i requires 0 <= i < |ts| => Tick(ts[i]))
  }

  lemma {:induction false} RunAppends(d: Durations, c: Clock, a: seq<Event>, b: seq<Event>)
    ensures RunFrom(d, c, a + b) == RunFrom(d, RunFrom(d, c, a), b)
  {
    if b == [] {
      assert a + b == a;
    } else {
      var n := |b| - 1;
      assert (a + b)[..|a + b| - 1] == a + b[..n];
      RunAppends(d, c, a, b[..n]);
    }
  }

  // ---- The ideal timeline --------------------------------------------------------------------

  function Rank(p: Phase): nat {
    match p
    case Idle => 0
    case Auto => 1
    case AutoTeleopGap => 2
    case Teleop => 3
    case MatchEnded => 4
  }

  /** Milliseconds of the phases before `p`. */
  function Earlier(d: Durations, p: Phase): nat {
    match p
    case Idle => 0
    case Auto => 0
    case AutoTeleopGap => d.autoPeriod
    case Teleop => d.autoPeriod + d.autoTeleopGap
    case MatchEnded => d.autoPeriod + d.autoTeleopGap + d.teleopPeriod
  }

  /** The phase a match should be in `t` nanoseconds after its start. */
  function Ideal(d: Durations, t: int): Phase {
    if t < MsToNs(d.autoPeriod) then Auto
    else if t < MsToNs(d.autoPeriod + d.autoTeleopGap) then AutoTeleopGap
    else if t < MsToNs(d.autoPeriod + d.autoTeleopGap + d.teleopPeriod) then Teleop
    else MatchEnded
  }

  lemma IdealMonotone(d: Durations, t: int, u: int)
    requires t <= u
    ensures Rank(Ideal(d, t)) <= Rank(Ideal(d, u))
  {
  }

  // ---- Every reachable state -----------------------------------------------------------------

  /** The phase started exactly when the durations before it had passed since the match start. */
  predicate Aligned(d: Durations, c: Clock) {
    if c.phase == Idle then c == INITIAL_CLOCK
    else c.phaseStart - c.matchStart == MsToNs(Earlier(d, c.phase))
  }

  lemma {:induction false} RunAligned(d: Durations, es: seq<Event>)
    ensures Aligned(d, Run(d, es))
  {
    if es != [] {
      RunAligned(d, es[..|es| - 1]);
    }
  }

  /** A tick advances by exactly one phase when the clock is behind the ideal timeline, and
      otherwise leaves it alone; it never skips a phase. */
  lemma TickTowardsIdeal(d: Durations, c: Clock, now: int)
    requires Aligned(d, c) && c.phase != Idle
    ensures var c' := Step(d, c, Tick(now));
      && Aligned(d, c') && c'.matchStart == c.matchStart && c'.phase != Idle
      && Rank(c'.phase) == Rank(c.phase)
                         + (if Rank(c.phase) < Rank(Ideal(d, now - c.matchStart)) then 1 else 0)
  {
  }

  /** The clock never runs ahead of the ideal timeline, in whatever order threads took the lock. */
  lemma {:induction false} NeverAhead(d: Durations, es: seq<Event>, t: int)
    requires forall e <- es :: e.StopMatch? || e.now <= t
    requires Run(d, es).phase != Idle
    ensures Rank(Run(d, es).phase) <= Rank(Ideal(d, t - Run(d, es).matchStart))
  {
    var n := |es| - 1;
    var c := Run(d, es[..n]);
    RunAligned(d, es[..n]);
    if es[n].Tick? && c.phase != Idle {
      NeverAhead(d, es[..n], t);
      TickTowardsIdeal(d, c, es[n].now);
      IdealMonotone(d, es[n].now - c.matchStart, t - c.matchStart);
    }
  }

  /** However late they come, `n` ticks at or after `t` make up `n` phases of any lag behind the
      ideal phase of `t`. */
  lemma {:induction false} TicksCatchUp(d: Durations, c: Clock, ts: seq<int>, t: int)
    requires Aligned(d, c) && c.phase != Idle
    requires forall u <- ts :: t <= u
    ensures var c' := RunFrom(d, c, Ticks(ts));
      && Aligned(d, c') && c'.phase != Idle && c'.matchStart == c.matchStart
      && Rank(c'.phase) >= Min(Rank(c.phase) + |ts|, Rank(Ideal(d, t - c.matchStart)))
  {
    if ts != [] {
      var n := |ts| - 1;
      assert Ticks(ts)[..n] == Ticks(ts[..n]);
      assert forall u <- ts[..n] :: u in ts;
      assert ts[n] in ts;
      TicksCatchUp(d, c, ts[..n], t);
      var c1 := RunFrom(d, c, Ticks(ts[..n]));
      TickTowardsIdeal(d, c1, ts[n]);
      IdealMonotone(d, t - c.matchStart, ts[n] - c.matchStart);
    }
  }

  /** After any run, three ticks at or after `t` reach the ideal phase of `t`, and the match is
      over once `t` is past its end. If nothing in the run came after `t`, they reach it exactly. */
  lemma ThreeTicksSuffice(d: Durations, es: seq<Event>, ts: seq<int>, t: int)
    requires Run(d, es).phase != Idle && |ts| >= 3
    requires forall u <- ts :: t <= u
    ensures var c, c' := Run(d, es), Run(d, es + Ticks(ts));
      var ideal := Ideal(d, t - c.matchStart);
      && Rank(c'.phase) >= Rank(ideal)
      && (t - c.matchStart >= MsToNs(Earlier(d, MatchEnded)) ==> c'.phase == MatchEnded)
      && ((forall e <- es + Ticks(ts) :: e.StopMatch? || e.now <= t) ==> c'.phase == ideal)
  {
    var c := Run(d, es);
    RunAligned(d, es);
    RunAppends(d, INITIAL_CLOCK, es, Ticks(ts));
    TicksCatchUp(d, c, ts, t);
    if forall e <- es + Ticks(ts) :: e.StopMatch? || e.now <= t {
      NeverAhead(d, es + Ticks(ts), t);
    }
  }

  /** Whatever came before, starting, skipping and stopping set the clock as if afresh, and ticks
      leave a stopped clock alone. */
  lemma CommandsTakeOver(d: Durations, es: seq<Event>, t: int, ts: seq<int>)
    ensures SnapshotOf(d, Run(d, es + [StartMatch(t)]), t) == Snapshot(Auto, 0, 0, d.autoPeriod)
    ensures SnapshotOf(d, Run(d, es + [SkipToTeleop(t)]), t)
         == Snapshot(Teleop, 0, d.autoPeriod + d.autoTeleopGap, d.teleopPeriod)
    ensures Run(d, es + [StopMatch] + Ticks(ts)) == INITIAL_CLOCK
  {
    assert (es + [StartMatch(t)])[..|es|] == es && (es + [SkipToTeleop(t)])[..|es|] == es;
    assert (es + [StopMatch])[..|es|] == es;
    RunAppends(d, INITIAL_CLOCK, es + [StopMatch], Ticks(ts));
    IdleStays(d, ts);
  }

  lemma {:induction false} IdleStays(d: Durations, ts: seq<int>)
    ensures RunFrom(d, INITIAL_CLOCK, Ticks(ts)) == INITIAL_CLOCK
  {
    if ts != [] {
      assert Ticks(ts)[..|ts| - 1] == Ticks(ts[..|ts| - 1]);
      IdleStays(d, ts[..|ts| - 1]);
    }
  }

  // ---- Ticks on a cadence --------------------------------------------------------------------

  function LastTick(es: seq<Event>, t0: int): int {
    if es == [] then t0
    else if es[|es| - 1].Tick? then es[|es| - 1].now
    else LastTick(es[..|es| - 1], t0)
  }

  /** When the last event that carries a time happened. */
  function LastTime(es: seq<Event>, t0: int): int {
    if es == [] then t0
    else if es[|es| - 1].StopMatch? then LastTime(es[..|es| - 1], t0)
    else es[|es| - 1].now
  }

  /** Times never decrease, and no tick comes more than `gap` after the tick before it. */
  predicate OnCadence(es: seq<Event>, t0: int, gap: nat) {
    es == [] ||
    var before, e := es[..|es| - 1], es[|es| - 1];
    && OnCadence(before, t0, gap)
    && (!e.StopMatch? ==> LastTime(before, t0) <= e.now)
    && (e.Tick? ==> e.now <= LastTick(before, t0) + gap)
  }

  /** Every phase outlasts the gap between ticks. */
  predicate Outlasts(d: Durations, gap: nat) {
    && gap < MsToNs(d.autoPeriod)
    && gap < MsToNs(d.autoTeleopGap)
    && gap < MsToNs(d.teleopPeriod)
  }

  lemma {:induction false} LastTickBefore(es: seq<Event>, t0: int, gap: nat)
    requires OnCadence(es, t0, gap)
    ensures LastTick(es, t0) <= LastTime(es, t0)
  {
    if es != [] {
      LastTickBefore(es[..|es| - 1], t0, gap);
    }
  }

  lemma TickOnTime(d: Durations, c: Clock, seen: int, now: int, gap: nat)
    requires Aligned(d, c) && c.phase != Idle && Outlasts(d, gap)
    requires c.phase == Ideal(d, seen - c.matchStart) && seen <= now <= seen + gap
    ensures var c' := Step(d, c, Tick(now));
      && c'.phase == Ideal(d, now - c.matchStart)
      && (c'.phase != c.phase ==> c'.phaseStart <= now < c'.phaseStart + gap)
  {
  }

  /** While ticks keep their cadence, the phase is the ideal one after every event, and a tick that
      changes it comes less than `gap` after the boundary it acts on. */
  lemma {:induction false} OnTime(d: Durations, es: seq<Event>, t0: int, gap: nat)
    requires OnCadence(es, t0, gap) && Outlasts(d, gap)
    ensures var c := Run(d, es);
      c.phase != Idle ==> c.phase == Ideal(d, LastTime(es, t0) - c.matchStart)
    ensures es != [] && es[|es| - 1].Tick? ==>
      var c, c' := Run(d, es[..|es| - 1]), Run(d, es);
      c'.phase != c.phase ==> c'.phaseStart <= es[|es| - 1].now < c'.phaseStart + gap
  {
    if es != [] {
      var before, e := es[..|es| - 1], es[|es| - 1];
      OnTime(d, before, t0, gap);
      RunAligned(d, before);
      LastTickBefore(before, t0, gap);
      var c := Run(d, before);
      if e.Tick? && c.phase != Idle {
        TickOnTime(d, c, LastTime(before, t0), e.now, gap);
      }
    }
  }

  /** Once no event of the run lies in the future, neither does the start of the phase. */
  lemma {:induction false} PhaseHasStarted(d: Durations, es: seq<Event>, t: int)
    requires forall e <- es :: e.StopMatch? || e.now <= t
    requires Run(d, es).phase != Idle
    ensures Run(d, es).phaseStart <= t
  {
    if es[|es| - 1].Tick? {
      PhaseHasStarted(d, es[..|es| - 1], t);
    }
  }

  // ---- Times shown to the robot and to the page ----------------------------------------------

  /** The published match time, computed from nanoseconds, is the snapshot's remaining time,
      truncated to milliseconds along the way, rounded up to seconds. */
  lemma RoundingsAgree(d: Durations, c: Clock, now: int)
    requires c.phaseStart <= now && c.phase != Idle
    ensures SecondsLeft(d, c, now) == CeilMsToSeconds(SnapshotOf(d, c, now).remainingInPhase)
  {
  }

  /** Within a phase it counts down from the period, rounded up, to 0; elsewhere it is 0. */
  lemma MatchTimeCountsDown(d: Durations, c: Clock, t: int, u: int)
    requires c.phaseStart <= t <= u && DurationFor(d, c.phase) <= 0x7FFF_FFFF * 1_000
    ensures 0 <= MatchTime(d, c, u) <= MatchTime(d, c, t) <= CeilMsToSeconds(DurationFor(d, c.phase))
    ensures MatchTime(d, c, t) == 0 <==>
      !Enabling(c.phase) || t - c.phaseStart >= MsToNs(DurationFor(d, c.phase))
  {
    CeilCountsDown(TimeLeft(d, c, u), TimeLeft(d, c, t), DurationFor(d, c.phase));
    Int32Keeps(SecondsLeft(d, c, u));
    Int32Keeps(SecondsLeft(d, c, t));
  }

  lemma CeilCountsDown(a: nat, b: nat, ms: nat)
    requires a <= b <= MsToNs(ms) && ms <= 0x7FFF_FFFF * 1_000
    ensures 0 <= CeilToSeconds(a) <= CeilToSeconds(b) <= CeilMsToSeconds(ms) <= 0x7FFF_FFFF
    ensures CeilToSeconds(b) == 0 <==> b == 0
  {
  }

  lemma Int32Keeps(x: nat)
    ensures x <= 0x7FFF_FFFF ==> Int32(x) == x
  {
  }

  /** The match time is the nanoseconds left in the Auto or Teleop period, rounded up to seconds and
      narrowed to 32 bits; 0 in any other phase. */
  lemma MatchTimeIsSecondsLeft(d: Durations, c: Clock, now: int, seconds: int)
    requires c.phase == Auto || c.phase == Teleop
    requires var period := if c.phase == Auto then d.autoPeriod else d.teleopPeriod;
      var left := period * 1_000_000 - (now - c.phaseStart);
      (seconds - 1) * 1_000_000_000 < (if left < 0 then 0 else left) <= seconds * 1_000_000_000
    ensures var shown := MatchTime(d, c, now);
      -0x8000_0000 <= shown < 0x8000_0000 && (seconds - shown) % 0x1_0000_0000 == 0
  {
    CeilCovers(TimeLeft(d, c, now));
    Int32Congruent(seconds, MatchTime(d, c, now));
  }

  lemma NoMatchTimeElsewhere(d: Durations, c: Clock, now: int)
    requires c.phase == Idle || c.phase == AutoTeleopGap || c.phase == MatchEnded
    ensures MatchTime(d, c, now) == 0
  {
  }

  /** What the page is shown, at any instant, even one before the phase started: elapsed times
      truncated toward zero, and what is left of the phase's own period. */
  lemma SnapshotShows(d: Durations, c: Clock, now: int)
    ensures SnapshotOf(d, c, now).phase == c.phase
    ensures c.phase == Idle ==> SnapshotOf(d, c, now) == Snapshot(Idle, 0, 0, 0)
    ensures c.phase != Idle ==>
      var s := SnapshotOf(d, c, now);
      && IsTruncated(s.elapsedInPhase, now - c.phaseStart) && IsTruncated(s.totalElapsed, now - c.matchStart)
      && (c.phase == Auto ==> s.remainingInPhase == Max(d.autoPeriod - s.elapsedInPhase, 0))
      && (c.phase == AutoTeleopGap ==> s.remainingInPhase == Max(d.autoTeleopGap - s.elapsedInPhase, 0))
      && (c.phase == Teleop ==> s.remainingInPhase == Max(d.teleopPeriod - s.elapsedInPhase, 0))
      && (c.phase == MatchEnded ==> s.remainingInPhase == Max(-s.elapsedInPhase, 0))
  {
    Truncates(now - c.phaseStart);
    Truncates(now - c.matchStart);
  }

  predicate IsTruncated(ms: int, ns: int) {
    if ns >= 0 then ms * 1_000_000 <= ns < (ms + 1) * 1_000_000
    else (ms - 1) * 1_000_000 < ns <= ms * 1_000_000
  }

  /** Total and in-phase elapsed time are truncated separately and still differ by exactly the
      phases before; remaining time completes the phase until it is overdue. */
  lemma SnapshotAddsUp(d: Durations, es: seq<Event>, now: int)
    requires Run(d, es).phase != Idle && Run(d, es).phaseStart <= now
    ensures var c := Run(d, es);
      var s := SnapshotOf(d, c, now);
      && s.totalElapsed == s.elapsedInPhase + Earlier(d, c.phase)
      && 0 <= s.elapsedInPhase && 0 <= s.remainingInPhase
      && (!Overdue(d, c, now) ==> s.elapsedInPhase + s.remainingInPhase == DurationFor(d, c.phase))
      && (Overdue(d, c, now) ==> s.remainingInPhase == 0)
  {
    RunAligned(d, es);
    var c := Run(d, es);
    assert now - c.matchStart == now - c.phaseStart + MsToNs(Earlier(d, c.phase));
  }
}
