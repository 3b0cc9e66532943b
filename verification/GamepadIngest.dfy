/** The gamepad thread, which writes a field of the shared state only when its topic changed, and
    its interleaving with the other writers, setter by setter. */
module GamepadIngest {
  import opened Units
  import opened DaemonState
  import Encoder = ControlDataEncoder

  /** The four topics; the integer ones are 64-bit values. */
  datatype Pad = Pad(enabled: bool, mode: int, alliance: int, eStop: bool)

  const SENTINEL := -9999
  const NOTHING_SEEN := Pad(false, SENTINEL, SENTINEL, false)

  /** The setter calls of one tick. */
  function TickWrites(first: bool, seen: Pad, now: Pad): seq<Write> {
    When(first || now.enabled != seen.enabled, SetEnabled(now.enabled))
    + When(first || now.mode != seen.mode, SetMode(Encoder.ModeFromInt(now.mode)))
    + When(first || now.alliance != seen.alliance, SetAlliance(Int32(now.alliance)))
    + When(first || now.eStop != seen.eStop, SetEStop(now.eStop))
  }

  /** What one tick does to the state: the first takes over every topic, later ones the topics that
      changed. Modes 1, 2 and 3 are Auto, Teleop and Test, anything else is Unknown; the alliance is
      narrowed to 32 bits. */
  lemma TickEffect(c: Control, first: bool, seen: Pad, now: Pad)
    ensures var c' := Replay(c, TickWrites(first, seen, now));
      && c'.enabled == (if first || now.enabled != seen.enabled then now.enabled else c.enabled)
      && c'.eStop == (if first || now.eStop != seen.eStop then now.eStop else c.eStop)
      && c'.matchTime == c.matchTime
      && (!first && now.mode == seen.mode ==> c'.mode == c.mode)
      && (first || now.mode != seen.mode ==>
            && (c'.mode == Encoder.RobotMode.Auto <==> now.mode == 1)
            && (c'.mode == Encoder.RobotMode.Teleop <==> now.mode == 2)
            && (c'.mode == Encoder.RobotMode.Test <==> now.mode == 3))
      && (!first && now.alliance == seen.alliance ==> c'.alliance == c.alliance)
      && (first || now.alliance != seen.alliance ==>
            -0x8000_0000 <= c'.alliance < 0x8000_0000 && (now.alliance - c'.alliance) % 0x1_0000_0000 == 0)
  {
    ReplayFour(c, first || now.enabled != seen.enabled, SetEnabled(now.enabled),
               first || now.mode != seen.mode, SetMode(Encoder.ModeFromInt(now.mode)),
               first || now.alliance != seen.alliance, SetAlliance(Int32(now.alliance)),
               first || now.eStop != seen.eStop, SetEStop(now.eStop));
    Int32Congruent(now.alliance, Int32(now.alliance));
  }

  /** The order of the setters in a tick. */
  function Place(w: Write): nat {
    match w
    case SetEnabled(_) => 0
    case SetMode(_) => 1
    case SetAlliance(_) => 2
    case SetEStop(_) => 3
    case SetMatchTime(_) => 4
  }

  lemma TickWritesInOrder(first: bool, seen: Pad, now: Pad)
    ensures InOrder(TickWrites(first, seen, now), Place, 0, 4)
  {
    FourInOrder(first || now.enabled != seen.enabled, SetEnabled(now.enabled),
                first || now.mode != seen.mode, SetMode(Encoder.ModeFromInt(now.mode)),
                first || now.alliance != seen.alliance, SetAlliance(Int32(now.alliance)),
                first || now.eStop != seen.eStop, SetEStop(now.eStop), Place);
  }

  class GamepadIngest {
    const state: DaemonState
    var lastEnabledSeen: bool
    var lastModeSeen: int
    var lastAllianceSeen: int
    var lastEStopSeen: bool
    var firstTick: bool

    ghost function Seen(): Pad
      reads this
    {
      Pad(lastEnabledSeen, lastModeSeen, lastAllianceSeen, lastEStopSeen)
    }

    constructor (state: DaemonState)
      ensures this.state == state && firstTick && Seen() == NOTHING_SEEN
    {
      this.state := state;
      lastEnabledSeen, lastModeSeen, lastAllianceSeen, lastEStopSeen := false, SENTINEL, SENTINEL, false;
      firstTick := true;
    }

    method Tick(pad: Pad)
      requires state.Valid()
      modifies this, state
      ensures state.Valid() && !firstTick && Seen() == pad
      ensures state.calls == old(state.calls) + TickWrites(old(firstTick), old(Seen()), pad)
    {
      ghost var calls := state.calls;
      ghost var a := When(firstTick || pad.enabled != lastEnabledSeen, SetEnabled(pad.enabled));
      ghost var b := When(firstTick || pad.mode != lastModeSeen, SetMode(Encoder.ModeFromInt(pad.mode)));
      ghost var c := When(firstTick || pad.alliance != lastAllianceSeen, SetAlliance(Int32(pad.alliance)));
      ghost var d := When(firstTick || pad.eStop != lastEStopSeen, SetEStop(pad.eStop));
      FourAppended(calls, a, b, c, d);
      PollEnabledAndMode(pad.enabled, pad.mode);
      PollAllianceAndEStop(pad.alliance, pad.eStop);
      firstTick := false;
    }

    method PollEnabledAndMode(enabled: bool, mode: int)
      requires state.Valid()
      modifies this`lastEnabledSeen, this`lastModeSeen, state
      ensures state.Valid() && lastEnabledSeen == enabled && lastModeSeen == mode
      ensures state.calls == old(state.calls)
                           + When(firstTick || enabled != old(lastEnabledSeen), SetEnabled(enabled))
                           + When(firstTick || mode != old(lastModeSeen), SetMode(Encoder.ModeFromInt(mode)))
    {
      PollEnabled(enabled);
      PollMode(mode);
    }

    method PollAllianceAndEStop(alliance: int, eStop: bool)
      requires state.Valid()
      modifies this`lastAllianceSeen, this`lastEStopSeen, state
      ensures state.Valid() && lastAllianceSeen == alliance && lastEStopSeen == eStop
      ensures state.calls == old(state.calls)
                           + When(firstTick || alliance != old(lastAllianceSeen), SetAlliance(Int32(alliance)))
                           + When(firstTick || eStop != old(lastEStopSeen), SetEStop(eStop))
    {
      PollAlliance(alliance);
      PollEStop(eStop);
    }

    method PollEnabled(enabled: bool)
      requires state.Valid()
      modifies this`lastEnabledSeen, state
      ensures state.Valid() && lastEnabledSeen == enabled
      ensures state.calls == old(state.calls)
                           + When(firstTick || enabled != old(lastEnabledSeen), SetEnabled(enabled))
    {
      if firstTick || enabled != lastEnabledSeen {
        state.SetEnabled(enabled);
        lastEnabledSeen := enabled;
      }
    }

    method PollMode(mode: int)
      requires state.Valid()
      modifies this`lastModeSeen, state
      ensures state.Valid() && lastModeSeen == mode
      ensures state.calls == old(state.calls)
                           + When(firstTick || mode != old(lastModeSeen), SetMode(Encoder.ModeFromInt(mode)))
    {
      if firstTick || mode != lastModeSeen {
        state.SetMode(Encoder.ModeFromInt(mode));
        lastModeSeen := mode;
      }
    }

    method PollAlliance(alliance: int)
      requires state.Valid()
      modifies this`lastAllianceSeen, state
      ensures state.Valid() && lastAllianceSeen == alliance
      ensures state.calls == old(state.calls)
                           + When(firstTick || alliance != old(lastAllianceSeen), SetAlliance(Int32(alliance)))
    {
      if firstTick || alliance != lastAllianceSeen {
        state.SetAlliance(Int32(alliance));
        lastAllianceSeen := alliance;
      }
    }

    method PollEStop(eStop: bool)
      requires state.Valid()
      modifies this`lastEStopSeen, state
      ensures state.Valid() && lastEStopSeen == eStop
      ensures state.calls == old(state.calls)
                           + When(firstTick || eStop != old(lastEStopSeen), SetEStop(eStop))
    {
      if firstTick || eStop != lastEStopSeen {
        state.SetEStop(eStop);
        lastEStopSeen := eStop;
      }
    }
  }
}
