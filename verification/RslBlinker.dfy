/** The robot signal light: solid when disabled, blinking when enabled, written only on change. */
module RslBlinker {
  import opened DaemonState
  import opened LibgpiodBackend
  import opened SmartIoChannel
  import opened SmartIoBridge
  import opened SmartIoRuns
  import opened SmartIoLines

  const HALF_PERIOD: nat := 500

  /** The level wanted `elapsed` milliseconds after the blinker started. */
  function DesiredLevel(enabled: bool, elapsed: nat): bool {
    !enabled || elapsed / HALF_PERIOD % 2 == 0
  }

  /** The light is solid on while disabled, and while enabled on for the first 500 milliseconds of
      every 1000. */
  lemma LevelWanted(elapsed: nat)
    ensures DesiredLevel(false, elapsed)
    ensures DesiredLevel(true, elapsed) <==> elapsed % 1000 < 500
  {
  }

  function LevelOps(gpio: int, last: bool, want: bool): seq<Op> {
    if want != last then [SetValue(gpio, want)] else []
  }

  class RslBlinker {
    const state: DaemonState
    const backend: LibgpiodBackend
    const gpio: int
    var started: bool  // whether the thread is running
    var last: bool

    /** The line is held as an output at the level last written. */
    ghost predicate Lit()
      reads this, backend
    {
      backend.Valid() && gpio in backend.lines && backend.lines[gpio] == Output(last)
    }

    constructor (state: DaemonState, backend: LibgpiodBackend, gpio: int)
      ensures this.state == state && this.backend == backend && this.gpio == gpio && !started
    {
      this.state, this.backend, this.gpio := state, backend, gpio;
      started, last := false, true;
    }

    method Start()
      requires backend.Valid()
      modifies this, backend
      ensures Lit() && started && last && backend.ops == old(backend.ops) + [RequestOutput(gpio, true)]
    {
      backend.RequestOutput(gpio, true);
      started, last := true, true;
    }

    /** Stopping a blinker that is not running does nothing. */
    method Stop()
      requires backend.Valid()
      modifies this`started, backend
      ensures backend.Valid() && !started
      ensures backend.ops == if old(started) then old(backend.ops) + [ReleaseLine(gpio)] else old(backend.ops)
    {
      if started {
        started := false;
        backend.ReleaseLine(gpio);
      }
    }

    /** One tick: whatever was on the line, it ends at the level wanted now. */
    method Tick(elapsed: nat)
      requires Lit() && state.Valid()
      modifies this`last, backend
      ensures Lit() && last == DesiredLevel(Replay(INITIAL, state.calls).enabled, elapsed)
      ensures backend.ops == old(backend.ops) + LevelOps(gpio, old(last), last)
    {
      var view := state.SnapshotControl();
      var want := DesiredLevel(view.enabled, elapsed);
      if want != last {
        backend.SetValue(gpio, want);
        last := want;
      }
    }
  }

  // ---- Whole runs ----------------------------------------------------------------------------

  /** The level wanted last; the line starts on. */
  function LastWanted(wants: seq<bool>): bool {
    wants == [] || wants[|wants| - 1]
  }

  /** The operations made over a run that wants these levels. */
  function LightOps(gpio: int, wants: seq<bool>): seq<Op> {
    if wants == [] then []
    else
      var before := wants[..|wants| - 1];
      LightOps(gpio, before) + LevelOps(gpio, LastWanted(before), LastWanted(wants))
  }

  /** Although it writes only on change, the line is always at the level wanted last. */
  lemma {:induction false} LineFollows(gpio: int, wants: seq<bool>, lines: Lines)
    requires gpio in lines && lines[gpio] == Output(true)
    ensures DriveAll(lines, LightOps(gpio, wants)) == lines[gpio := Output(LastWanted(wants))]
  {
    if wants == [] {
      assert DriveAll(lines, []) == lines[gpio := Output(true)];
    } else {
      var before := wants[..|wants| - 1];
      LineFollows(gpio, before, lines);
      var write := SetValue(gpio, LastWanted(wants));
      DriveAppends(lines, LightOps(gpio, before), LevelOps(gpio, LastWanted(before), LastWanted(wants)));
      DriveFew(DriveAll(lines, LightOps(gpio, before)), write, write);
    }
  }

  /** Writes alternate: off first, then each the opposite of the one before. */
  lemma {:induction false} WritesAlternate(gpio: int, wants: seq<bool>)
    ensures var ops := LightOps(gpio, wants);
      && (forall i :: 0 <= i < |ops| ==> ops[i] == SetValue(gpio, i % 2 == 1))
      && (|ops| % 2 == 0 <==> LastWanted(wants))
  {
    if wants != [] {
      WritesAlternate(gpio, wants[..|wants| - 1]);
    }
  }

  // ---- Beside the bridge ---------------------------------------------------------------------

  /** `ops` are the operations of two threads, `a` and `b`, each in its own order. */
  predicate Interleaves(ops: seq<Op>, a: seq<Op>, b: seq<Op>)
    decreases |ops|
  {
    if ops == [] then a == [] && b == []
    else
      var before, op := ops[..|ops| - 1], ops[|ops| - 1];
      || (a != [] && a[|a| - 1] == op && Interleaves(before, a[..|a| - 1], b))
      || (b != [] && b[|b| - 1] == op && Interleaves(before, a, b[..|b| - 1]))
  }

  predicate SameLine(x: Lines, y: Lines, pin: int) {
    (pin in x <==> pin in y) && (pin in x ==> x[pin] == y[pin])
  }

  lemma DriveIsLocal(x: Lines, y: Lines, op: Op, pin: int)
    requires SameLine(x, y, pin)
    ensures SameLine(Drive(x, op), Drive(y, op), pin)
    ensures op.pin != pin ==> SameLine(Drive(x, op), y, pin)
  {
  }

  /** However the operations of two threads on different pins interleave, each finds its lines as if
      it were alone. */
  lemma {:induction false} AsIfAlone(ops: seq<Op>, a: seq<Op>, b: seq<Op>, pins: seq<int>, lines: Lines, pin: int)
    requires Interleaves(ops, a, b) && Only(a, pins) && forall op <- b :: op.pin !in pins
    ensures SameLine(DriveAll(lines, ops), DriveAll(lines, if pin in pins then a else b), pin)
  {
    if ops != [] {
      var before, op := ops[..|ops| - 1], ops[|ops| - 1];
      if a != [] && a[|a| - 1] == op && Interleaves(before, a[..|a| - 1], b) {
        AsIfAlone(before, a[..|a| - 1], b, pins, lines, pin);
        assert op in a;
        DriveIsLocal(DriveAll(lines, before), DriveAll(lines, if pin in pins then a[..|a| - 1] else b), op, pin);
      } else {
        AsIfAlone(before, a, b[..|b| - 1], pins, lines, pin);
        assert op in b;
        DriveIsLocal(DriveAll(lines, before), DriveAll(lines, if pin in pins then a else b[..|b| - 1]), op, pin);
      }
    }
  }

  /** However a bridge's run and the light's writes interleave, every bridge line is held as its
      channel says, and the light's line is at the level wanted last. */
  lemma {:induction false} BridgeAndLight(pins: seq<int>, script: Script, gpio: int, wants: seq<bool>,
                                          ops: seq<Op>, lines: Lines)
    requires Fits(pins, script) && Distinct(pins) && (forall p <- pins :: p !in lines)
    requires gpio in lines && lines[gpio] == Output(true)
    requires Interleaves(ops, RunOps(pins, script), LightOps(gpio, wants))
    ensures AllHold(DriveAll(lines, ops), Channels(Run(pins, script)))
    ensures SameLine(DriveAll(lines, ops), map[gpio := Output(LastWanted(wants))], gpio)
  {
    var a, b, chs := RunOps(pins, script), LightOps(gpio, wants), Channels(Run(pins, script));
    RunOnPins(pins, script);
    WritesAlternate(gpio, wants);
    RunHolds(pins, script, lines);
    LineFollows(gpio, wants, lines);
    AsIfAlone(ops, a, b, pins, lines, gpio);
    forall i | 0 <= i < |chs| ensures Holds(DriveAll(lines, ops), chs[i]) {
      AsIfAlone(ops, a, b, pins, lines, pins[i]);
      assert Holds(DriveAll(lines, a), chs[i]);
    }
  }

  /** The bridge and the light on one backend, each in order, on pins of their own. */
  ghost predicate Together(bridge: SmartIoBridge, light: RslBlinker)
    reads bridge, light, bridge.backend, light.backend
    reads set g <- bridge.channels, set g <- bridge.channels :: g.channel
  {
    && bridge.Valid() && light.Lit() && light.backend == bridge.backend
    && forall g <- bridge.channels :: g.channel.gpio != light.gpio
  }

  lemma TickOpsLeave(gs: seq<Glue>, ts: seq<Topics>, lines: Lines, pin: int)
    requires |gs| == |ts| && forall g <- gs :: g.channel.pin != pin
    ensures SameLine(DriveAll(lines, TickOps(gs, ts)), lines, pin)
  {
    var pins := seq(|gs|, i requires 0 <= i < |gs| => gs[i].channel.pin);
    forall i | 0 <= i < |gs| ensures Only(PollOps(gs, ts)[i], pins) {
      assert pins[i] == gs[i].channel.pin;
      GlueOnPin(gs[i], ts[i], pins);
    }
    FlattenOnPins(PollOps(gs, ts), |gs|, pins);
    OthersLeave(TickOps(gs, ts), lines, pin);
  }

  lemma {:induction false} OthersLeave(ops: seq<Op>, lines: Lines, pin: int)
    requires forall op <- ops :: op.pin != pin
    ensures SameLine(DriveAll(lines, ops), lines, pin)
  {
    if ops != [] {
      var before, op := ops[..|ops| - 1], ops[|ops| - 1];
      OthersLeave(before, lines, pin);
      assert op in ops;
      DriveIsLocal(DriveAll(lines, before), lines, op, pin);
    }
  }

  /** A tick of the bridge leaves the light as it is. */
  method BridgeBesideLight(bridge: SmartIoBridge, light: RslBlinker, ts: seq<Topics>)
    requires Together(bridge, light) && |ts| == |bridge.channels|
    modifies bridge.backend, set g <- bridge.channels, set g <- bridge.channels :: g.channel
    ensures Together(bridge, light) && light.last == old(light.last)
  {
    ghost var gs, ops := bridge.State(), bridge.backend.ops;
    DriveAppends(map[], ops, TickOps(gs, ts));
    TickOpsLeave(gs, ts, bridge.backend.lines, light.gpio);
    bridge.Tick(ts);
  }

  /** A tick of the light leaves every channel of the bridge in step with its line. */
  method LightBesideBridge(bridge: SmartIoBridge, light: RslBlinker, elapsed: nat)
    requires Together(bridge, light) && light.state.Valid()
    modifies light, light.backend
    ensures Together(bridge, light)
  {
    ghost var lines, ops, last := bridge.backend.lines, bridge.backend.ops, light.last;
    light.Tick(elapsed);
    DriveAppends(map[], ops, LevelOps(light.gpio, last, light.last));
    forall g | g in bridge.channels ensures Holds(bridge.backend.lines, g.channel.State()) {
      OthersLeave(LevelOps(light.gpio, last, light.last), lines, g.channel.gpio);
    }
  }

  // ---- Duty cycle ----------------------------------------------------------------------------

  /** How many of the `n` milliseconds from `from` on have the light on while enabled. */
  function OnCount(from: nat, n: nat): nat {
    if n == 0 then 0 else OnCount(from, n - 1) + (if DesiredLevel(true, from + n - 1) then 1 else 0)
  }

  lemma {:induction false} OnCountSplit(from: nat, a: nat, b: nat)
    ensures OnCount(from, a + b) == OnCount(from, a) + OnCount(from + a, b)
  {
    if b > 0 {
      OnCountSplit(from, a, b - 1);
    }
  }

  lemma {:induction false} OnCountSteady(from: nat, n: nat, on: bool)
    requires forall t :: from <= t < from + n ==> DesiredLevel(true, t) == on
    ensures OnCount(from, n) == if on then n else 0
  {
    if n > 0 {
      OnCountSteady(from, n - 1, on);
    }
  }

  /** While enabled, any 1000 milliseconds on end have exactly 500 with the light on. */
  lemma HalfTheTime(from: nat)
    ensures OnCount(from, 1000) == 500
  {
    OnHalf(from, 500);
  }

  lemma {:induction false} OnHalf(from: nat, half: nat)
    requires half == HALF_PERIOD
    ensures OnCount(from, 2 * half) == half
  {
    if from == 0 {
      OnCountSteady(from, half, true);
      OnCountSteady(from + half, half, false);
      OnCountSplit(from, half, half);
    } else {
      OnHalf(from - 1, half);
      OnCountSplit(from - 1, 1, 2 * half - 1);
      OnCountSplit(from, 2 * half - 1, 1);
      OnCountOne(from - 1, half);
    }
  }

  lemma OnCountOne(t: nat, half: nat)
    requires half == HALF_PERIOD
    ensures OnCount(t, 1) == OnCount(t + 2 * half, 1)
  {
  }
}
