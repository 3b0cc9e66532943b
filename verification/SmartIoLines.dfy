/** Conservation of GPIO lines: every pin's operations are (request, matching gets or sets,
    release) repeated, and the lines held are exactly those of the configured channels. */
module SmartIoLines {
  import opened Units
  import opened LibgpiodBackend
  import opened SmartIoChannel
  import opened SmartIoBridge
  import opened SmartIoRuns

  /** The use of one pin, followed operation by operation. */
  datatype PinUse = Free | HeldIn | HeldOut | Misused

  function Track(u: PinUse, op: Op, pin: int): PinUse {
    if op.pin != pin then u
    else
      match (u, op)
      case (Free, RequestInput(_)) => HeldIn
      case (Free, RequestOutput(_, _)) => HeldOut
      case (HeldIn, GetValue(_)) => HeldIn
      case (HeldOut, SetValue(_, _)) => HeldOut
      case (HeldIn, ReleaseLine(_)) => Free
      case (HeldOut, ReleaseLine(_)) => Free
      case _ => Misused
  }

  function TrackAll(u: PinUse, ops: seq<Op>, pin: int): PinUse {
    if ops == [] then u else Track(TrackAll(u, ops[..|ops| - 1], pin), ops[|ops| - 1], pin)
  }

  function UseOf(m: ChannelMode): PinUse {
    match m
    case Unconfigured => Free
    case DigitalInput => HeldIn
    case DigitalOutput => HeldOut
  }

  lemma {:induction false} TrackAppends(u: PinUse, a: seq<Op>, b: seq<Op>, pin: int)
    ensures TrackAll(u, a + b, pin) == TrackAll(TrackAll(u, a, pin), b, pin)
  {
    if b == [] {
      assert a + b == a;
    } else {
      var n := |b| - 1;
      assert (a + b)[..|a + b| - 1] == a + b[..n];
      TrackAppends(u, a, b[..n], pin);
    }
  }

  lemma TrackFew(u: PinUse, a: Op, b: Op, pin: int)
    ensures TrackAll(u, [], pin) == u
    ensures TrackAll(u, [a], pin) == Track(u, a, pin)
    ensures TrackAll(u, [a, b], pin) == Track(Track(u, a, pin), b, pin)
  {
  }

  /** Operations that move their own pin from one use to another and touch no other pin. */
  ghost predicate Moves(ops: seq<Op>, pin: int, from: PinUse, to: PinUse) {
    && TrackAll(from, ops, pin) == to
    && forall u: PinUse, p: int {:trigger TrackAll(u, ops, p)} :: p != pin ==> TrackAll(u, ops, p) == u
  }

  lemma MovesCompose(a: seq<Op>, b: seq<Op>, pin: int, u: PinUse, v: PinUse, w: PinUse)
    requires Moves(a, pin, u, v) && Moves(b, pin, v, w)
    ensures Moves(a + b, pin, u, w)
  {
    TrackAppends(u, a, b, pin);
    forall x: PinUse, p: int | p != pin ensures TrackAll(x, a + b, p) == x {
      TrackAppends(x, a, b, p);
    }
  }

  lemma TypeOpsMove(ch: Channel, halType: int)
    ensures Moves(TypeOps(ch, halType), ch.pin, UseOf(ch.mode), UseOf(AfterType(ch, halType).mode))
  {
    var release := ReleaseLine(ch.pin);
    var request := if Requested(halType) == DigitalInput then RequestInput(ch.pin)
                   else RequestOutput(ch.pin, ch.lastOutput);
    forall u: PinUse, p: int
      ensures p != ch.pin ==> TrackAll(u, TypeOps(ch, halType), p) == u
      ensures p == ch.pin && u == UseOf(ch.mode) ==>
        TrackAll(u, TypeOps(ch, halType), p) == UseOf(Requested(halType))
    {
      TrackFew(u, release, request, p);
      TrackFew(u, request, release, p);
    }
  }

  lemma ValsetOpsMove(ch: Channel, halValue: int)
    ensures Moves(ValsetOps(ch, halValue), ch.pin, UseOf(ch.mode), UseOf(ch.mode))
  {
    var op := SetValue(ch.pin, halValue != 0);
    forall u: PinUse, p: int
      ensures p != ch.pin || u == UseOf(ch.mode) ==> TrackAll(u, ValsetOps(ch, halValue), p) == u
    {
      TrackFew(u, op, op, p);
    }
  }

  lemma SampleOpsMove(ch: Channel)
    ensures Moves(SampleOps(ch), ch.pin, UseOf(ch.mode), UseOf(ch.mode))
  {
    forall u: PinUse, p: int
      ensures p != ch.pin || u == UseOf(ch.mode) ==> TrackAll(u, SampleOps(ch), p) == u
    {
      TrackFew(u, GetValue(ch.pin), GetValue(ch.pin), p);
    }
  }

  lemma NothingMoves(pin: int, u: PinUse)
    ensures Moves([], pin, u, u)
  {
  }

  lemma GlueOpsMove(g: Glue, t: Topics)
    ensures Moves(GlueOps(g, t), g.channel.pin, UseOf(g.channel.mode), UseOf(GlueTick(g, t).channel.mode))
  {
    var pin, u := g.channel.pin, UseOf(g.channel.mode);
    var typed, after := AfterNewType(g, t), AfterNews(g, t);
    NothingMoves(pin, u);
    NothingMoves(pin, UseOf(typed.mode));
    TypeOpsMove(g.channel, Int32(t.halType));
    ValsetOpsMove(typed, Int32(t.valset));
    SampleOpsMove(after);
    MovesCompose(NewTypeOps(g, t), NewValsetOps(g, t), pin, u, UseOf(typed.mode), UseOf(typed.mode));
    MovesCompose(NewTypeOps(g, t) + NewValsetOps(g, t), SampleOps(after), pin, u, UseOf(typed.mode), UseOf(typed.mode));
  }

  // ---- Whole ticks and whole runs ------------------------------------------------------------

  ghost predicate AllMove(opss: seq<seq<Op>>, pins: seq<int>, from: seq<PinUse>, to: seq<PinUse>) {
    && |opss| == |pins| == |from| == |to|
    && forall i :: 0 <= i < |opss| ==> Moves(opss[i], pins[i], from[i], to[i])
  }

  /** The operations of the first `n` channels move their pins and no others. */
  lemma {:induction false} FlattenMoves(opss: seq<seq<Op>>, pins: seq<int>, from: seq<PinUse>, to: seq<PinUse>,
                                        n: nat, p: int, u: PinUse)
    requires AllMove(opss, pins, from, to) && Distinct(pins) && n <= |opss|
    ensures forall i :: 0 <= i < |pins| && pins[i] == p && u == from[i] ==>
      TrackAll(u, Flatten(opss, n), p) == if i < n then to[i] else u
    ensures p !in pins ==> TrackAll(u, Flatten(opss, n), p) == u
  {
    if n > 0 {
      FlattenMoves(opss, pins, from, to, n - 1, p, u);
      TrackAppends(u, Flatten(opss, n - 1), opss[n - 1], p);
      assert Moves(opss[n - 1], pins[n - 1], from[n - 1], to[n - 1]);
    }
  }

  function Uses(gs: seq<Glue>): (us: seq<PinUse>)
    ensures |us| == |gs|
  {
    seq(|gs|, i requires 0 <= i < |gs| => UseOf(gs[i].channel.mode))
  }

  lemma {:induction false} TickMoves(pins: seq<int>, gs: seq<Glue>, ts: seq<Topics>)
    requires |gs| == |ts| && OnPins(gs, pins)
    ensures AllMove(PollOps(gs, ts), pins, Uses(gs), Uses(TickAll(gs, ts)))
  {
    forall i | 0 <= i < |gs|
      ensures Moves(PollOps(gs, ts)[i], pins[i], Uses(gs)[i], Uses(TickAll(gs, ts))[i])
    {
      GlueOpsMove(gs[i], ts[i]);
    }
  }

  /** Over any run, a bridge pin's operations are a prefix of (request, matching gets or sets,
      release) repeated, ending held exactly as its channel's mode says; other pins see none. */
  lemma {:induction false} RunTracked(pins: seq<int>, script: Script, p: int)
    requires Fits(pins, script) && Distinct(pins)
    ensures forall i :: 0 <= i < |pins| && pins[i] == p ==>
      TrackAll(Free, RunOps(pins, script), p) == UseOf(Run(pins, script)[i].channel.mode)
    ensures p !in pins ==> TrackAll(Free, RunOps(pins, script), p) == Free
  {
    if script != [] {
      var before, ts := script[..|script| - 1], script[|script| - 1];
      RunTracked(pins, before, p);
      var gs := Run(pins, before);
      RunHolds(pins, before, map[]);
      TickMoves(pins, gs, ts);
      var u := TrackAll(Free, RunOps(pins, before), p);
      TrackAppends(Free, RunOps(pins, before), TickOps(gs, ts), p);
      FlattenMoves(PollOps(gs, ts), pins, Uses(gs), Uses(TickAll(gs, ts)), |pins|, p, u);
    }
  }

  // ---- What proper use implies ---------------------------------------------------------------

  function Balance(ops: seq<Op>, pin: int): int {
    if ops == [] then 0
    else
      var op := ops[|ops| - 1];
      Balance(ops[..|ops| - 1], pin)
      + (if op.pin != pin then 0
         else if op.RequestInput? || op.RequestOutput? then 1
         else if op.ReleaseLine? then -1 else 0)
  }

  /** Proper use so far: requests exceed releases by one exactly while the line is held, and the
      backend holds it in the direction requested. */
  lemma {:induction false} ProperUse(lines: Lines, ops: seq<Op>, pin: int)
    requires pin !in lines && TrackAll(Free, ops, pin) != Misused
    ensures var u, lines' := TrackAll(Free, ops, pin), DriveAll(lines, ops);
      && Balance(ops, pin) == (if u == Free then 0 else 1)
      && (u == Free <==> pin !in lines')
      && (u == HeldIn <==> pin in lines' && lines'[pin] == Input)
      && (u == HeldOut <==> pin in lines' && lines'[pin].Output?)
  {
    if ops != [] {
      ProperUse(lines, ops[..|ops| - 1], pin);
    }
  }

  lemma {:induction false} PrefixNotMisused(ops: seq<Op>, pin: int, k: nat)
    requires TrackAll(Free, ops, pin) != Misused && k <= |ops|
    ensures TrackAll(Free, ops[..k], pin) != Misused
  {
    if k < |ops| {
      PrefixNotMisused(ops[..|ops| - 1], pin, k);
      assert ops[..|ops| - 1][..k] == ops[..k];
    } else {
      assert ops[..k] == ops;
    }
  }

  /** An operation the backend is asked for finds the line as it should be: a request finds it
      free, so the backend's own release beforehand never finds anything. */
  predicate FindsLine(lines: Lines, op: Op) {
    match op
    case ReleaseLine(p) => p in lines
    case RequestInput(p) => p !in lines
    case RequestOutput(p, _) => p !in lines
    case SetValue(p, _) => p in lines && lines[p].Output?
    case GetValue(p) => p in lines && lines[p] == Input
  }

  lemma {:induction false} EveryOperationFindsItsLine(pins: seq<int>, script: Script, lines: Lines, k: nat)
    requires Fits(pins, script) && Distinct(pins) && forall p <- pins :: p !in lines
    requires k < |RunOps(pins, script)|
    ensures var op := RunOps(pins, script)[k];
      op.pin in pins && FindsLine(DriveAll(lines, RunOps(pins, script)[..k]), op)
  {
    var ops := RunOps(pins, script);
    var op := ops[k];
    RunOnPins(pins, script);
    RunTracked(pins, script, op.pin);
    ProperNext(ops, k);
    ProperUse(lines, ops[..k], op.pin);
  }

  lemma ProperNext(ops: seq<Op>, k: nat)
    requires k < |ops| && TrackAll(Free, ops, ops[k].pin) != Misused
    ensures TrackAll(Free, ops[..k], ops[k].pin) != Misused
    ensures Track(TrackAll(Free, ops[..k], ops[k].pin), ops[k], ops[k].pin) != Misused
  {
    PrefixNotMisused(ops, ops[k].pin, k + 1);
    assert ops[..k + 1][..k] == ops[..k];
  }

  predicate Only(ops: seq<Op>, pins: seq<int>) {
    forall op <- ops :: op.pin in pins
  }

  /** Every operation of a run is on one of the bridge's pins. */
  lemma {:induction false} RunOnPins(pins: seq<int>, script: Script)
    requires Fits(pins, script) && Distinct(pins)
    ensures Only(RunOps(pins, script), pins)
  {
    if script != [] {
      var before, ts := script[..|script| - 1], script[|script| - 1];
      RunOnPins(pins, before);
      RunHolds(pins, before, map[]);
      var gs := Run(pins, before);
      forall i | 0 <= i < |pins| ensures Only(PollOps(gs, ts)[i], pins) {
        GlueOnPin(gs[i], ts[i], pins);
      }
      FlattenOnPins(PollOps(gs, ts), |pins|, pins);
    }
  }

  lemma {:induction false} FlattenOnPins(opss: seq<seq<Op>>, n: nat, pins: seq<int>)
    requires n <= |opss| && forall i :: 0 <= i < |opss| ==> Only(opss[i], pins)
    ensures Only(Flatten(opss, n), pins)
  {
    if n > 0 {
      FlattenOnPins(opss, n - 1, pins);
    }
  }

  lemma GlueOnPin(g: Glue, t: Topics, pins: seq<int>)
    requires g.channel.pin in pins
    ensures Only(GlueOps(g, t), pins)
  {
  }

  /** Requests exceed releases by one on the pins of configured channels and balance on the rest. */
  lemma {:induction false} RequestsBalance(pins: seq<int>, script: Script, i: nat)
    requires Fits(pins, script) && Distinct(pins) && i < |pins|
    ensures Balance(RunOps(pins, script), pins[i])
         == (if Run(pins, script)[i].channel.mode == Unconfigured then 0 else 1)
  {
    RunTracked(pins, script, pins[i]);
    ProperUse(map[], RunOps(pins, script), pins[i]);
  }

  /** After every tick the number of configured channels is the number of bridge pins held. */
  lemma {:induction false} ConfiguredCountIsHeldLines(pins: seq<int>, script: Script, lines: Lines)
    requires Fits(pins, script) && Distinct(pins) && forall p <- pins :: p !in lines
    ensures var lines' := DriveAll(lines, RunOps(pins, script));
      ConfiguredCount(Channels(Run(pins, script))) == |set p | p in pins && p in lines'|
  {
    var lines', chs := DriveAll(lines, RunOps(pins, script)), Channels(Run(pins, script));
    RunHolds(pins, script, lines);
    ConfiguredIsHeld(chs, lines');
    HeldOfPins(chs, pins, lines');
  }

  lemma HeldOfPins(chs: seq<Channel>, pins: seq<int>, lines: Lines)
    requires |chs| == |pins| && forall i :: 0 <= i < |pins| ==> chs[i].pin == pins[i]
    ensures HeldPins(chs, lines) == set p | p in pins && p in lines
  {
    forall p ensures p in HeldPins(chs, lines) <==> p in pins && p in lines {
      if p in pins {
        var i :| 0 <= i < |pins| && pins[i] == p;
        assert chs[i] in chs && chs[i].pin == p;
      }
    }
  }

  /** The pins of the channels whose line is held. */
  function HeldPins(chs: seq<Channel>, lines: Lines): set<int> {
    set ch | ch in chs && ch.pin in lines :: ch.pin
  }

  lemma HeldPinsStep(chs: seq<Channel>, lines: Lines)
    requires chs != [] && forall i :: 0 <= i < |chs| - 1 ==> chs[i].pin != chs[|chs| - 1].pin
    ensures var rest, last := HeldPins(chs[..|chs| - 1], lines), chs[|chs| - 1].pin;
      last !in rest && HeldPins(chs, lines) == if last in lines then rest + {last} else rest
  {
    assert chs == chs[..|chs| - 1] + [chs[|chs| - 1]];
  }

  lemma {:induction false} ConfiguredIsHeld(chs: seq<Channel>, lines: Lines)
    requires AllHold(lines, chs) && forall i, j :: 0 <= i < j < |chs| ==> chs[i].pin != chs[j].pin
    ensures ConfiguredCount(chs) == |HeldPins(chs, lines)|
  {
    if chs == [] {
      assert HeldPins(chs, lines) == {};
    } else {
      ConfiguredIsHeld(chs[..|chs| - 1], lines);
      HeldPinsStep(chs, lines);
      assert Holds(lines, chs[|chs| - 1]);
    }
  }
}
