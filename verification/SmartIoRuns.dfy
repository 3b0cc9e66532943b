/** Whole runs of the SmartIo bridge: suppressing repeated values changes nothing, lines are never
    leaked or misused, and an output line is at its last commanded level. */
module SmartIoRuns {
  import opened Units
  import opened LibgpiodBackend
  import opened SmartIoChannel
  import opened SmartIoBridge

  /** A run: for every tick, what it finds on each channel. */
  type Script = seq<seq<Topics>>

  predicate Fits(pins: seq<int>, script: Script) {
    forall ts <- script :: |ts| == |pins|
  }

  function TickAll(gs: seq<Glue>, ts: seq<Topics>): (gs': seq<Glue>)
    requires |gs| == |ts|
    ensures |gs'| == |gs|
  {
    seq(|gs|, i requires 0 <= i < |gs| => GlueTick(gs[i], ts[i]))
  }

  function Run(pins: seq<int>, script: Script): (gs: seq<Glue>)
    requires Fits(pins, script)
    ensures |gs| == |pins|
  {
    if script == [] then seq(|pins|, i requires 0 <= i < |pins| => FreshGlue(pins[i]))
    else TickAll(Run(pins, script[..|script| - 1]), script[|script| - 1])
  }

  function RunOps(pins: seq<int>, script: Script): seq<Op>
    requires Fits(pins, script)
  {
    if script == [] then []
    else
      var before := script[..|script| - 1];
      RunOps(pins, before) + TickOps(Run(pins, before), script[|script| - 1])
  }

  // ---- The bridge that suppresses nothing ----------------------------------------------------

  function Forget(g: Glue): Glue {
    g.(lastType := SENTINEL, lastValset := SENTINEL)
  }

  function ForgetAll(gs: seq<Glue>): (gs': seq<Glue>)
    ensures |gs'| == |gs|
  {
    seq(|gs|, i requires 0 <= i < |gs| => Forget(gs[i]))
  }

  /** It forgets what it has seen before every tick, and so dispatches every value but the
      sentinel. */
  function RunUnsuppressed(pins: seq<int>, script: Script): (gs: seq<Glue>)
    requires Fits(pins, script)
    ensures |gs| == |pins|
  {
    if script == [] then seq(|pins|, i requires 0 <= i < |pins| => FreshGlue(pins[i]))
    else TickAll(ForgetAll(RunUnsuppressed(pins, script[..|script| - 1])), script[|script| - 1])
  }

  function UnsuppressedOps(pins: seq<int>, script: Script): seq<Op>
    requires Fits(pins, script)
  {
    if script == [] then []
    else
      var before := script[..|script| - 1];
      UnsuppressedOps(pins, before)
      + TickOps(ForgetAll(RunUnsuppressed(pins, before)), script[|script| - 1])
  }

  // ---- Operations that carry a channel from one state to another -----------------------------

  /** On any lines in step with `before`, the operations bring the backend in step with `after` and
      affect no other pin. */
  ghost predicate Carries(ops: seq<Op>, before: Channel, after: Channel) {
    && before.pin == after.pin
    && forall lines: Lines {:trigger DriveAll(lines, ops)} ::
         Holds(lines, before) ==> BringsTo(lines, ops, after)
  }

  ghost predicate AllCarry(opss: seq<seq<Op>>, before: seq<Channel>, after: seq<Channel>) {
    && |opss| == |before| == |after|
    && (forall i :: 0 <= i < |opss| ==> Carries(opss[i], before[i], after[i]))
    && (forall i, j :: 0 <= i < j < |before| ==> before[i].pin != before[j].pin)
  }

  predicate AllHold(lines: Lines, chs: seq<Channel>) {
    forall i :: 0 <= i < |chs| ==> Holds(lines, chs[i])
  }

  /** The lines of pins that are not among `chs`. */
  function Outside(lines: Lines, chs: seq<Channel>): Lines {
    lines - (set ch | ch in chs :: ch.pin)
  }

  lemma DriveFlattenStep(lines: Lines, opss: seq<seq<Op>>, n: nat)
    requires 0 < n <= |opss|
    ensures DriveAll(lines, Flatten(opss, n)) == DriveAll(DriveAll(lines, Flatten(opss, n - 1)), opss[n - 1])
  {
    DriveAppends(lines, Flatten(opss, n - 1), opss[n - 1]);
  }

  /** After the operations of the first `n` channels, those have moved on and the others have not. */
  lemma {:induction false} FlattenCarries(opss: seq<seq<Op>>, before: seq<Channel>, after: seq<Channel>, n: nat, lines: Lines)
    requires AllCarry(opss, before, after) && AllHold(lines, before) && n <= |opss|
    ensures AllHold(DriveAll(lines, Flatten(opss, n)), after[..n] + before[n..])
    ensures Outside(DriveAll(lines, Flatten(opss, n)), before) == Outside(lines, before)
  {
    if n > 0 {
      FlattenCarries(opss, before, after, n - 1, lines);
      DriveFlattenStep(lines, opss, n);
      CarriesNext(opss, before, after, n, DriveAll(lines, Flatten(opss, n - 1)));
    }
  }

  lemma CarriesNext(opss: seq<seq<Op>>, before: seq<Channel>, after: seq<Channel>, n: nat, mid: Lines)
    requires AllCarry(opss, before, after) && 0 < n <= |opss|
    requires AllHold(mid, after[..n - 1] + before[n - 1..])
    ensures AllHold(DriveAll(mid, opss[n - 1]), after[..n] + before[n..])
    ensures Outside(DriveAll(mid, opss[n - 1]), before) == Outside(mid, before)
  {
    var reached, wanted := after[..n - 1] + before[n - 1..], after[..n] + before[n..];
    var ch, lines' := before[n - 1], DriveAll(mid, opss[n - 1]);
    assert reached[n - 1] == ch;
    assert Carries(opss[n - 1], ch, after[n - 1]);
    forall i | 0 <= i < |wanted| && i != n - 1 ensures Holds(lines', wanted[i]) {
      assert wanted[i] == reached[i] && Carries(opss[i], before[i], after[i]);
      HoldsElsewhere(mid, lines', ch.pin, reached[i]);
    }
    var pins := set c | c in before :: c.pin;
    assert ch.pin in pins;
    assert lines' - pins == lines' - {ch.pin} - pins && mid - pins == mid - {ch.pin} - pins;
  }

  lemma HoldsDetermines(a: Lines, b: Lines, ch: Channel)
    requires Holds(a, ch) && Holds(b, ch) && a - {ch.pin} == b - {ch.pin}
    ensures a == b
  {
    forall p ensures p in a <==> p in b {
      assert p != ch.pin ==> (p in a <==> p in a - {ch.pin}) && (p in b <==> p in b - {ch.pin});
    }
    forall p | p in a ensures a[p] == b[p] {
      assert p != ch.pin ==> (a - {ch.pin})[p] == a[p] && (b - {ch.pin})[p] == b[p];
    }
  }

  /** Where the operations lead is settled by the channel states they carry between. */
  lemma {:induction false} FlattenDetermined(opss: seq<seq<Op>>, opss': seq<seq<Op>>,
                                             before: seq<Channel>, after: seq<Channel>, n: nat, lines: Lines)
    requires AllCarry(opss, before, after) && AllCarry(opss', before, after)
    requires AllHold(lines, before) && n <= |opss|
    ensures DriveAll(lines, Flatten(opss, n)) == DriveAll(lines, Flatten(opss', n))
  {
    if n > 0 {
      FlattenDetermined(opss, opss', before, after, n - 1, lines);
      FlattenCarries(opss, before, after, n - 1, lines);
      DriveFlattenStep(lines, opss, n);
      DriveFlattenStep(lines, opss', n);
      assert (after[..n - 1] + before[n - 1..])[n - 1] == before[n - 1];
      CarriedAlike(DriveAll(lines, Flatten(opss, n - 1)), opss[n - 1], opss'[n - 1], before[n - 1], after[n - 1]);
    }
  }

  lemma CarriedAlike(lines: Lines, ops: seq<Op>, ops': seq<Op>, before: Channel, after: Channel)
    requires Holds(lines, before) && Carries(ops, before, after) && Carries(ops', before, after)
    ensures DriveAll(lines, ops) == DriveAll(lines, ops')
  {
    HoldsDetermines(DriveAll(lines, ops), DriveAll(lines, ops'), after);
  }

  // ---- The lines follow the channels ---------------------------------------------------------

  function Channels(gs: seq<Glue>): (chs: seq<Channel>)
    ensures |chs| == |gs|
  {
    seq(|gs|, i requires 0 <= i < |gs| => gs[i].channel)
  }

  predicate OnPins(gs: seq<Glue>, pins: seq<int>) {
    |gs| == |pins| && forall i :: 0 <= i < |gs| ==> gs[i].channel.pin == pins[i]
  }

  lemma TickCarries(pins: seq<int>, gs: seq<Glue>, ts: seq<Topics>)
    requires |gs| == |ts| && OnPins(gs, pins) && Distinct(pins)
    ensures AllCarry(PollOps(gs, ts), Channels(gs), Channels(TickAll(gs, ts)))
  {
    forall i | 0 <= i < |gs|
      ensures Carries(PollOps(gs, ts)[i], Channels(gs)[i], Channels(TickAll(gs, ts))[i])
    {
      GlueCarries(gs[i], ts[i]);
    }
  }

  lemma GlueCarries(g: Glue, t: Topics)
    ensures Carries(GlueOps(g, t), g.channel, GlueTick(g, t).channel)
  {
    forall lines: Lines | Holds(lines, g.channel)
      ensures BringsTo(lines, GlueOps(g, t), GlueTick(g, t).channel)
    {
      GlueOpsHold(g, t, lines);
    }
  }

  /** After every tick the backend holds exactly the lines of the configured channels, in their
      direction and, for an output, at the remembered level; other lines are untouched. */
  lemma {:induction false} RunHolds(pins: seq<int>, script: Script, lines: Lines)
    requires Fits(pins, script) && Distinct(pins) && forall p <- pins :: p !in lines
    ensures var gs, lines' := Run(pins, script), DriveAll(lines, RunOps(pins, script));
      && OnPins(gs, pins) && AllHold(lines', Channels(gs))
      && Outside(lines', Channels(gs)) == Outside(lines, Channels(gs))
  {
    if script != [] {
      var before, ts := script[..|script| - 1], script[|script| - 1];
      RunHolds(pins, before, lines);
      var gs, gs' := Run(pins, before), Run(pins, script);
      TickCarries(pins, gs, ts);
      DriveAppends(lines, RunOps(pins, before), TickOps(gs, ts));
      FlattenCarries(PollOps(gs, ts), Channels(gs), Channels(gs'), |pins|, DriveAll(lines, RunOps(pins, before)));
      assert Channels(gs')[..|pins|] + Channels(gs)[|pins|..] == Channels(gs');
      SamePinsOutside(Channels(gs), Channels(gs'));
    }
  }

  lemma SamePinsOutside(a: seq<Channel>, b: seq<Channel>)
    requires |a| == |b| && forall i :: 0 <= i < |a| ==> a[i].pin == b[i].pin
    ensures forall lines: Lines :: Outside(lines, a) == Outside(lines, b)
  {
    var pa, pb := set ch | ch in a :: ch.pin, set ch | ch in b :: ch.pin;
    forall p ensures p in pa <==> p in pb {
      if p in pa {
        var i :| 0 <= i < |a| && a[i].pin == p;
        assert b[i] in b;
      }
      if p in pb {
        var i :| 0 <= i < |b| && b[i].pin == p;
        assert a[i] in a;
      }
    }
    assert pa == pb;
  }

  // ---- Suppression refines dispatching everything --------------------------------------------

  /** What was last dispatched is still in force. */
  predicate InForce(g: Glue) {
    && (g.lastType != SENTINEL ==> AfterType(g.channel, Int32(g.lastType)) == g.channel)
    && (g.lastValset != SENTINEL ==> AfterValset(g.channel, Int32(g.lastValset)) == g.channel)
  }

  predicate SameOutwardly(gs: seq<Glue>, hs: seq<Glue>) {
    |gs| == |hs| &&
    forall i :: 0 <= i < |gs| ==> gs[i].channel == hs[i].channel && gs[i].valget == hs[i].valget
  }

  lemma GlueTickSame(g: Glue, h: Glue, t: Topics)
    requires InForce(g) && g.channel == h.channel && g.valget == h.valget
    ensures var g', h' := GlueTick(g, t), GlueTick(Forget(h), t);
      InForce(g') && g'.channel == h'.channel && g'.valget == h'.valget
  {
  }

  lemma TickSame(gs: seq<Glue>, hs: seq<Glue>, ts: seq<Topics>)
    requires |gs| == |ts| && SameOutwardly(gs, hs) && forall g <- gs :: InForce(g)
    ensures SameOutwardly(TickAll(gs, ts), TickAll(ForgetAll(hs), ts))
    ensures forall g <- TickAll(gs, ts) :: InForce(g)
    ensures Channels(gs) == Channels(ForgetAll(hs))
    ensures Channels(TickAll(gs, ts)) == Channels(TickAll(ForgetAll(hs), ts))
  {
    forall i | 0 <= i < |gs|
      ensures var g', h' := GlueTick(gs[i], ts[i]), GlueTick(Forget(hs[i]), ts[i]);
        InForce(g') && g'.channel == h'.channel && g'.valget == h'.valget
    {
      GlueTickSame(gs[i], hs[i], ts[i]);
    }
  }

  /** After every tick, modes, remembered outputs, published samples and every line are those of a
      bridge that dispatches every value every tick. */
  lemma {:induction false} SuppressionRefines(pins: seq<int>, script: Script, lines: Lines)
    requires Fits(pins, script) && Distinct(pins) && forall p <- pins :: p !in lines
    ensures SameOutwardly(Run(pins, script), RunUnsuppressed(pins, script))
    ensures DriveAll(lines, RunOps(pins, script)) == DriveAll(lines, UnsuppressedOps(pins, script))
    ensures forall g <- Run(pins, script) :: InForce(g)
  {
    if script != [] {
      var before, ts := script[..|script| - 1], script[|script| - 1];
      SuppressionRefines(pins, before, lines);
      RunHolds(pins, before, lines);
      var gs, hs := Run(pins, before), ForgetAll(RunUnsuppressed(pins, before));
      TickSame(gs, RunUnsuppressed(pins, before), ts);
      TickCarries(pins, gs, ts);
      TickCarries(pins, hs, ts);
      var mid := DriveAll(lines, RunOps(pins, before));
      FlattenDetermined(PollOps(gs, ts), PollOps(hs, ts), Channels(gs), Channels(TickAll(gs, ts)), |pins|, mid);
      DriveAppends(lines, RunOps(pins, before), TickOps(gs, ts));
      DriveAppends(lines, UnsuppressedOps(pins, before), TickOps(hs, ts));
    }
  }

  // ---- Output level --------------------------------------------------------------------------

  /** The most recent valset of channel `i`, or `none` before the first; -9999 is no value. */
  function LastValset(script: Script, i: nat, none: int): int
    requires forall ts <- script :: i < |ts|
  {
    if script == [] then none
    else
      var v := script[|script| - 1][i].valset;
      if v == -9999 then LastValset(script[..|script| - 1], i, none) else v
  }

  lemma {:induction false} RemembersLastValset(pins: seq<int>, script: Script, i: nat)
    requires Fits(pins, script) && i < |pins|
    ensures var g := Run(pins, script)[i];
      && g.lastValset == LastValset(script, i, SENTINEL)
      && g.channel.lastOutput == (Int32(LastValset(script, i, 0)) != 0)
      && (g.lastValset == SENTINEL ==> LastValset(script, i, 0) == 0)
      && (g.lastValset != SENTINEL ==> LastValset(script, i, 0) == g.lastValset)
  {
    if script != [] {
      RemembersLastValset(pins, script[..|script| - 1], i);
    }
  }

  /** The most recent type of channel `i`, or `none` before the first; -9999 is no value. */
  function LastType(script: Script, i: nat, none: int): int
    requires forall ts <- script :: i < |ts|
  {
    if script == [] then none
    else
      var t := script[|script| - 1][i].halType;
      if t == -9999 then LastType(script[..|script| - 1], i, none) else t
  }

  const PWM_IN := 3  // a type the bridge does not support

  /** A channel is an input if its most recent type is 0 after narrowing to 32 bits, an output if it
      is 1, and unconfigured if it is anything else or there was none. That is what the 64-bit type
      asks for exactly when narrowing does not turn an unsupported type into a supported one. */
  lemma {:induction false} ModeIsLastType(pins: seq<int>, script: Script, i: nat)
    requires Fits(pins, script) && i < |pins|
    ensures var g, t := Run(pins, script)[i], LastType(script, i, PWM_IN);
      && g.lastType == LastType(script, i, SENTINEL)
      && (g.channel.mode == DigitalInput <==> t % 0x1_0000_0000 == 0)
      && (g.channel.mode == DigitalOutput <==> t % 0x1_0000_0000 == 1)
      && g.channel.mode == Requested(Int32(t))
      && (g.channel.mode == Requested(t) <==> t == 0 || t == 1 || t % 0x1_0000_0000 > 1)
      && (g.lastType != SENTINEL ==> t == g.lastType)
  {
    if script != [] {
      ModeIsLastType(pins, script[..|script| - 1], i);
    }
    NarrowsToRequest(LastType(script, i, PWM_IN));
  }

  lemma NarrowsToRequest(t: int)
    ensures Int32(t) == 0 <==> t % 0x1_0000_0000 == 0
    ensures Int32(t) == 1 <==> t % 0x1_0000_0000 == 1
    ensures Requested(Int32(t)) == Requested(t) <==> t == 0 || t == 1 || t % 0x1_0000_0000 > 1
  {
  }

  /** What channel `i` should have published: 255 or 0, as its wire is high or low, for every tick in
      which its most recent type asks for an input. */
  function Readings(script: Script, i: nat): seq<int>
    requires forall ts <- script :: i < |ts|
  {
    if script == [] then []
    else
      var before, wire := Readings(script[..|script| - 1], i), script[|script| - 1][i].wire;
      if LastType(script, i, PWM_IN) % 0x1_0000_0000 != 0 then before
      else if wire then before + [255] else before + [0]
  }

  /** Over a run, exactly the readings of an input channel are published, in order. */
  lemma {:induction false} ValgetIsReadings(pins: seq<int>, script: Script, i: nat)
    requires Fits(pins, script) && i < |pins|
    ensures Run(pins, script)[i].valget == Readings(script, i)
  {
    if script != [] {
      var before := script[..|script| - 1];
      ValgetIsReadings(pins, before, i);
      ModeIsLastType(pins, script, i);
      PollPublishes(Run(pins, before)[i], script[|script| - 1][i]);
    }
  }

  /** Whenever a channel is an output, its line is driven by its most recent valset, received in
      whatever mode and across any mode flips, and low if there was none. The value is narrowed to
      32 bits on the way: the level tells whether it was nonzero exactly when it was not a nonzero
      multiple of 2^32. */
  lemma {:induction false} OutputIsLastCommand(pins: seq<int>, script: Script, lines: Lines, i: nat)
    requires Fits(pins, script) && Distinct(pins) && i < |pins| && forall p <- pins :: p !in lines
    requires Run(pins, script)[i].channel.mode == DigitalOutput
    ensures var lines', v := DriveAll(lines, RunOps(pins, script)), LastValset(script, i, 0);
      && pins[i] in lines'
      && lines'[pins[i]] == Output(v % 0x1_0000_0000 != 0)
      && (lines'[pins[i]] == Output(v != 0) <==> !(v != 0 && v % 0x1_0000_0000 == 0))
  {
    OutputAtLevel(pins, script, lines, i);
    RemembersLastValset(pins, script, i);
    NarrowsToRequest(LastValset(script, i, 0));
  }

  lemma {:induction false} OutputAtLevel(pins: seq<int>, script: Script, lines: Lines, i: nat)
    requires Fits(pins, script) && Distinct(pins) && i < |pins| && forall p <- pins :: p !in lines
    requires Run(pins, script)[i].channel.mode == DigitalOutput
    ensures var lines' := DriveAll(lines, RunOps(pins, script));
      pins[i] in lines' && lines'[pins[i]] == Output(Run(pins, script)[i].channel.lastOutput)
  {
    RunHolds(pins, script, lines);
    assert Holds(DriveAll(lines, RunOps(pins, script)), Channels(Run(pins, script))[i]);
  }

  /** One tick on one pin. */
  lemma OneTick(pin: int, t: Topics)
    ensures Distinct([pin]) && Fits([pin], [[t]])
    ensures Run([pin], [[t]]) == [GlueTick(FreshGlue(pin), t)]
    ensures LastType([[t]], 0, PWM_IN) == (if t.halType == SENTINEL then PWM_IN else t.halType)
    ensures LastValset([[t]], 0, 0) == (if t.valset == SENTINEL then 0 else t.valset)
  {
    assert [[t]][..0] == [];
    assert Run([pin], []) == [FreshGlue(pin)];
  }

  /** An output whose nonzero valset of 2^32 drives its line low. */
  lemma NarrowedValsetExample(pin: int)
    ensures var script := [[Topics(1, 0x1_0000_0000, false)]];
      && Fits([pin], script) && LastValset(script, 0, 0) != 0
      && DriveAll(map[], RunOps([pin], script)) == map[pin := Output(false)]
  {
    var t := Topics(1, 0x1_0000_0000, false);
    OneTick(pin, t);
    RunHolds([pin], [[t]], map[]);
    OutputIsLastCommand([pin], [[t]], map[], 0);
  }

  /** A type of 2^32, which asks for nothing, configures an input. */
  lemma NarrowedTypeExample(pin: int)
    ensures var script := [[Topics(0x1_0000_0000, 0, false)]];
      && Fits([pin], script) && Requested(LastType(script, 0, PWM_IN)) == Unconfigured
      && Run([pin], script)[0].channel.mode == DigitalInput
  {
    OneTick(pin, Topics(0x1_0000_0000, 0, false));
  }
}
