/** The bridge that polls each channel's topics and dispatches only values it has not seen. */
module SmartIoBridge {
  import opened Units
  import opened LibgpiodBackend
  import opened SmartIoChannel

  const SENTINEL := -9999

  /** What a tick finds on one channel: the two topics, as 64-bit values, and the pin's wire. */
  datatype Topics = Topics(halType: int, valset: int, wire: bool)

  /** A channel with its last dispatched values and everything published to its valget topic. */
  datatype Glue = Glue(channel: Channel, lastType: int, lastValset: int, valget: seq<int>)

  predicate IsNews(value: int, last: int) {
    value != last && value != SENTINEL
  }

  function PublishSample(ch: Channel, valget: seq<int>, wire: bool): seq<int> {
    if ch.mode == DigitalInput then valget + [if wire then 255 else 0] else valget
  }

  function AfterNewType(g: Glue, t: Topics): Channel {
    if IsNews(t.halType, g.lastType) then AfterType(g.channel, Int32(t.halType)) else g.channel
  }

  function NewTypeOps(g: Glue, t: Topics): seq<Op> {
    if IsNews(t.halType, g.lastType) then TypeOps(g.channel, Int32(t.halType)) else []
  }

  function AfterNews(g: Glue, t: Topics): Channel {
    var ch := AfterNewType(g, t);
    if IsNews(t.valset, g.lastValset) then AfterValset(ch, Int32(t.valset)) else ch
  }

  function NewValsetOps(g: Glue, t: Topics): seq<Op> {
    if IsNews(t.valset, g.lastValset) then ValsetOps(AfterNewType(g, t), Int32(t.valset)) else []
  }

  function GlueTick(g: Glue, t: Topics): Glue {
    Glue(AfterNews(g, t),
         if IsNews(t.halType, g.lastType) then t.halType else g.lastType,
         if IsNews(t.valset, g.lastValset) then t.valset else g.lastValset,
         PublishSample(AfterNews(g, t), g.valget, t.wire))
  }

  function GlueOps(g: Glue, t: Topics): seq<Op> {
    NewTypeOps(g, t) + NewValsetOps(g, t) + SampleOps(AfterNews(g, t))
  }

  /** A channel that is an input after its poll publishes 255 for a high wire and 0 for a low one; any
      other channel publishes nothing. */
  lemma PollPublishes(g: Glue, t: Topics)
    ensures var g' := GlueTick(g, t);
      && (g'.channel.mode == DigitalInput && t.wire ==> g'.valget == g.valget + [255])
      && (g'.channel.mode == DigitalInput && !t.wire ==> g'.valget == g.valget + [0])
      && (g'.channel.mode != DigitalInput ==> g'.valget == g.valget)
  {
  }

  /** A topic at -9999 has not been published yet and changes nothing; any other value takes effect
      on a channel that has seen none. */
  lemma FirstValuesTakeEffect(pin: int, t: Topics)
    ensures var ch := GlueTick(FreshGlue(pin), t).channel;
      && (t.halType == -9999 ==> ch.mode == Unconfigured)
      && (t.halType == 0 ==> ch.mode == DigitalInput) && (t.halType == 1 ==> ch.mode == DigitalOutput)
      && (t.valset == -9999 ==> !ch.lastOutput)
      && (t.valset != -9999 && 0 < t.valset % 0x1_0000_0000 ==> ch.lastOutput)
  {
  }

  /** The operations of each channel in one tick. */
  function PollOps(gs: seq<Glue>, ts: seq<Topics>): (opss: seq<seq<Op>>)
    requires |gs| == |ts|
    ensures |opss| == |gs|
  {
    seq(|gs|, i requires 0 <= i < |gs| => GlueOps(gs[i], ts[i]))
  }

  /** The first `n` of them, in order. */
  function Flatten(opss: seq<seq<Op>>, n: nat): seq<Op>
    requires n <= |opss|
  {
    if n == 0 then [] else Flatten(opss, n - 1) + opss[n - 1]
  }

  function TickOps(gs: seq<Glue>, ts: seq<Topics>): seq<Op>
    requires |gs| == |ts|
  {
    Flatten(PollOps(gs, ts), |gs|)
  }

  lemma Associates(a: seq<Op>, b: seq<Op>, c: seq<Op>)
    ensures a + b + c == a + (b + c)
  {
  }

  lemma FlattenStep(ops: seq<Op>, opss: seq<seq<Op>>, n: nat)
    requires n < |opss|
    ensures ops + Flatten(opss, n) + opss[n] == ops + Flatten(opss, n + 1)
  {
  }

  // ---- One channel's operations on the lines -------------------------------------------------

  lemma NewsHolds(g: Glue, t: Topics, lines: Lines)
    requires Holds(lines, g.channel)
    ensures BringsTo(lines, NewTypeOps(g, t) + NewValsetOps(g, t), AfterNews(g, t))
  {
    DriveAppends(lines, NewTypeOps(g, t), NewValsetOps(g, t));
    TypeOpsHold(g.channel, Int32(t.halType), lines);
    ValsetOpsHold(AfterNewType(g, t), Int32(t.valset), DriveAll(lines, NewTypeOps(g, t)));
  }

  /** A channel's operations keep the backend in step with it and leave other pins alone. */
  lemma GlueOpsHold(g: Glue, t: Topics, lines: Lines)
    requires Holds(lines, g.channel)
    ensures BringsTo(lines, GlueOps(g, t), AfterNews(g, t))
  {
    var news := NewTypeOps(g, t) + NewValsetOps(g, t);
    NewsHolds(g, t, lines);
    DriveAppends(lines, news, SampleOps(AfterNews(g, t)));
    SampleOpsHold(AfterNews(g, t), DriveAll(lines, news));
  }

  // ---- The bridge ----------------------------------------------------------------------------

  class ChannelGlue {
    const channel: SmartIoChannel
    var lastType: int
    var lastValset: int
    var valget: seq<int>

    ghost function State(): Glue
      reads this, channel
    {
      Glue(channel.State(), lastType, lastValset, valget)
    }

    constructor (channel: SmartIoChannel)
      ensures this.channel == channel && lastType == lastValset == SENTINEL && valget == []
    {
      this.channel := channel;
      lastType, lastValset, valget := SENTINEL, SENTINEL, [];
    }

    /** Passes new topic values on to the channel. */
    method DispatchNews(t: Topics)
      requires channel.backend.Valid()
      modifies this, channel, channel.backend
      ensures channel.backend.Valid() && valget == old(valget)
      ensures var g := old(State());
        && channel.State() == AfterNews(g, t)
        && lastType == GlueTick(g, t).lastType && lastValset == GlueTick(g, t).lastValset
        && channel.backend.ops == old(channel.backend.ops) + (NewTypeOps(g, t) + NewValsetOps(g, t))
    {
      ghost var g, ops := State(), channel.backend.ops;
      Associates(ops, NewTypeOps(g, t), NewValsetOps(g, t));
      DispatchType(t);
      DispatchValset(g, t);
    }

    method DispatchType(t: Topics)
      requires channel.backend.Valid()
      modifies this`lastType, channel, channel.backend
      ensures channel.backend.Valid()
      ensures var g := old(State());
        && channel.State() == AfterNewType(g, t) && lastType == GlueTick(g, t).lastType
        && channel.backend.ops == old(channel.backend.ops) + NewTypeOps(g, t)
    {
      if t.halType != lastType && t.halType != SENTINEL {
        channel.OnTypeChanged(Int32(t.halType));
        lastType := t.halType;
      }
    }

    /** Comes after `DispatchType`, which found the state `g`. */
    method DispatchValset(ghost g: Glue, t: Topics)
      requires channel.backend.Valid() && channel.State() == AfterNewType(g, t) && lastValset == g.lastValset
      modifies this`lastValset, channel, channel.backend
      ensures channel.backend.Valid()
      ensures channel.State() == AfterNews(g, t) && lastValset == GlueTick(g, t).lastValset
      ensures channel.backend.ops == old(channel.backend.ops) + NewValsetOps(g, t)
    {
      if t.valset != lastValset && t.valset != SENTINEL {
        channel.OnValset(Int32(t.valset));
        lastValset := t.valset;
      }
    }

    /** The body of the tick's loop. */
    method Poll(t: Topics)
      requires channel.backend.Valid() && Holds(channel.backend.lines, channel.State())
      modifies this, channel, channel.backend
      ensures channel.backend.Valid() && State() == GlueTick(old(State()), t)
      ensures channel.backend.ops == old(channel.backend.ops) + GlueOps(old(State()), t)
    {
      ghost var g, ops, news := State(), channel.backend.ops, NewTypeOps(State(), t) + NewValsetOps(State(), t);
      NewsHolds(g, t, channel.backend.lines);
      DriveAppends(map[], ops, news);
      Associates(ops, news, SampleOps(AfterNews(g, t)));
      DispatchNews(t);
      PublishInput(t.wire);
    }

    /** Samples an input and publishes what it reads. */
    method PublishInput(wire: bool)
      requires channel.backend.Valid() && Holds(channel.backend.lines, channel.State())
      modifies this`valget, channel.backend`ops
      ensures channel.backend.Valid() && valget == PublishSample(channel.State(), old(valget), wire)
      ensures channel.backend.ops == old(channel.backend.ops) + SampleOps(channel.State())
    {
      if channel.mode == DigitalInput {
        var hi := channel.SampleInput(wire);
        valget := valget + [if hi then 255 else 0];
      }
    }
  }

  lemma HoldsElsewhere(lines: Lines, lines': Lines, pin: int, ch: Channel)
    requires Holds(lines, ch) && ch.pin != pin && lines' - {pin} == lines - {pin}
    ensures Holds(lines', ch)
  {
    assert ch.pin in lines <==> ch.pin in lines - {pin};
    assert ch.pin in lines' <==> ch.pin in lines' - {pin};
    assert ch.pin in lines ==> (lines - {pin})[ch.pin] == lines[ch.pin];
    assert ch.pin in lines' ==> (lines' - {pin})[ch.pin] == lines'[ch.pin];
  }

  predicate Distinct(pins: seq<int>) {
    forall i, j :: 0 <= i < j < |pins| ==> pins[i] != pins[j]
  }

  function FreshGlue(pin: int): Glue {
    Glue(Channel(pin, Unconfigured, false), SENTINEL, SENTINEL, [])
  }

  function ConfiguredCount(chs: seq<Channel>): nat {
    if chs == [] then 0
    else ConfiguredCount(chs[..|chs| - 1]) + (if chs[|chs| - 1].mode != Unconfigured then 1 else 0)
  }

  class SmartIoBridge {
    const backend: LibgpiodBackend
    const channels: seq<ChannelGlue>

    /** Channels of their own, all on the one backend. */
    ghost predicate Wired()
      reads this, backend, set g <- channels, set g <- channels :: g.channel
    {
      && backend.Valid()
      && (forall g <- channels :: g.channel.backend == backend)
      && (forall i, j :: 0 <= i < j < |channels| ==>
            channels[i] != channels[j] && channels[i].channel != channels[j].channel)
    }

    /** Channels on different pins, in step with their lines. */
    ghost predicate Valid()
      reads this, backend, set g <- channels, set g <- channels :: g.channel
    {
      && Wired()
      && (forall g <- channels :: Holds(backend.lines, g.channel.State()))
      && (forall i, j :: 0 <= i < j < |channels| ==> channels[i].channel.gpio != channels[j].channel.gpio)
    }

    ghost function State(): (gs: seq<Glue>)
      reads set g <- channels, set g <- channels :: g.channel
      ensures |gs| == |channels|
    {
      seq(|channels|, i requires 0 <= i < |channels|
                        reads set g <- channels, set g <- channels :: g.channel => channels[i].State())
    }

    ghost function ChannelStates(): (chs: seq<Channel>)
      reads set g <- channels :: g.channel
      ensures |chs| == |channels|
    {
      seq(|channels|, i requires 0 <= i < |channels| reads set g <- channels :: g.channel =>
        channels[i].channel.State())
    }

    /** The channels are in step with the backend unless a pin is given twice or already held. */
    constructor (backend: LibgpiodBackend, pins: seq<int>)
      requires backend.Valid()
      ensures Wired() && this.backend == backend && |channels| == |pins|
      ensures forall i :: 0 <= i < |pins| ==> State()[i] == FreshGlue(pins[i])
      ensures Valid() <==> Distinct(pins) && forall p <- pins :: p !in backend.lines
      ensures fresh(set g <- channels) && fresh(set g <- channels :: g.channel)
    {
      var gs: seq<ChannelGlue> := [];
      while |gs| < |pins|
        invariant |gs| <= |pins| && fresh(set g <- gs) && fresh(set g <- gs :: g.channel)
        invariant forall i :: 0 <= i < |gs| ==>
          gs[i].State() == FreshGlue(pins[i]) && gs[i].channel.backend == backend
        invariant forall i, j :: 0 <= i < j < |gs| ==> gs[i] != gs[j] && gs[i].channel != gs[j].channel
      {
        var channel := new SmartIoChannel(pins[|gs|], backend);
        var glue := new ChannelGlue(channel);
        gs := gs + [glue];
      }
      this.backend, channels := backend, gs;
    }

    method Tick(ts: seq<Topics>)
      requires Valid() && |ts| == |channels|
      modifies backend, set g <- channels, set g <- channels :: g.channel
      ensures Valid()
      ensures forall i :: 0 <= i < |ts| ==> State()[i] == GlueTick(old(State())[i], ts[i])
      ensures backend.ops == old(backend.ops) + TickOps(old(State()), ts)
    {
      ghost var gs, ops := State(), backend.ops;
      assert ops + [] == ops;
      PollAll(gs, ts, ops);
    }

    /** The tick's loop. */
    method PollAll(ghost gs: seq<Glue>, ts: seq<Topics>, ghost ops: seq<Op>)
      requires |gs| == |ts| == |channels| && TickedTo(gs, ts, ops, 0)
      modifies backend, set g <- channels, set g <- channels :: g.channel
      ensures TickedTo(gs, ts, ops, |channels|)
    {
      for i := 0 to |channels|
        invariant TickedTo(gs, ts, ops, i)
      {
        PollNext(gs, ts, ops, i);
      }
    }

    /** The tick has reached channel `n`, from channel states `gs` and operations `ops`. */
    ghost predicate TickedTo(gs: seq<Glue>, ts: seq<Topics>, ops: seq<Op>, n: nat)
      requires n <= |gs| == |ts| == |channels|
      reads this, backend, set g <- channels, set g <- channels :: g.channel
    {
      && Valid()
      && (forall j :: 0 <= j < |channels| ==>
            channels[j].State() == if j < n then GlueTick(gs[j], ts[j]) else gs[j])
      && backend.ops == ops + Flatten(PollOps(gs, ts), n)
    }

    method PollNext(ghost gs: seq<Glue>, ts: seq<Topics>, ghost ops: seq<Op>, i: nat)
      requires i < |gs| == |ts| == |channels| && TickedTo(gs, ts, ops, i)
      modifies backend, channels[i], channels[i].channel
      ensures TickedTo(gs, ts, ops, i + 1)
    {
      PollAt(i, ts[i]);
      FlattenStep(ops, PollOps(gs, ts), i);
    }

    method PollAt(i: nat, t: Topics)
      requires Valid() && i < |channels|
      modifies backend, channels[i], channels[i].channel
      ensures Valid()
      ensures channels[i].State() == GlueTick(old(channels[i].State()), t)
      ensures forall j :: 0 <= j < |channels| && j != i ==> channels[j].State() == old(channels[j].State())
      ensures backend.ops == old(backend.ops) + GlueOps(old(channels[i].State()), t)
    {
      ghost var g, lines, ops := channels[i].State(), backend.lines, backend.ops;
      channels[i].Poll(t);
      DriveAppends(map[], ops, GlueOps(g, t));
      GlueOpsHold(g, t, lines);
      forall h | h in channels && h != channels[i]
        ensures Holds(backend.lines, h.channel.State())
      {
        var j :| 0 <= j < |channels| && channels[j] == h;
        HoldsElsewhere(lines, backend.lines, g.channel.pin, h.channel.State());
      }
    }

    method ChannelsConfigured() returns (n: nat)
      ensures n == ConfiguredCount(ChannelStates())
    {
      ghost var chs := ChannelStates();
      n := 0;
      var i := 0;
      while i < |channels|
        invariant 0 <= i <= |channels| && n == ConfiguredCount(chs[..i])
      {
        assert chs[..i + 1][..i] == chs[..i];
        if channels[i].channel.mode != Unconfigured {
          n := n + 1;
        }
        i := i + 1;
      }
      assert chs[..i] == chs;
    }
  }
}
