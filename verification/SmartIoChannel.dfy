/** One SmartIo channel: the mode of a pin and the operations it makes on the backend. */
module SmartIoChannel {
  import opened LibgpiodBackend

  datatype ChannelMode = Unconfigured | DigitalInput | DigitalOutput

  datatype Channel = Channel(pin: int, mode: ChannelMode, lastOutput: bool)

  /** The mode a HAL type asks for; every other type asks for none. */
  function Requested(halType: int): ChannelMode {
    if halType == 0 then DigitalInput else if halType == 1 then DigitalOutput else Unconfigured
  }

  function AfterType(ch: Channel, halType: int): Channel {
    ch.(mode := Requested(halType))
  }

  function TypeOps(ch: Channel, halType: int): seq<Op> {
    var m := Requested(halType);
    if m == ch.mode then []
    else if m == Unconfigured then [ReleaseLine(ch.pin)]
    else ReconfigureOps(ch, m)
  }

  /** The line is given up if it is held, and requested anew. */
  function ReconfigureOps(ch: Channel, m: ChannelMode): seq<Op> {
    var request := if m == DigitalInput then RequestInput(ch.pin) else RequestOutput(ch.pin, ch.lastOutput);
    if ch.mode == Unconfigured then [request] else [ReleaseLine(ch.pin), request]
  }

  function AfterValset(ch: Channel, halValue: int): Channel {
    ch.(lastOutput := halValue != 0)
  }

  function ValsetOps(ch: Channel, halValue: int): seq<Op> {
    if ch.mode == DigitalOutput then [SetValue(ch.pin, halValue != 0)] else []
  }

  function SampleOps(ch: Channel): seq<Op> {
    if ch.mode == DigitalInput then [GetValue(ch.pin)] else []
  }

  /** The backend holds exactly what the channel's mode says, and an output is at the remembered
      level. */
  predicate Holds(lines: Lines, ch: Channel) {
    match ch.mode
    case Unconfigured => ch.pin !in lines
    case DigitalInput => ch.pin in lines && lines[ch.pin] == Input
    case DigitalOutput => ch.pin in lines && lines[ch.pin] == Output(ch.lastOutput)
  }

  /** The backend comes to hold what `ch` says, and no other pin is affected. */
  predicate BringsTo(lines: Lines, ops: seq<Op>, ch: Channel) {
    var lines' := DriveAll(lines, ops);
    Holds(lines', ch) && lines' - {ch.pin} == lines - {ch.pin}
  }

  lemma TypeOpsHold(ch: Channel, halType: int, lines: Lines)
    requires Holds(lines, ch)
    ensures BringsTo(lines, TypeOps(ch, halType), AfterType(ch, halType))
  {
    var ops := TypeOps(ch, halType);
    DriveFew(lines, ReleaseLine(ch.pin), RequestInput(ch.pin));
    DriveFew(lines, ReleaseLine(ch.pin), RequestOutput(ch.pin, ch.lastOutput));
    DriveFew(lines, RequestInput(ch.pin), ReleaseLine(ch.pin));
    DriveFew(lines, RequestOutput(ch.pin, ch.lastOutput), ReleaseLine(ch.pin));
  }

  lemma ValsetOpsHold(ch: Channel, halValue: int, lines: Lines)
    requires Holds(lines, ch)
    ensures BringsTo(lines, ValsetOps(ch, halValue), AfterValset(ch, halValue))
  {
  }

  lemma SampleOpsHold(ch: Channel, lines: Lines)
    ensures DriveAll(lines, SampleOps(ch)) == lines
  {
  }

  class SmartIoChannel {
    const gpio: int
    const backend: LibgpiodBackend
    var mode: ChannelMode
    var lastOutput: bool

    ghost function State(): Channel
      reads this
    {
      Channel(gpio, mode, lastOutput)
    }

    constructor (gpio: int, backend: LibgpiodBackend)
      ensures this.backend == backend && State() == Channel(gpio, Unconfigured, false)
    {
      this.gpio, this.backend := gpio, backend;
      mode, lastOutput := Unconfigured, false;
    }

    method OnTypeChanged(halType: int)
      requires backend.Valid()
      modifies this, backend
      ensures backend.Valid() && State() == AfterType(old(State()), halType)
      ensures backend.ops == old(backend.ops) + TypeOps(old(State()), halType)
    {
      var requested;
      if halType == 0 {
        requested := DigitalInput;
      } else if halType == 1 {
        requested := DigitalOutput;
      } else {
        // Unsupported: give the line up if it is held.
        if mode != Unconfigured {
          backend.ReleaseLine(gpio);
          mode := Unconfigured;
        }
        return;
      }
      if requested == mode {
        return;
      }
      Reconfigure(requested);
    }

    /** Exchanges the line for one in the other mode. */
    method Reconfigure(requested: ChannelMode)
      requires backend.Valid() && requested != mode && requested != Unconfigured
      modifies this`mode, backend
      ensures backend.Valid() && mode == requested
      ensures backend.ops == old(backend.ops) + ReconfigureOps(old(State()), requested)
    {
      ghost var ops := backend.ops;
      if mode != Unconfigured {
        backend.ReleaseLine(gpio);
      }
      if requested == DigitalInput {
        backend.RequestInput(gpio);
      } else {
        backend.RequestOutput(gpio, lastOutput);
      }
      assert backend.ops == ops + ReconfigureOps(State(), requested);
      mode := requested;
    }

    method OnValset(halValue: int)
      requires backend.Valid()
      modifies this, backend
      ensures backend.Valid() && State() == AfterValset(old(State()), halValue)
      ensures backend.ops == old(backend.ops) + ValsetOps(old(State()), halValue)
    {
      var b := halValue != 0;
      lastOutput := b;
      if mode != DigitalOutput {
        return;
      }
      backend.SetValue(gpio, b);
    }

    method SampleInput(wire: bool) returns (hi: bool)
      requires backend.Valid()
      modifies backend`ops
      ensures backend.Valid() && backend.ops == old(backend.ops) + SampleOps(State())
      ensures hi == (mode == DigitalInput && Read(backend.lines, gpio, wire))
    {
      if mode != DigitalInput {
        return false;
      }
      hi := backend.GetValue(gpio, wire);
    }
  }
}
