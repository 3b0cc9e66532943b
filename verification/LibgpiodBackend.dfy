/** The GPIO backend as a map of the lines it holds, and the operations made on it. */
module LibgpiodBackend {
  datatype Line = Input | Output(level: bool)

  datatype Op =
    | ReleaseLine(pin: int)
    | RequestInput(pin: int)
    | RequestOutput(pin: int, level: bool)
    | SetValue(pin: int, level: bool)
    | GetValue(pin: int)

  type Lines = map<int, Line>

  /** What an operation does to the held lines. Driving a line that is not held, or held as an
      input, changes nothing. */
  function Drive(lines: Lines, op: Op): Lines {
    match op
    case ReleaseLine(p) => lines - {p}
    case RequestInput(p) => lines[p := Input]
    case RequestOutput(p, v) => lines[p := Output(v)]
    case SetValue(p, v) => if p in lines && lines[p].Output? then lines[p := Output(v)] else lines
    case GetValue(_) => lines
  }

  function DriveAll(lines: Lines, ops: seq<Op>): Lines {
    if ops == [] then lines else Drive(DriveAll(lines, ops[..|ops| - 1]), ops[|ops| - 1])
  }

  /** The level read from a pin whose wire is at `wire`. */
  function Read(lines: Lines, pin: int, wire: bool): bool {
    pin in lines && match lines[pin] case Input => wire case Output(v) => v
  }

  /** An input reads its wire, an output what it was driven to last, and a line not held reads low;
      driving anything but an output changes nothing. */
  lemma ReadsBack(lines: Lines, pin: int, level: bool, wire: bool)
    ensures Read(Drive(lines, RequestInput(pin)), pin, wire) == wire
    ensures Read(Drive(lines, RequestOutput(pin, level)), pin, wire) == level
    ensures Read(Drive(Drive(lines, RequestOutput(pin, !level)), SetValue(pin, level)), pin, wire) == level
    ensures !Read(Drive(lines, ReleaseLine(pin)), pin, wire)
    ensures pin !in lines || lines[pin] == Input ==> Drive(lines, SetValue(pin, level)) == lines
  {
  }

  /** No operation affects another pin, and reading affects none. */
  lemma OthersUntouched(lines: Lines, op: Op)
    ensures Drive(lines, op) - {op.pin} == lines - {op.pin}
    ensures op.GetValue? ==> Drive(lines, op) == lines
  {
  }

  lemma {:induction false} DriveAppends(lines: Lines, a: seq<Op>, b: seq<Op>)
    ensures DriveAll(lines, a + b) == DriveAll(DriveAll(lines, a), b)
  {
    if b == [] {
      assert a + b == a;
    } else {
      var n := |b| - 1;
      assert (a + b)[..|a + b| - 1] == a + b[..n];
      DriveAppends(lines, a, b[..n]);
    }
  }

  lemma DriveFew(lines: Lines, a: Op, b: Op)
    ensures DriveAll(lines, []) == lines
    ensures DriveAll(lines, [a]) == Drive(lines, a)
    ensures DriveAll(lines, [a, b]) == Drive(Drive(lines, a), b)
  {
  }

  class LibgpiodBackend {
    var lines: Lines
    ghost var ops: seq<Op>  // every operation asked for, in order

    ghost predicate Valid()
      reads this
    {
      lines == DriveAll(map[], ops)
    }

    constructor ()
      ensures Valid() && ops == []
    {
      lines, ops := map[], [];
    }

    /** Gives the line up if it is held. */
    method Erase(gpio: int)
      modifies this`lines
      ensures lines == old(lines) - {gpio}
    {
      if gpio !in lines { return; }
      lines := lines - {gpio};
    }

    method ReleaseLine(gpio: int)
      requires Valid()
      modifies this
      ensures Valid() && ops == old(ops) + [Op.ReleaseLine(gpio)]
    {
      Erase(gpio);
      ops := ops + [Op.ReleaseLine(gpio)];
    }

    method RequestInput(gpio: int)
      requires Valid()
      modifies this
      ensures Valid() && ops == old(ops) + [Op.RequestInput(gpio)]
    {
      Erase(gpio);
      lines := lines[gpio := Input];
      ops := ops + [Op.RequestInput(gpio)];
    }

    method RequestOutput(gpio: int, initialValue: bool)
      requires Valid()
      modifies this
      ensures Valid() && ops == old(ops) + [Op.RequestOutput(gpio, initialValue)]
    {
      Erase(gpio);
      lines := lines[gpio := Output(initialValue)];
      ops := ops + [Op.RequestOutput(gpio, initialValue)];
    }

    method SetValue(gpio: int, value: bool)
      requires Valid()
      modifies this
      ensures Valid() && ops == old(ops) + [Op.SetValue(gpio, value)]
    {
      if gpio in lines && lines[gpio].Output? {
        lines := lines[gpio := Output(value)];
      }
      ops := ops + [Op.SetValue(gpio, value)];
    }

    method GetValue(gpio: int, wire: bool) returns (value: bool)
      requires Valid()
      modifies this`ops
      ensures Valid() && ops == old(ops) + [Op.GetValue(gpio)] && value == Read(lines, gpio, wire)
    {
      ops := ops + [Op.GetValue(gpio)];
      if gpio !in lines {
        return false;
      }
      match lines[gpio] {
        case Input => value := wire;
        case Output(v) => value := v;
      }
    }
  }
}
